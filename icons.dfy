/** split_image_to_icons.py: cutting an image of w × h pixels into an N × N grid of equal
    tiles, each saved as "<stem>_<row>_<column>.png" in the output directory. The pixels are
    not part of the model: a tile is its crop box and the file it is saved to. */
module Icons {
  import opened Wrappers
  import opened Strings
  import opened PyPath
  import opened Arith

  /** The tile in row `row` and column `col` of the grid: the box handed to `img.crop` and the
      file it is saved to. */
  datatype Icon = Icon(row: nat, col: nat, left: int, upper: int, right: int, lower: int, file: Path)

  /** The file name of tile (i, j). */
  function IconName(stem: string, i: nat, j: nat): string {
    stem + "_" + NatToString(i) + "_" + NatToString(j) + ".png"
  }

  /** What one iteration of the inner loop crops and saves. */
  function IconAt(image: Path, outDir: string, iw: int, ih: int, i: nat, j: nat): Icon {
    var left := j * iw;
    var upper := i * ih;
    Icon(i, j, left, upper, left + iw, upper + ih, Path(outDir, IconName(Stem(image.name), i, j)))
  }

  /** Row i of the grid, columns 0 to n - 1. */
  function Row(image: Path, outDir: string, iw: int, ih: int, n: nat, i: nat): (r: seq<Icon>)
    ensures |r| == n
  {
    seq(n, j requires 0 <= j < n => IconAt(image, outDir, iw, ih, i, j))
  }

  /** Rows 0 to m - 1 of the grid, one after another. */
  function Rows(image: Path, outDir: string, iw: int, ih: int, n: nat, m: nat): (r: seq<Icon>)
    ensures |r| == m * n
    decreases m
  {
    if m == 0 then []
    else
      var r := Rows(image, outDir, iw, ih, n, m - 1) + Row(image, outDir, iw, ih, n, m - 1);
      assert (m - 1) * n + n == m * n;
      r
  }

  /** `split_image_to_icons(image_path, output_dir, grid)` for an image of w × h pixels: the
      division by a zero grid raises; `range(grid)` is empty for a negative one. Only a zero
      grid raises, and otherwise there are grid * grid tiles (none when the grid is negative). */
  function Icons(image: Path, outDir: string, w: nat, h: nat, grid: int): (r: Result<seq<Icon>, string>)
    ensures r.Failure? <==> grid == 0
    ensures r.Success? ==> |r.value| == if grid > 0 then grid * grid else 0
  {
    if grid == 0 then Failure("integer division or modulo by zero")
    else
      var n := if grid > 0 then grid else 0;
      Success(Rows(image, outDir, FloorDiv(w, grid), FloorDiv(h, grid), n, n))
  }

  /** The nested loops of lines 14-22. */
  method SplitImageToIcons(image: Path, outDir: string, w: nat, h: nat, grid: int)
    returns (r: Result<seq<Icon>, string>)
    ensures r == Icons(image, outDir, w, h, grid)
  {
    if grid == 0 {
      return Failure("integer division or modulo by zero");
    }
    var iconW, iconH := FloorDiv(w, grid), FloorDiv(h, grid);
    var n := if grid > 0 then grid else 0;
    var icons: seq<Icon> := [];
    for i := 0 to n
      invariant icons == Rows(image, outDir, iconW, iconH, n, i)
    {
      ghost var before := icons;
      for j := 0 to n
        invariant icons == before + Row(image, outDir, iconW, iconH, n, i)[..j]
      {
        var left := j * iconW;
        var upper := i * iconH;
        var right := left + iconW;
        var lower := upper + iconH;
        var iconFile := Path(outDir, Stem(image.name) + "_" + NatToString(i) + "_" + NatToString(j) + ".png");
        var icon := Icon(i, j, left, upper, right, lower, iconFile);
        assert Row(image, outDir, iconW, iconH, n, i)[..j + 1]
            == Row(image, outDir, iconW, iconH, n, i)[..j] + [icon];
        icons := icons + [icon];
      }
      assert Row(image, outDir, iconW, iconH, n, i)[..n] == Row(image, outDir, iconW, iconH, n, i);
    }
    r := Success(icons);
  }

  // ---------------------------------------------------------------- positions

  /** Position k of the first m rows is tile (k / n, k % n): the order is row-major. */
  lemma {:induction false} RowsIndex(image: Path, outDir: string, iw: int, ih: int, n: nat, m: nat, k: int)
    ensures 0 <= k < m * n ==> n > 0 && Rows(image, outDir, iw, ih, n, m)[k] == IconAt(image, outDir, iw, ih, k / n, k % n)
    decreases m
  {
    if m > 0 {
      RowsIndex(image, outDir, iw, ih, n, m - 1, k);
      assert (m - 1) * n + n == m * n;
      if (m - 1) * n <= k < m * n {
        DivModOf(m - 1, k - (m - 1) * n, n);
      }
    }
  }

  // ---------------------------------------------------------------- properties

  /** Tile (i, j) sits at position i * grid + j and is the box
      (j * iw, i * ih, j * iw + iw, i * ih + ih) with iw = w // grid and ih = h // grid,
      saved as "<stem>_<i>_<j>.png" in the output directory. */
  lemma IconsAt(image: Path, outDir: string, w: nat, h: nat, grid: int, i: nat, j: nat)
    requires grid > 0 && i < grid && j < grid
    ensures var tiles := Icons(image, outDir, w, h, grid).value;
      var iw, ih := w / grid, h / grid;
      i * grid + j < |tiles|
      && tiles[i * grid + j] == Icon(i, j, j * iw, i * ih, j * iw + iw, i * ih + ih,
                                     Path(outDir, IconName(Stem(image.name), i, j)))
  {
    var k := i * grid + j;
    MulMono(i + 1, grid, grid);
    DivModOf(i, j, grid);
    IconsIndex(image, outDir, w, h, grid, k);
  }

  /** Position k holds tile (k // grid, k % grid). */
  lemma IconsIndex(image: Path, outDir: string, w: nat, h: nat, grid: int, k: int)
    requires grid > 0 && 0 <= k < grid * grid
    ensures var tiles := Icons(image, outDir, w, h, grid).value;
      k < |tiles| && tiles[k] == IconAt(image, outDir, w / grid, h / grid, k / grid, k % grid)
      && tiles[k].row == k / grid < grid && tiles[k].col == k % grid
  {
    RowsIndex(image, outDir, w / grid, h / grid, grid, grid, k);
    if k / grid >= grid {
      MulMono(grid, k / grid, grid);
    }
  }

  /** Pixel (x, y) lies in the crop box of a tile. */
  predicate InBox(t: Icon, x: int, y: int) {
    t.left <= x < t.right && t.upper <= y < t.lower
  }

  /** Cell j of n cells of size total // n lies within the first n cells, which lie within the
      total and leave less than n over. */
  lemma Span(j: int, n: int, size: int, total: int)
    requires n > 0 && 0 <= j < n && total >= 0 && size == total / n
    ensures 0 <= j * size <= j * size + size <= n * size <= total < n * size + n
  {
    MulMono(0, j, size);
    MulMono(j + 1, n, size);
    assert size * n + total % n == total;
  }

  /** Cells a and b of one size that share a point are the same cell. */
  lemma SpanUnique(a: int, b: int, size: int, x: int)
    requires size >= 0
    requires a * size <= x < a * size + size && b * size <= x < b * size + size
    ensures a == b
  {
    if a < b {
      MulMono(a + 1, b, size);
    } else if b < a {
      MulMono(b + 1, a, size);
    }
  }

  /** A point of the first n cells lies in cell x // size. */
  lemma SpanOf(x: int, n: int, size: int)
    requires n > 0 && 0 <= x < n * size
    ensures size > 0 && 0 <= x / size < n && (x / size) * size <= x < (x / size) * size + size
  {
    assert size > 0 by {
      if size <= 0 {
        MulMono(size, 0, n);
      }
    }
    var q := x / size;
    assert q * size + x % size == x;
    if q >= n {
      MulMono(n, q, size);
    }
  }

  /** Every tile lies within the first grid * iw columns and grid * ih rows, which lie within
      the image; what is dropped on the right and at the bottom is less than grid pixels. */
  lemma IconsInside(image: Path, outDir: string, w: nat, h: nat, grid: int, k: int)
    requires grid > 0 && 0 <= k < grid * grid
    ensures var tiles := Icons(image, outDir, w, h, grid).value;
      var iw, ih := w / grid, h / grid;
      0 <= tiles[k].left <= tiles[k].right <= grid * iw <= w < grid * iw + grid
      && 0 <= tiles[k].upper <= tiles[k].lower <= grid * ih <= h < grid * ih + grid
  {
    IconsIndex(image, outDir, w, h, grid, k);
    Span(k % grid, grid, w / grid, w);
    Span(k / grid, grid, h / grid, h);
  }

  /** Two tiles that share a pixel are the same tile. */
  lemma IconsDisjoint(image: Path, outDir: string, w: nat, h: nat, grid: int, k: int, l: int, x: int, y: int)
    requires grid > 0 && 0 <= k < grid * grid && 0 <= l < grid * grid
    requires InBox(Icons(image, outDir, w, h, grid).value[k], x, y)
    requires InBox(Icons(image, outDir, w, h, grid).value[l], x, y)
    ensures k == l
  {
    IconsIndex(image, outDir, w, h, grid, k);
    IconsIndex(image, outDir, w, h, grid, l);
    SpanUnique(k % grid, l % grid, w / grid, x);
    SpanUnique(k / grid, l / grid, h / grid, y);
    DivModEq(k, l, grid);
  }

  lemma DivModEq(k: int, l: int, n: int)
    requires n > 0 && k / n == l / n && k % n == l % n
    ensures k == l
  {
    assert k == (k / n) * n + k % n;
    assert l == (l / n) * n + l % n;
  }

  /** Some tile holds pixel (x, y). */
  ghost predicate Covered(tiles: seq<Icon>, x: int, y: int) {
    exists k :: 0 <= k < |tiles| && InBox(tiles[k], x, y)
  }

  /** The tiles cover the first grid * iw columns and grid * ih rows. */
  lemma IconsCover(image: Path, outDir: string, w: nat, h: nat, grid: int, x: int, y: int)
    requires grid > 0
    requires 0 <= x < grid * (w / grid) && 0 <= y < grid * (h / grid)
    ensures Covered(Icons(image, outDir, w, h, grid).value, x, y)
  {
    SpanOf(x, grid, w / grid);
    SpanOf(y, grid, h / grid);
    var i, j := y / (h / grid), x / (w / grid);
    IconsAt(image, outDir, w, h, grid, i, j);
    var tiles := Icons(image, outDir, w, h, grid).value;
    assert InBox(tiles[i * grid + j], x, y);
  }

  /** Two names "<p>_<a>_<b><sfx>" with no underscore in a and c agree only part by part. */
  lemma PartsCancel(p: string, a: string, b: string, c: string, d: string, sfx: string)
    requires '_' !in a && '_' !in c
    requires p + "_" + a + "_" + b + sfx == p + "_" + c + "_" + d + sfx
    ensures a == c && b == d
  {
    assert p + "_" + a + "_" + b + sfx == (p + "_") + (a + ['_'] + b) + sfx;
    assert p + "_" + c + "_" + d + sfx == (p + "_") + (c + ['_'] + d) + sfx;
    FrameCancel(p + "_", a + ['_'] + b, c + ['_'] + d, sfx);
    SeparatorCancel(a, b, c, d, '_');
  }

  lemma DigitsOnly(n: nat)
    ensures '_' !in NatToString(n)
  {
    var s := NatToString(n);
    assert forall k :: 0 <= k < |s| ==> s[k] != '_';
  }

  /** Different (row, column) pairs get different file names. */
  lemma IconNameInjective(stem: string, i: nat, j: nat, i': nat, j': nat)
    requires IconName(stem, i, j) == IconName(stem, i', j')
    ensures i == i' && j == j'
  {
    DigitsOnly(i);
    DigitsOnly(i');
    PartsCancel(stem, NatToString(i), NatToString(j), NatToString(i'), NatToString(j'), ".png");
    NatToStringInjective(i, i');
    NatToStringInjective(j, j');
  }

  /** No two tiles of one image are saved to the same file. */
  lemma IconsFilesDistinct(image: Path, outDir: string, w: nat, h: nat, grid: int, k: int, l: int)
    requires grid > 0 && 0 <= k < grid * grid && 0 <= l < grid * grid && k != l
    ensures Icons(image, outDir, w, h, grid).value[k].file != Icons(image, outDir, w, h, grid).value[l].file
  {
    IconsIndex(image, outDir, w, h, grid, k);
    IconsIndex(image, outDir, w, h, grid, l);
    var tiles := Icons(image, outDir, w, h, grid).value;
    if tiles[k].file == tiles[l].file {
      IconNameInjective(Stem(image.name), k / grid, k % grid, l / grid, l % grid);
      DivModEq(k, l, grid);
    }
  }
}
