/** removeBG_and_centerOJ.py without the pixels: the bounding box of the visible part of an
    image (its alpha channel), the integer layout center_object computes for the canvas, the
    crop and the paste, and which files the script reads and which it writes. The background
    removal, the resampling and the floating-point scale factors are not part of this model:
    the truncated scaled size `int(obj * scale)` comes in as a parameter. */
module RemoveBg {
  import opened Wrappers
  import opened Strings
  import opened PyPath
  import opened StrOrder
  import opened Arith

  // ---------------------------------------------------------------- find_object_bounds

  /** An image as its size and its alpha channel, one row of values per line from the top. */
  datatype Image = Image(width: nat, height: nat, alpha: seq<seq<int>>)

  /** The channel has `height` rows of `width` values. */
  predicate Wf(img: Image) {
    |img.alpha| == img.height && forall y :: 0 <= y < |img.alpha| ==> |img.alpha[y]| == img.width
  }

  /** Pixel (x, y) exists and is not fully transparent. */
  predicate Visible(alpha: seq<seq<int>>, x: int, y: int) {
    0 <= y < |alpha| && 0 <= x < |alpha[y]| && alpha[y][x] > 0
  }

  /** `(left, top, right, bottom)`, right and bottom exclusive. */
  datatype Box = Box(left: int, top: int, right: int, bottom: int)

  /** The first visible column of a row from column k on. */
  function FirstFrom(row: seq<int>, k: nat): Option<nat>
    decreases |row| - k
  {
    if k >= |row| then None
    else if row[k] > 0 then Some(k)
    else FirstFrom(row, k + 1)
  }

  /** The last visible column of a row before column k. */
  function LastBelow(row: seq<int>, k: nat): Option<nat>
    decreases k
  {
    if k == 0 then None
    else if k - 1 < |row| && row[k - 1] > 0 then Some(k - 1)
    else LastBelow(row, k - 1)
  }

  function MinOpt(a: Option<nat>, b: Option<nat>): Option<nat> {
    match (a, b)
    case (None, _) => b
    case (_, None) => a
    case (Some(x), Some(y)) => Some(if x <= y then x else y)
  }

  function MaxOpt(a: Option<nat>, b: Option<nat>): Option<nat> {
    match (a, b)
    case (None, _) => b
    case (_, None) => a
    case (Some(x), Some(y)) => Some(if x >= y then x else y)
  }

  /** `non_transparent[1].min()` over the rows from y on. */
  function LeftFrom(alpha: seq<seq<int>>, y: nat): Option<nat>
    decreases |alpha| - y
  {
    if y >= |alpha| then None else MinOpt(FirstFrom(alpha[y], 0), LeftFrom(alpha, y + 1))
  }

  /** `non_transparent[1].max()` over the rows from y on. */
  function RightFrom(alpha: seq<seq<int>>, y: nat): Option<nat>
    decreases |alpha| - y
  {
    if y >= |alpha| then None else MaxOpt(LastBelow(alpha[y], |alpha[y]|), RightFrom(alpha, y + 1))
  }

  /** `non_transparent[0].min()` over the rows from y on. */
  function TopFrom(alpha: seq<seq<int>>, y: nat): Option<nat>
    decreases |alpha| - y
  {
    if y >= |alpha| then None
    else if FirstFrom(alpha[y], 0).Some? then Some(y)
    else TopFrom(alpha, y + 1)
  }

  /** `non_transparent[0].max()` over the rows before y. */
  function BottomBelow(alpha: seq<seq<int>>, y: nat): Option<nat>
    decreases y
  {
    if y == 0 then None
    else if y - 1 < |alpha| && FirstFrom(alpha[y - 1], 0).Some? then Some(y - 1)
    else BottomBelow(alpha, y - 1)
  }

  /** `find_object_bounds(image)`: the whole image when no pixel is visible, otherwise the
      smallest box holding every visible pixel. */
  function Bounds(img: Image): Box {
    var a := img.alpha;
    match (TopFrom(a, 0), BottomBelow(a, |a|), LeftFrom(a, 0), RightFrom(a, 0))
    case (Some(t), Some(b), Some(l), Some(r)) => Box(l, t, r + 1, b + 1)
    case _ => Box(0, 0, img.width, img.height)
  }

  lemma {:induction false} FirstFromSpec(row: seq<int>, k: nat)
    ensures FirstFrom(row, k).Some? ==>
      var i := FirstFrom(row, k).value;
      k <= i < |row| && row[i] > 0 && forall j :: k <= j < i ==> row[j] <= 0
    ensures FirstFrom(row, k).None? <==> forall j :: k <= j < |row| ==> row[j] <= 0
    decreases |row| - k
  {
    if k < |row| && row[k] <= 0 {
      FirstFromSpec(row, k + 1);
    }
  }

  lemma {:induction false} LastBelowSpec(row: seq<int>, k: nat)
    requires k <= |row|
    ensures LastBelow(row, k).Some? ==>
      var i := LastBelow(row, k).value;
      i < k && row[i] > 0 && forall j :: i < j < k ==> row[j] <= 0
    ensures LastBelow(row, k).None? <==> forall j :: 0 <= j < k ==> row[j] <= 0
    decreases k
  {
    if k > 0 && row[k - 1] <= 0 {
      LastBelowSpec(row, k - 1);
    }
  }

  /** Row y holds a visible pixel. */
  ghost predicate RowHas(alpha: seq<seq<int>>, y: int) {
    exists x :: Visible(alpha, x, y)
  }

  /** Column x holds a visible pixel. */
  ghost predicate ColumnHas(alpha: seq<seq<int>>, x: int) {
    exists y :: Visible(alpha, x, y)
  }

  /** Column x holds a visible pixel at row y or below. */
  ghost predicate ColumnHasFrom(alpha: seq<seq<int>>, x: int, y: int) {
    exists yy :: y <= yy && Visible(alpha, x, yy)
  }

  /** Row y has a visible pixel exactly when its first (last) visible column exists, which is
      then visible. */
  lemma RowVisible(alpha: seq<seq<int>>, y: nat)
    requires y < |alpha|
    ensures FirstFrom(alpha[y], 0).Some? <==> RowHas(alpha, y)
    ensures LastBelow(alpha[y], |alpha[y]|).Some? <==> RowHas(alpha, y)
    ensures FirstFrom(alpha[y], 0).Some? ==> Visible(alpha, FirstFrom(alpha[y], 0).value, y)
    ensures LastBelow(alpha[y], |alpha[y]|).Some? ==> Visible(alpha, LastBelow(alpha[y], |alpha[y]|).value, y)
  {
    var row := alpha[y];
    FirstFromSpec(row, 0);
    LastBelowSpec(row, |row|);
    if RowHas(alpha, y) {
      var x :| Visible(alpha, x, y);
      assert row[x] > 0;
    }
    if FirstFrom(row, 0).Some? {
      assert Visible(alpha, FirstFrom(row, 0).value, y);
    }
    if LastBelow(row, |row|).Some? {
      assert Visible(alpha, LastBelow(row, |row|).value, y);
    }
  }

  /** The leftmost visible column of the rows from y on: it is visible somewhere, and no
      visible pixel there lies left of it. */
  lemma MinOptSpec(a: Option<nat>, b: Option<nat>)
    ensures MinOpt(a, b).Some? <==> a.Some? || b.Some?
    ensures MinOpt(a, b).Some? ==>
      var m := MinOpt(a, b).value;
      ((a.Some? && m == a.value) || (b.Some? && m == b.value))
      && (a.Some? ==> m <= a.value) && (b.Some? ==> m <= b.value)
  {
  }

  lemma MaxOptSpec(a: Option<nat>, b: Option<nat>)
    ensures MaxOpt(a, b).Some? <==> a.Some? || b.Some?
    ensures MaxOpt(a, b).Some? ==>
      var m := MaxOpt(a, b).value;
      ((a.Some? && m == a.value) || (b.Some? && m == b.value))
      && (a.Some? ==> a.value <= m) && (b.Some? ==> b.value <= m)
  {
  }

  /** The leftmost visible column of the rows from y on: it is visible somewhere, and no
      visible pixel there lies left of it. */
  lemma {:induction false} LeftFromSpec(alpha: seq<seq<int>>, y: nat)
    ensures LeftFrom(alpha, y).Some? ==> ColumnHasFrom(alpha, LeftFrom(alpha, y).value, y)
    ensures LeftFrom(alpha, y).Some? ==>
      forall x, yy :: y <= yy && Visible(alpha, x, yy) ==> LeftFrom(alpha, y).value <= x
    ensures LeftFrom(alpha, y).None? <==> forall x, yy :: y <= yy ==> !Visible(alpha, x, yy)
    decreases |alpha| - y
  {
    if y < |alpha| {
      LeftFromSpec(alpha, y + 1);
      RowVisible(alpha, y);
      FirstFromSpec(alpha[y], 0);
      var here, rest := FirstFrom(alpha[y], 0), LeftFrom(alpha, y + 1);
      assert LeftFrom(alpha, y) == MinOpt(here, rest);
      MinOptSpec(here, rest);
      forall x, yy | y <= yy && Visible(alpha, x, yy)
        ensures LeftFrom(alpha, y).Some? && LeftFrom(alpha, y).value <= x
      {
        if yy == y {
          assert alpha[y][x] > 0 && here.Some? && here.value <= x;
        } else {
          assert rest.Some? && rest.value <= x;
        }
      }
      if LeftFrom(alpha, y).Some? {
        var c := LeftFrom(alpha, y).value;
        if here.Some? && c == here.value {
          assert y <= y && Visible(alpha, c, y);
        } else {
          var yy :| y + 1 <= yy && Visible(alpha, rest.value, yy);
          assert y <= yy && Visible(alpha, c, yy);
        }
        assert ColumnHasFrom(alpha, c, y);
      }
    }
  }

  lemma {:induction false} RightFromSpec(alpha: seq<seq<int>>, y: nat)
    ensures RightFrom(alpha, y).Some? ==> ColumnHasFrom(alpha, RightFrom(alpha, y).value, y)
    ensures RightFrom(alpha, y).Some? ==>
      forall x, yy :: y <= yy && Visible(alpha, x, yy) ==> x <= RightFrom(alpha, y).value
    ensures RightFrom(alpha, y).None? <==> forall x, yy :: y <= yy ==> !Visible(alpha, x, yy)
    decreases |alpha| - y
  {
    if y < |alpha| {
      RightFromSpec(alpha, y + 1);
      RowVisible(alpha, y);
      LastBelowSpec(alpha[y], |alpha[y]|);
      var here, rest := LastBelow(alpha[y], |alpha[y]|), RightFrom(alpha, y + 1);
      assert RightFrom(alpha, y) == MaxOpt(here, rest);
      MaxOptSpec(here, rest);
      forall x, yy | y <= yy && Visible(alpha, x, yy)
        ensures RightFrom(alpha, y).Some? && x <= RightFrom(alpha, y).value
      {
        if yy == y {
          assert alpha[y][x] > 0 && here.Some? && x <= here.value;
        } else {
          assert rest.Some? && x <= rest.value;
        }
      }
      if RightFrom(alpha, y).Some? {
        var c := RightFrom(alpha, y).value;
        if here.Some? && c == here.value {
          assert y <= y && Visible(alpha, c, y);
        } else {
          var yy :| y + 1 <= yy && Visible(alpha, rest.value, yy);
          assert y <= yy && Visible(alpha, c, yy);
        }
        assert ColumnHasFrom(alpha, c, y);
      }
    }
  }

  lemma {:induction false} TopFromSpec(alpha: seq<seq<int>>, y: nat)
    ensures TopFrom(alpha, y).Some? ==>
      var t := TopFrom(alpha, y).value;
      y <= t && RowHas(alpha, t) && forall x, yy :: y <= yy && Visible(alpha, x, yy) ==> t <= yy
    ensures TopFrom(alpha, y).None? <==> forall x, yy :: y <= yy ==> !Visible(alpha, x, yy)
    decreases |alpha| - y
  {
    if y < |alpha| {
      RowVisible(alpha, y);
      if FirstFrom(alpha[y], 0).None? {
        TopFromSpec(alpha, y + 1);
        forall x, yy | y <= yy && Visible(alpha, x, yy) ensures y + 1 <= yy {
          if yy == y {
            assert RowHas(alpha, y);
          }
        }
      }
    }
  }

  lemma {:induction false} BottomBelowSpec(alpha: seq<seq<int>>, y: nat)
    requires y <= |alpha|
    ensures BottomBelow(alpha, y).Some? ==>
      var b := BottomBelow(alpha, y).value;
      b < y && RowHas(alpha, b) && forall x, yy :: yy < y && Visible(alpha, x, yy) ==> yy <= b
    ensures BottomBelow(alpha, y).None? <==> forall x, yy :: yy < y ==> !Visible(alpha, x, yy)
    decreases y
  {
    if y > 0 {
      RowVisible(alpha, y - 1);
      if FirstFrom(alpha[y - 1], 0).None? {
        BottomBelowSpec(alpha, y - 1);
        forall x, yy | yy < y && Visible(alpha, x, yy) ensures yy < y - 1 {
          if yy == y - 1 {
            assert false;
          }
        }
      }
    }
  }

  /** No visible pixel: the box is the whole image. */
  lemma BoundsEmpty(img: Image)
    requires forall x, y :: !Visible(img.alpha, x, y)
    ensures Bounds(img) == Box(0, 0, img.width, img.height)
  {
    TopFromSpec(img.alpha, 0);
  }

  /** Some visible pixel: the box lies within the image, is not empty, holds every visible
      pixel, and each of its four edges touches one. */
  lemma BoundsTight(img: Image, px: int, py: int)
    requires Wf(img) && Visible(img.alpha, px, py)
    ensures var b := Bounds(img);
      0 <= b.left < b.right <= img.width && 0 <= b.top < b.bottom <= img.height
      && (forall x, y :: Visible(img.alpha, x, y) ==> b.left <= x < b.right && b.top <= y < b.bottom)
      && RowHas(img.alpha, b.top) && RowHas(img.alpha, b.bottom - 1)
      && ColumnHas(img.alpha, b.left) && ColumnHas(img.alpha, b.right - 1)
  {
    var a := img.alpha;
    TopFromSpec(a, 0);
    BottomBelowSpec(a, |a|);
    LeftFromSpec(a, 0);
    RightFromSpec(a, 0);
    var t, bo, l, r := TopFrom(a, 0).value, BottomBelow(a, |a|).value, LeftFrom(a, 0).value, RightFrom(a, 0).value;
    assert Bounds(img) == Box(l, t, r + 1, bo + 1);
    var yr :| Visible(a, r, yr);
    var yl :| Visible(a, l, yl);
    assert ColumnHas(a, l) && ColumnHas(a, r);
    assert r < img.width;
  }

  // ---------------------------------------------------------------- center_object

  /** `(canvas - obj) // 2`. Python's floor division and Dafny's Euclidean division agree for
      the positive divisor 2, whatever the sign of the difference. */
  function Offset(canvas: int, obj: int): int {
    (canvas - obj) / 2
  }

  /** An object that fits is pasted inside the canvas, the left (top) margin being the smaller
      by at most one; one that does not fit starts before the canvas edge. */
  lemma OffsetCentred(canvas: int, obj: int)
    ensures var off := Offset(canvas, obj);
      (obj <= canvas <==> off >= 0)
      && (obj <= canvas ==> off + obj <= canvas && off <= canvas - (off + obj) <= off + 1)
  {
  }

  /** The box `cover` mode crops from the resized object: centred, and as wide (high) as the
      canvas or the object, whichever is smaller. */
  function CoverCrop(newWidth: nat, newHeight: nat, canvasWidth: nat, canvasHeight: nat): (b: Box)
    ensures 0 <= b.left <= b.right <= newWidth && 0 <= b.top <= b.bottom <= newHeight
    ensures b.right - b.left == Min(newWidth, canvasWidth)
    ensures b.bottom - b.top == Min(newHeight, canvasHeight)
    ensures b.left <= newWidth - b.right <= b.left + 1
    ensures b.top <= newHeight - b.bottom <= b.top + 1
  {
    var leftCrop := Max(0, (newWidth - canvasWidth) / 2);
    var topCrop := Max(0, (newHeight - canvasHeight) / 2);
    Box(leftCrop, topCrop, Min(newWidth, leftCrop + canvasWidth), Min(newHeight, topCrop + canvasHeight))
  }

  /** The canvas, the size of what is pasted on it and where. */
  datatype Layout = Layout(canvasWidth: int, canvasHeight: int, objWidth: int, objHeight: int,
                           pasteX: int, pasteY: int)

  /** The integer part of `center_object(image, target_size, fit_mode)`: with no target the
      canvas is the image and the cropped object is pasted unscaled; `contain` pastes the object
      resized to `scaled` (at least 1 by 1); `cover` resizes likewise and then crops to the
      canvas; any other mode stretches the object to the canvas. */
  function Center(img: Image, target: Option<(nat, nat)>, fitMode: string, scaled: (int, int)): Layout {
    var b := Bounds(img);
    var objWidth, objHeight := b.right - b.left, b.bottom - b.top;
    match target
    case None =>
      Layout(img.width, img.height, objWidth, objHeight,
             Offset(img.width, objWidth), Offset(img.height, objHeight))
    case Some((canvasWidth, canvasHeight)) =>
      var newWidth, newHeight := Max(1, scaled.0), Max(1, scaled.1);
      var (w, h) :=
        if fitMode == "contain" then (newWidth, newHeight)
        else if fitMode == "cover" then
          var c := CoverCrop(newWidth, newHeight, canvasWidth, canvasHeight);
          (c.right - c.left, c.bottom - c.top)
        else (canvasWidth, canvasHeight);
      Layout(canvasWidth, canvasHeight, w, h, Offset(canvasWidth, w), Offset(canvasHeight, h))
  }

  /** The paste position puts the object in the middle of the canvas, which it never leaves
      except where a `contain` resize came out larger than the canvas; `contain` and `cover`
      paste at least a 1 by 1 object (`cover` within a non-empty canvas). */
  lemma CenterPlacement(img: Image, target: Option<(nat, nat)>, fitMode: string, scaled: (int, int))
    requires Wf(img)
    ensures var l := Center(img, target, fitMode, scaled);
      var fits := l.objWidth <= l.canvasWidth && l.objHeight <= l.canvasHeight;
      (fits ==> 0 <= l.pasteX && l.pasteX + l.objWidth <= l.canvasWidth
                && 0 <= l.pasteY && l.pasteY + l.objHeight <= l.canvasHeight
                && l.pasteX <= l.canvasWidth - (l.pasteX + l.objWidth) <= l.pasteX + 1
                && l.pasteY <= l.canvasHeight - (l.pasteY + l.objHeight) <= l.pasteY + 1)
      && (target.None? || fitMode != "contain" ==> fits)
      && (target.Some? && fitMode == "contain" ==>
            l.objWidth == Max(1, scaled.0) && l.objHeight == Max(1, scaled.1))
      && (target.Some? && fitMode == "cover" && target.value.0 >= 1 && target.value.1 >= 1 ==>
            l.objWidth >= 1 && l.objHeight >= 1)
  {
    var l := Center(img, target, fitMode, scaled);
    OffsetCentred(l.canvasWidth, l.objWidth);
    OffsetCentred(l.canvasHeight, l.objHeight);
    if target.None? {
      var a := img.alpha;
      if py: int, px: int :| Visible(a, px, py) {
        BoundsTight(img, px, py);
      } else {
        BoundsEmpty(img);
      }
    }
  }

  // ---------------------------------------------------------------- which files

  const SupportedFormats: set<string> := {".jpg", ".jpeg", ".png", ".bmp", ".tiff", ".webp"}

  /** `path.suffix.lower() in supported_formats`. */
  predicate IsImage(name: string) {
    AsciiLower(Suffix(name)) in SupportedFormats
  }

  /** `if output_dir:`: None and "" are false. */
  predicate Given(outputDir: Option<string>) {
    outputDir.Some? && outputDir.value != ""
  }

  /** What process_single_file does with its argument: report it missing, report its format,
      or convert it into the named output. */
  datatype Single = Missing | Unsupported | Convert(input: Path, output: Path)

  /** `process_single_file(input_file, output_dir)`. */
  function SingleFile(input: Path, present: bool, outputDir: Option<string>): Single {
    if !present then Missing
    else if !IsImage(input.name) then Unsupported
    else
      var dir := if Given(outputDir) then outputDir.value else input.dir;
      Convert(input, Path(dir, Stem(input.name) + "_no_bg_centered.png"))
  }

  /** A file is converted exactly when it present and has a supported suffix in any case; the
      output keeps its stem, ends in "_no_bg_centered.png", goes to the output directory when
      one is given and beside the input otherwise, and is never the input itself. */
  lemma SingleFileSpec(input: Path, present: bool, outputDir: Option<string>)
    ensures var r := SingleFile(input, present, outputDir);
      (r == Missing <==> !present)
      && (r == Unsupported <==> present && !IsImage(input.name))
      && (r.Convert? ==>
            r.input == input
            && StartsWith(r.output.name, Stem(input.name))
            && EndsWith(r.output.name, "_no_bg_centered.png")
            && r.output.dir == (if Given(outputDir) then outputDir.value else input.dir)
            && r.output != input)
  {
    var r := SingleFile(input, present, outputDir);
    if r.Convert? {
      var stem, out := Stem(input.name), r.output.name;
      var tail := "_no_bg_centered.png";
      assert out == stem + tail;
      assert out[..|stem|] == stem;
      assert out[|out| - |tail|..] == tail;
      StemSuffix(input.name);
      NamesDiffer(stem, Suffix(input.name), tail);
    }
  }

  /** A suffix that is empty or starts with '.' cannot be a tail that starts with '_'. */
  lemma NamesDiffer(stem: string, x: string, tail: string)
    requires x == [] || x[0] == '.'
    requires tail != [] && tail[0] == '_'
    ensures stem + x != stem + tail
  {
    if x == [] {
      assert |stem + x| < |stem + tail|;
    } else {
      assert (stem + x)[|stem|] == '.';
      assert (stem + tail)[|stem|] == '_';
    }
  }

  /** An entry of `input_path.iterdir()`: its name and whether it is a regular file. */
  datatype Entry = Entry(name: string, isFile: bool)

  /** The names `process_directory` collects into its set. */
  function Candidates(entries: seq<Entry>): set<string> {
    set e | e in entries && e.isFile && IsImage(e.name) :: e.name
  }

  lemma CandidatesSnoc(entries: seq<Entry>, e: Entry)
    ensures Candidates(entries + [e])
         == Candidates(entries) + (if e.isFile && IsImage(e.name) then {e.name} else {})
  {
    var l, r := Candidates(entries + [e]), Candidates(entries) + (if e.isFile && IsImage(e.name) then {e.name} else {});
    forall n ensures n in l <==> n in r {
      if n in l {
        var f :| f in entries + [e] && f.isFile && IsImage(f.name) && f.name == n;
        if f != e {
          assert f in entries;
        }
      }
      if n in Candidates(entries) {
        var f :| f in entries && f.isFile && IsImage(f.name) && f.name == n;
        assert f in entries + [e];
      }
      if e.isFile && IsImage(e.name) && n == e.name {
        assert e in entries + [e];
      }
    }
  }

  /** How one file of the directory loop ended. */
  datatype Outcome = Skipped | Done | Failed

  /** The outcomes of the loop and the files on disk afterwards. */
  datatype Run = Run(outcomes: seq<Outcome>, disk: set<Path>)

  /** `output_path / f"{img_file.stem}.png"`. */
  function OutputOf(outDir: string, name: string): Path {
    Path(outDir, Stem(name) + ".png")
  }

  /** One file of the loop of lines 204-213: an output that already exists is skipped;
      otherwise the file is converted, which saves the output unless the conversion raised
      (caught and reported). `convert` says whether it saves. */
  function Step(inDir: string, name: string, outDir: string, convert: Path -> bool,
                disk: set<Path>): (Outcome, set<Path>)
  {
    var out := OutputOf(outDir, name);
    if out in disk then (Skipped, disk)
    else if convert(Path(inDir, name)) then (Done, disk + {out})
    else (Failed, disk)
  }

  /** The loop of lines 204-213 over the sorted names. */
  function RunOn(inDir: string, names: seq<string>, outDir: string, convert: Path -> bool,
                 disk: set<Path>): (r: Run)
    ensures |r.outcomes| == |names|
    decreases |names|
  {
    if names == [] then Run([], disk)
    else
      var step := Step(inDir, names[0], outDir, convert, disk);
      var rest := RunOn(inDir, names[1..], outDir, convert, step.1);
      Run([step.0] + rest.outcomes, rest.disk)
  }

  /** An earlier file of the loop (before position j) saved p. */
  ghost predicate SavedBefore(outDir: string, names: seq<string>, outcomes: seq<Outcome>, j: int, p: Path)
    requires |outcomes| == |names|
  {
    exists i :: 0 <= i < j && i < |names| && outcomes[i] == Done && OutputOf(outDir, names[i]) == p
  }

  lemma SavedBeforeShift(outDir: string, names: seq<string>, outcomes: seq<Outcome>, j: int, p: Path)
    requires |outcomes| == |names| && names != []
    ensures SavedBefore(outDir, names, outcomes, j, p) <==>
      (0 < j && outcomes[0] == Done && OutputOf(outDir, names[0]) == p)
      || SavedBefore(outDir, names[1..], outcomes[1..], j - 1, p)
  {
    if SavedBefore(outDir, names, outcomes, j, p) {
      var i :| 0 <= i < j && i < |names| && outcomes[i] == Done && OutputOf(outDir, names[i]) == p;
      if i > 0 {
        SavedLater(outDir, names, outcomes, j, p, i);
      }
    }
    if SavedBefore(outDir, names[1..], outcomes[1..], j - 1, p) {
      var i :| 0 <= i < j - 1 && i < |names[1..]| && outcomes[1..][i] == Done && OutputOf(outDir, names[1..][i]) == p;
      SavedEarlier(outDir, names, outcomes, j, p, i);
    }
  }

  lemma SavedLater(outDir: string, names: seq<string>, outcomes: seq<Outcome>, j: int, p: Path, i: int)
    requires |outcomes| == |names| && 0 < i < j && i < |names|
    requires outcomes[i] == Done && OutputOf(outDir, names[i]) == p
    ensures SavedBefore(outDir, names[1..], outcomes[1..], j - 1, p)
  {
    assert names[1..][i - 1] == names[i] && outcomes[1..][i - 1] == outcomes[i];
  }

  lemma SavedEarlier(outDir: string, names: seq<string>, outcomes: seq<Outcome>, j: int, p: Path, i: int)
    requires |outcomes| == |names| && names != [] && 0 <= i < j - 1 && i < |names| - 1
    requires outcomes[1..][i] == Done && OutputOf(outDir, names[1..][i]) == p
    ensures SavedBefore(outDir, names, outcomes, j, p)
  {
    assert names[i + 1] == names[1..][i] && outcomes[i + 1] == outcomes[1..][i];
  }

  /** The directory loop never overwrites a file: position j is skipped exactly when its
      output was on disk before the loop or saved by an earlier position. */
  lemma {:induction false} RunOnSkips(inDir: string, names: seq<string>, outDir: string,
                                      convert: Path -> bool, disk: set<Path>, j: nat)
    requires j < |names|
    ensures var r := RunOn(inDir, names, outDir, convert, disk);
      r.outcomes[j] == Skipped <==>
        OutputOf(outDir, names[j]) in disk
        || SavedBefore(outDir, names, r.outcomes, j, OutputOf(outDir, names[j]))
    decreases j
  {
    var r := RunOn(inDir, names, outDir, convert, disk);
    var d := Step(inDir, names[0], outDir, convert, disk).1;
    var rest := RunOn(inDir, names[1..], outDir, convert, d);
    assert r.outcomes[1..] == rest.outcomes;
    SavedBeforeShift(outDir, names, r.outcomes, j, OutputOf(outDir, names[j]));
    if j > 0 {
      RunOnSkips(inDir, names[1..], outDir, convert, d, j - 1);
      assert names[1..][j - 1] == names[j] && rest.outcomes[j - 1] == r.outcomes[j];
    }
  }

  /** A position that is not skipped is saved exactly when its conversion succeeds. */
  lemma {:induction false} RunOnConverts(inDir: string, names: seq<string>, outDir: string,
                                         convert: Path -> bool, disk: set<Path>, j: nat)
    requires j < |names|
    ensures var r := RunOn(inDir, names, outDir, convert, disk);
      r.outcomes[j] != Skipped ==> (r.outcomes[j] == Done <==> convert(Path(inDir, names[j])))
    decreases j
  {
    if j > 0 {
      var d := Step(inDir, names[0], outDir, convert, disk).1;
      RunOnConverts(inDir, names[1..], outDir, convert, d, j - 1);
      assert names[1..][j - 1] == names[j];
    }
  }

  /** The disk afterwards holds the files it held and the outputs saved, and nothing else. */
  lemma {:induction false} RunOnDisk(inDir: string, names: seq<string>, outDir: string,
                                     convert: Path -> bool, disk: set<Path>, p: Path)
    ensures var r := RunOn(inDir, names, outDir, convert, disk);
      p in r.disk <==> p in disk || SavedBefore(outDir, names, r.outcomes, |names|, p)
    decreases |names|
  {
    if names != [] {
      var r := RunOn(inDir, names, outDir, convert, disk);
      var d := Step(inDir, names[0], outDir, convert, disk).1;
      var rest := RunOn(inDir, names[1..], outDir, convert, d);
      assert r.outcomes[1..] == rest.outcomes;
      RunOnDisk(inDir, names[1..], outDir, convert, d, p);
      SavedBeforeShift(outDir, names, r.outcomes, |names|, p);
    }
  }

  /** What process_directory did: found no directory, found no image, or ran the loop over the
      sorted image names into an output directory. */
  datatype DirResult = NotADirectory | NoImages | Ran(images: seq<string>, outDir: string, run: Run)

  /** `process_directory(input_dir, output_dir)`, with `isDir` for `input_path.exists() and
      input_path.is_dir()`, the directory's entries in the order `iterdir` yields them, and the
      files on disk. */
  ghost function DirectoryResult(inDir: string, isDir: bool, entries: seq<Entry>,
                                 outputDir: Option<string>, convert: Path -> bool,
                                 disk: set<Path>): DirResult
  {
    if !isDir then NotADirectory
    else
      var images := SortedSet(Candidates(entries));
      if images == [] then NoImages
      else
        var outDir := if Given(outputDir) then outputDir.value else Full(Path(inDir, "no_bg_centered"));
        Ran(images, outDir, RunOn(inDir, images, outDir, convert, disk))
  }

  /** `sorted(list(image_files))`: the set taken out in whatever order, then sorted. */
  method SortedList(s: set<string>) returns (xs: seq<string>)
    ensures xs == SortedSet(s)
  {
    var listed: seq<string> := [];
    var rest := s;
    while rest != {}
      invariant Distinct(listed) && rest <= s
      invariant forall x :: x in listed <==> x in s && x !in rest
      decreases |rest|
    {
      var x :| x in rest;
      listed := listed + [x];
      rest := rest - {x};
    }
    xs := SortBy(listed, StrLt);
    SortDistinct(listed);
    SortedSetUnique(xs, SortedSet(s), s);
  }

  method ProcessDirectory(inDir: string, isDir: bool, entries: seq<Entry>, outputDir: Option<string>,
                          convert: Path -> bool, disk: set<Path>)
    returns (r: DirResult)
    ensures r == DirectoryResult(inDir, isDir, entries, outputDir, convert, disk)
  {
    if !isDir {
      return NotADirectory;
    }
    var imageFiles: set<string> := {};
    for k := 0 to |entries|
      invariant imageFiles == Candidates(entries[..k])
    {
      CandidatesSnoc(entries[..k], entries[k]);
      assert entries[..k + 1] == entries[..k] + [entries[k]];
      if entries[k].isFile && IsImage(entries[k].name) {
        imageFiles := imageFiles + {entries[k].name};
      }
    }
    assert entries[..|entries|] == entries;
    var images := SortedList(imageFiles);
    if images == [] {
      return NoImages;
    }
    var outDir := if Given(outputDir) then outputDir.value else Full(Path(inDir, "no_bg_centered"));
    var outcomes := RunLoop(inDir, images, outDir, convert, disk);
    r := Ran(images, outDir, outcomes);
  }

  /** The loop of lines 204-213. */
  method RunLoop(inDir: string, images: seq<string>, outDir: string, convert: Path -> bool,
                 disk: set<Path>)
    returns (run: Run)
    ensures run == RunOn(inDir, images, outDir, convert, disk)
  {
    var outcomes: seq<Outcome> := [];
    var onDisk := disk;
    for i := 0 to |images|
      invariant outcomes + RunOn(inDir, images[i..], outDir, convert, onDisk).outcomes
             == RunOn(inDir, images, outDir, convert, disk).outcomes
      invariant RunOn(inDir, images[i..], outDir, convert, onDisk).disk
             == RunOn(inDir, images, outDir, convert, disk).disk
    {
      var outputFile := OutputOf(outDir, images[i]);
      var o: Outcome;
      var next := onDisk;
      if outputFile in onDisk {
        o := Skipped;
      } else if convert(Path(inDir, images[i])) {
        o := Done;
        next := onDisk + {outputFile};
      } else {
        o := Failed;
      }
      RunOnStep(inDir, images, i, outDir, convert, onDisk, outcomes);
      assert (o, next) == Step(inDir, images[i], outDir, convert, onDisk);
      outcomes, onDisk := outcomes + [o], next;
    }
    assert images[|images|..] == [];
    assert outcomes + [] == outcomes;
    run := Run(outcomes, onDisk);
  }

  /** One turn of the loop moves the first outcome of the remaining run onto the done ones. */
  lemma RunOnStep(inDir: string, names: seq<string>, i: nat, outDir: string, convert: Path -> bool,
                  disk: set<Path>, done: seq<Outcome>)
    requires i < |names|
    ensures var step := Step(inDir, names[i], outDir, convert, disk);
      var now := RunOn(inDir, names[i..], outDir, convert, disk);
      var later := RunOn(inDir, names[i + 1..], outDir, convert, step.1);
      done + now.outcomes == (done + [step.0]) + later.outcomes && now.disk == later.disk
  {
    assert names[i..][1..] == names[i + 1..];
  }
}
