/** Python list slicing `xs[i:j]` and `range(start, stop, step)`, including their negative
    arguments. */
module PyList {
  import opened Wrappers
  import opened Arith

  /** Where a slice bound i points in a list of length n: a negative bound counts from the end,
      and both are clamped to the list. */
  function SliceIndex(i: int, n: nat): (r: nat)
    ensures r <= n
    ensures 0 <= i ==> r == Min(i, n)
    ensures i < 0 ==> r == Max(0, n + i)
  {
    if i < 0 then (if n + i < 0 then 0 else n + i) else if i > n then n else i
  }

  /** `xs[i:j]`. */
  function Slice<T>(xs: seq<T>, i: int, j: int): (r: seq<T>)
    ensures |r| <= |xs|
  {
    var a, b := SliceIndex(i, |xs|), SliceIndex(j, |xs|);
    if a < b then xs[a..b] else []
  }

  /** With non-negative bounds a slice is the elements from i up to j, as far as the list goes. */
  lemma SliceNonNegative<T>(xs: seq<T>, i: int, j: int)
    requires 0 <= i && 0 <= j
    ensures |Slice(xs, i, j)| == Max(0, Min(j, |xs|) - Min(i, |xs|))
    ensures forall k :: 0 <= k < |Slice(xs, i, j)| ==> Slice(xs, i, j)[k] == xs[i + k]
  {
    if SliceIndex(i, |xs|) < SliceIndex(j, |xs|) {
      assert Slice(xs, i, j) == xs[i..Min(j, |xs|)];
    }
  }

  /** `xs[:j]`: the first j elements, or all but the last -j when j is negative. */
  lemma TakeSpec<T>(xs: seq<T>, j: int)
    ensures 0 <= j ==> Slice(xs, 0, j) == xs[..Min(j, |xs|)]
    ensures j < 0 ==> Slice(xs, 0, j) == xs[..Max(0, |xs| + j)]
  {
  }

  /** `range(start, stop, step)` with a positive step. */
  function RangeUp(start: int, stop: int, step: int): seq<int>
    requires step > 0
    decreases stop - start
  {
    if start >= stop then [] else [start] + RangeUp(start + step, stop, step)
  }

  /** `range(start, stop, step)` with a negative step. */
  function RangeDown(start: int, stop: int, step: int): seq<int>
    requires step < 0
    decreases start - stop
  {
    if start <= stop then [] else [start] + RangeDown(start + step, stop, step)
  }

  /** `list(range(start, stop, step))`; a zero step raises ValueError. */
  function Range(start: int, stop: int, step: int): (r: Result<seq<int>, string>)
    ensures r.Failure? <==> step == 0
  {
    if step == 0 then Failure("range() arg 3 must not be zero")
    else if step > 0 then Success(RangeUp(start, stop, step))
    else Success(RangeDown(start, stop, step))
  }

  /** One step fewer leaves one fewer element: ceil(d / step) = 1 + ceil((d - step) / step). */
  lemma CeilDivStep(d: int, step: int)
    requires d >= 1 && step > 0
    ensures (d + step - 1) / step == 1 + (if d <= step then 0 else (d - step + step - 1) / step)
  {
    var q, r := (d - 1) / step, (d - 1) % step;
    assert d - 1 == q * step + r;
    assert d + step - 1 == (q + 1) * step + r;
    DivModOf(q + 1, r, step);
    if d <= step {
      DivModOf(0, d - 1, step);
    }
  }

  /** With a positive step the range holds start, start + step, start + 2 * step, ... below
      stop: (stop - start + step - 1) // step of them, or none when stop <= start. */
  lemma {:induction false} RangeUpSpec(start: int, stop: int, step: int)
    requires step > 0
    ensures |RangeUp(start, stop, step)| == if stop <= start then 0 else (stop - start + step - 1) / step
    ensures forall k :: 0 <= k < |RangeUp(start, stop, step)| ==>
      RangeUp(start, stop, step)[k] == start + k * step < stop
    decreases stop - start
  {
    if start < stop {
      var r := RangeUp(start, stop, step);
      var rest := RangeUp(start + step, stop, step);
      RangeUpSpec(start + step, stop, step);
      CeilDivStep(stop - start, step);
      forall k | 0 <= k < |r| ensures r[k] == start + k * step < stop {
        if k > 0 {
          assert r[k] == rest[k - 1];
        }
      }
    }
  }

  /** The lists one after another, as repeated `extend` builds them. */
  function Flatten<T>(xss: seq<seq<T>>): seq<T>
    decreases |xss|
  {
    if xss == [] then [] else xss[0] + Flatten(xss[1..])
  }
}
