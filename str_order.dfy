/** Python's ordering of strings and of (key, value) pairs, and `sorted`, which is stable: an
    insertion sort that puts each element after the elements before it that it is not less
    than. */
module StrOrder {

  /** `a < b` on str: code points compared left to right, a proper prefix first. */
  predicate StrLt(a: string, b: string)
    decreases |a|
  {
    if a == [] then b != []
    else b != [] && (a[0] < b[0] || (a[0] == b[0] && StrLt(a[1..], b[1..])))
  }

  /** The first difference decides. */
  lemma {:induction false} StrLtAt(a: string, b: string, i: nat)
    requires i < |a| && i < |b| && a[..i] == b[..i] && a[i] < b[i]
    ensures StrLt(a, b)
    decreases i
  {
    if i > 0 {
      assert a[0] == a[..i][0] == b[..i][0] == b[0];
      assert a[1..][..i - 1] == a[..i][1..] == b[..i][1..] == b[1..][..i - 1];
      StrLtAt(a[1..], b[1..], i - 1);
    }
  }

  lemma {:induction false} StrLtAsym(a: string, b: string)
    ensures StrLt(a, b) ==> !StrLt(b, a)
    decreases |a|
  {
    if a != [] && b != [] && a[0] == b[0] {
      StrLtAsym(a[1..], b[1..]);
    }
  }

  lemma {:induction false} StrLtTotal(a: string, b: string)
    ensures a == b || StrLt(a, b) || StrLt(b, a)
    decreases |a|
  {
    if a != [] && b != [] && a[0] == b[0] {
      StrLtTotal(a[1..], b[1..]);
      if a[1..] == b[1..] {
        assert a == [a[0]] + a[1..] && b == [b[0]] + b[1..];
      }
    }
  }

  lemma {:induction false} StrLtTrans(a: string, b: string, c: string)
    requires StrLt(a, b) && StrLt(b, c)
    ensures StrLt(a, c)
    decreases |a|
  {
    if a != [] && a[0] == b[0] && b[0] == c[0] {
      StrLtTrans(a[1..], b[1..], c[1..]);
    }
  }

  /** `(k1, v1) < (k2, v2)` on 2-tuples of str. */
  predicate PairLt(x: (string, string), y: (string, string)) {
    StrLt(x.0, y.0) || (x.0 == y.0 && StrLt(x.1, y.1))
  }

  lemma PairLtAsym(x: (string, string), y: (string, string))
    ensures PairLt(x, y) ==> !PairLt(y, x)
  {
    StrLtAsym(x.0, y.0);
    StrLtAsym(y.0, x.0);
    StrLtAsym(x.1, y.1);
  }

  /** Adjacent elements are in order: no element is less than the one before it. */
  ghost predicate SortedBy<T>(s: seq<T>, lt: (T, T) -> bool) {
    forall i :: 0 <= i < |s| - 1 ==> !lt(s[i + 1], s[i])
  }

  /** x goes before the first element it is less than. */
  function InsertBy<T>(x: T, s: seq<T>, lt: (T, T) -> bool): (r: seq<T>)
    ensures |r| == |s| + 1
    decreases |s|
  {
    if s == [] then [x]
    else if lt(x, s[0]) then [x] + s
    else [s[0]] + InsertBy(x, s[1..], lt)
  }

  /** `sorted(s)`. */
  function SortBy<T>(s: seq<T>, lt: (T, T) -> bool): (r: seq<T>)
    ensures |r| == |s|
    decreases |s|
  {
    if s == [] then [] else InsertBy(s[|s| - 1], SortBy(s[..|s| - 1], lt), lt)
  }

  lemma {:induction false} InsertByPerm<T>(x: T, s: seq<T>, lt: (T, T) -> bool)
    ensures multiset(InsertBy(x, s, lt)) == multiset(s) + multiset{x}
    decreases |s|
  {
    if s != [] && !lt(x, s[0]) {
      InsertByPerm(x, s[1..], lt);
      assert s == [s[0]] + s[1..];
    }
  }

  lemma {:induction false} InsertBySorted<T>(x: T, s: seq<T>, lt: (T, T) -> bool)
    requires forall a: T, b: T :: lt(a, b) ==> !lt(b, a)
    requires SortedBy(s, lt)
    ensures SortedBy(InsertBy(x, s, lt), lt)
    ensures InsertBy(x, s, lt)[0] == x || (s != [] && InsertBy(x, s, lt)[0] == s[0])
    decreases |s|
  {
    if s != [] && !lt(x, s[0]) {
      var tail := InsertBy(x, s[1..], lt);
      assert SortedBy(s[1..], lt) by {
        forall i | 0 <= i < |s[1..]| - 1 ensures !lt(s[1..][i + 1], s[1..][i]) {
          assert s[1..][i] == s[i + 1] && s[1..][i + 1] == s[i + 2];
        }
      }
      InsertBySorted(x, s[1..], lt);
      var r := [s[0]] + tail;
      forall i | 0 <= i < |r| - 1 ensures !lt(r[i + 1], r[i]) {
        if i > 0 {
          assert r[i] == tail[i - 1] && r[i + 1] == tail[i];
        }
      }
    }
  }

  /** `sorted` returns its input in order. */
  lemma {:induction false} SortBySpec<T>(s: seq<T>, lt: (T, T) -> bool)
    requires forall a: T, b: T :: lt(a, b) ==> !lt(b, a)
    ensures SortedBy(SortBy(s, lt), lt)
    ensures multiset(SortBy(s, lt)) == multiset(s)
    decreases |s|
  {
    if s != [] {
      var init := s[..|s| - 1];
      SortBySpec(init, lt);
      InsertBySorted(s[|s| - 1], SortBy(init, lt), lt);
      InsertByPerm(s[|s| - 1], SortBy(init, lt), lt);
      assert s == init + [s[|s| - 1]];
    }
  }

  /** Python's string order and tuple order are asymmetric, so `sorted` on keys and on items
      gives ordered permutations. */
  lemma SortedKeys(keys: seq<string>)
    ensures SortedBy(SortBy(keys, StrLt), StrLt)
    ensures multiset(SortBy(keys, StrLt)) == multiset(keys)
  {
    forall a: string, b: string ensures StrLt(a, b) ==> !StrLt(b, a) {
      StrLtAsym(a, b);
    }
    SortBySpec(keys, StrLt);
  }

  lemma SortedItems(items: seq<(string, string)>)
    ensures SortedBy(SortBy(items, PairLt), PairLt)
    ensures multiset(SortBy(items, PairLt)) == multiset(items)
  {
    forall a: (string, string), b: (string, string) ensures PairLt(a, b) ==> !PairLt(b, a) {
      PairLtAsym(a, b);
    }
    SortBySpec(items, PairLt);
  }

  /** No element occurs twice. */
  predicate Distinct<T(==)>(xs: seq<T>) {
    forall i, j :: 0 <= i < j < |xs| ==> xs[i] != xs[j]
  }

  /** Every element is less than every later one. */
  ghost predicate StrictlySorted(xs: seq<string>) {
    forall i, j :: 0 <= i < j < |xs| ==> StrLt(xs[i], xs[j])
  }

  /** xs lists the set s in increasing order. */
  ghost predicate SortedSetOf(xs: seq<string>, s: set<string>) {
    StrictlySorted(xs) && forall x :: x in xs <==> x in s
  }

  lemma StrictTail(s: seq<string>)
    requires StrictlySorted(s) && s != []
    ensures StrictlySorted(s[1..])
    ensures forall y :: y in s[1..] ==> StrLt(s[0], y)
  {
    forall i, j | 0 <= i < j < |s[1..]| ensures StrLt(s[1..][i], s[1..][j]) {
      assert s[1..][i] == s[i + 1] && s[1..][j] == s[j + 1];
    }
    forall y | y in s[1..] ensures StrLt(s[0], y) {
      var k :| 0 <= k < |s[1..]| && s[1..][k] == y;
      assert s[k + 1] == y;
    }
  }

  /** Putting an element before a sorted list of greater ones keeps it sorted. */
  lemma StrictCons(x: string, s: seq<string>)
    requires StrictlySorted(s) && forall y :: y in s ==> StrLt(x, y)
    ensures StrictlySorted([x] + s)
  {
    var r := [x] + s;
    forall i, j | 0 <= i < j < |r| ensures StrLt(r[i], r[j]) {
      assert r[j] == s[j - 1] && s[j - 1] in s;
      if i > 0 {
        assert r[i] == s[i - 1];
      }
    }
  }

  lemma {:induction false} InsertStrict(x: string, s: seq<string>)
    requires StrictlySorted(s) && x !in s
    ensures StrictlySorted(InsertBy(x, s, StrLt))
    ensures forall y :: y in InsertBy(x, s, StrLt) <==> y == x || y in s
    decreases |s|
  {
    if s != [] {
      StrictTail(s);
      if StrLt(x, s[0]) {
        forall y | y in s ensures StrLt(x, y) {
          if y != s[0] {
            StrLtTrans(x, s[0], y);
          }
        }
        StrictCons(x, s);
      } else {
        StrLtTotal(x, s[0]);
        var tail := InsertBy(x, s[1..], StrLt);
        InsertStrict(x, s[1..]);
        assert InsertBy(x, s, StrLt) == [s[0]] + tail;
        StrictCons(s[0], tail);
        assert s == [s[0]] + s[1..];
      }
    }
  }

  /** `sorted` of a list without repeats lists its elements in increasing order. */
  lemma {:induction false} SortDistinct(xs: seq<string>)
    requires Distinct(xs)
    ensures StrictlySorted(SortBy(xs, StrLt))
    ensures forall y :: y in SortBy(xs, StrLt) <==> y in xs
    decreases |xs|
  {
    if xs != [] {
      var init, last := xs[..|xs| - 1], xs[|xs| - 1];
      assert Distinct(init);
      SortDistinct(init);
      assert last !in init;
      InsertStrict(last, SortBy(init, StrLt));
      assert xs == init + [last];
    }
  }

  lemma ListsEmpty(xs: seq<string>, s: set<string>)
    requires forall x :: x in xs <==> x in s
    ensures xs == [] <==> s == {}
  {
    if xs != [] {
      assert xs[0] in s;
    }
    if s != {} {
      var x :| x in s;
      assert x in xs;
    }
  }

  /** Past its first (least) element, a listing lists the rest of the set. */
  lemma TailListing(a: seq<string>, s: set<string>)
    requires SortedSetOf(a, s) && a != []
    ensures SortedSetOf(a[1..], s - {a[0]})
    ensures forall x :: x in s && x != a[0] ==> StrLt(a[0], x)
  {
    StrictTail(a);
    forall x | x in a[1..] ensures x != a[0] {
      StrLtAsym(a[0], x);
    }
    forall x | x in s && x != a[0] ensures x in a[1..] {
      var k :| 0 <= k < |a| && a[k] == x;
      assert a[1..][k - 1] == x;
    }
  }

  /** A set has one increasing listing. */
  lemma {:induction false} SortedSetUnique(a: seq<string>, b: seq<string>, s: set<string>)
    requires SortedSetOf(a, s) && SortedSetOf(b, s)
    ensures a == b
    decreases |a|
  {
    ListsEmpty(a, s);
    ListsEmpty(b, s);
    if a != [] {
      TailListing(a, s);
      TailListing(b, s);
      assert a[0] in s && b[0] in s;
      if a[0] != b[0] {
        StrLtAsym(a[0], b[0]);
      }
      SortedSetUnique(a[1..], b[1..], s - {a[0]});
      assert a == [a[0]] + a[1..] && b == [b[0]] + b[1..];
    }
  }

  lemma {:induction false} Enumerate(s: set<string>)
    ensures exists xs :: Distinct(xs) && forall x :: x in xs <==> x in s
    decreases |s|
  {
    if s == {} {
      assert Distinct<string>([]);
    } else {
      var x :| x in s;
      Enumerate(s - {x});
      var xs :| Distinct(xs) && forall y :: y in xs <==> y in s - {x};
      var ys := xs + [x];
      assert forall y :: y in ys <==> y in xs || y == x;
      assert Distinct(ys);
    }
  }

  /** `sorted(s)` for a set of str, which does not depend on the order the set is iterated
      in. */
  ghost function SortedSet(s: set<string>): (xs: seq<string>)
    ensures SortedSetOf(xs, s)
  {
    Enumerate(s);
    var ys :| Distinct(ys) && forall x :: x in ys <==> x in s;
    SortDistinct(ys);
    SortBy(ys, StrLt)
  }
}
