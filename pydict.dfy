/** A Python dict with str keys as the list of its items in insertion order: assigning to an
    existing key keeps its place, a new key goes last. */
module PyDict {
  import opened Wrappers

  /** The value stored under k. */
  function Lookup<V>(d: seq<(string, V)>, k: string): Option<V>
    decreases |d|
  {
    if d == [] then None
    else if d[0].0 == k then Some(d[0].1)
    else Lookup(d[1..], k)
  }

  /** Lookup finds the first item with key k, and reports None only when there is none. */
  lemma {:induction false} LookupSpec<V>(d: seq<(string, V)>, k: string)
    ensures Lookup(d, k).Some? ==>
      exists i :: 0 <= i < |d| && d[i] == (k, Lookup(d, k).value)
                  && forall j :: 0 <= j < i ==> d[j].0 != k
    ensures Lookup(d, k).None? <==> forall i :: 0 <= i < |d| ==> d[i].0 != k
    decreases |d|
  {
    if d != [] && d[0].0 != k {
      LookupSpec(d[1..], k);
      if Lookup(d, k).Some? {
        var i :| 0 <= i < |d[1..]| && d[1..][i] == (k, Lookup(d, k).value)
          && forall j :: 0 <= j < i ==> d[1..][j].0 != k;
        assert d[i + 1] == (k, Lookup(d, k).value);
        forall j | 0 <= j < i + 1 ensures d[j].0 != k {
          if j > 0 { assert d[j] == d[1..][j - 1]; }
        }
      } else {
        forall i | 0 <= i < |d| ensures d[i].0 != k {
          if i > 0 { assert d[i] == d[1..][i - 1]; }
        }
      }
    } else if d != [] {
      assert d[0] == (k, Lookup(d, k).value);
    }
  }

  /** The item at i is the first with key k. */
  lemma {:induction false} LookupAt<V>(d: seq<(string, V)>, k: string, i: nat)
    requires i < |d| && d[i].0 == k && forall j :: 0 <= j < i ==> d[j].0 != k
    ensures Lookup(d, k) == Some(d[i].1)
    decreases i
  {
    if i > 0 {
      assert d[0].0 != k;
      forall j | 0 <= j < i - 1 ensures d[1..][j].0 != k {
        assert d[1..][j] == d[j + 1];
      }
      LookupAt(d[1..], k, i - 1);
    }
  }

  /** `d.get(k, default)`. */
  function GetOr<V>(d: seq<(string, V)>, k: string, default: V): V {
    match Lookup(d, k) case Some(v) => v case None => default
  }

  /** `d[k] = v`. */
  function Put<V>(d: seq<(string, V)>, k: string, v: V): (r: seq<(string, V)>)
    ensures |d| <= |r| <= |d| + 1
    decreases |d|
  {
    if d == [] then [(k, v)]
    else if d[0].0 == k then [(k, v)] + d[1..]
    else [d[0]] + Put(d[1..], k, v)
  }

  /** `list(d)`. */
  function Keys<V>(d: seq<(string, V)>): (r: seq<string>)
    ensures |r| == |d|
    decreases |d|
  {
    if d == [] then [] else [d[0].0] + Keys(d[1..])
  }

  /** `list(d.values())`. */
  function Values<V>(d: seq<(string, V)>): (r: seq<V>)
    ensures |r| == |d|
    decreases |d|
  {
    if d == [] then [] else [d[0].1] + Values(d[1..])
  }

  /** Item i of the dict gives key i and value i. */
  lemma {:induction false} ValuesAt<V>(d: seq<(string, V)>)
    ensures forall i :: 0 <= i < |d| ==> Keys(d)[i] == d[i].0 && Values(d)[i] == d[i].1
    decreases |d|
  {
    if d != [] {
      ValuesAt(d[1..]);
      forall i | 0 < i < |d| ensures Keys(d)[i] == d[i].0 && Values(d)[i] == d[i].1 {
        assert d[1..][i - 1] == d[i];
      }
    }
  }

  /** After the assignment k holds v and every other key holds what it held. */
  lemma {:induction false} PutLookup<V>(d: seq<(string, V)>, k: string, v: V, other: string)
    ensures Lookup(Put(d, k, v), k) == Some(v)
    ensures other != k ==> Lookup(Put(d, k, v), other) == Lookup(d, other)
    decreases |d|
  {
    if d != [] && d[0].0 != k {
      PutLookup(d[1..], k, v, other);
    }
  }

  /** An existing key keeps its position; a new one is appended. */
  lemma {:induction false} PutKeys<V>(d: seq<(string, V)>, k: string, v: V)
    ensures Keys(Put(d, k, v)) == if k in Keys(d) then Keys(d) else Keys(d) + [k]
    decreases |d|
  {
    if d != [] && d[0].0 != k {
      PutKeys(d[1..], k, v);
      assert Keys(d) == [d[0].0] + Keys(d[1..]);
    }
  }

  lemma {:induction false} KeysIn<V>(d: seq<(string, V)>, k: string)
    ensures k in Keys(d) <==> Lookup(d, k).Some?
    decreases |d|
  {
    if d != [] {
      KeysIn(d[1..], k);
    }
  }

  /** Assigning a new key appends the item. */
  lemma {:induction false} PutNew<V>(d: seq<(string, V)>, k: string, v: V)
    requires k !in Keys(d)
    ensures Put(d, k, v) == d + [(k, v)]
    decreases |d|
  {
    if d != [] {
      assert Keys(d) == [d[0].0] + Keys(d[1..]);
      PutNew(d[1..], k, v);
      assert d == [d[0]] + d[1..];
    }
  }

  /** Assigning an existing key replaces its item in place. */
  lemma {:induction false} PutAt<V>(d: seq<(string, V)>, k: string, v: V, i: nat)
    requires i < |d| && d[i].0 == k && forall j :: 0 <= j < i ==> d[j].0 != k
    ensures Put(d, k, v) == d[i := (k, v)]
    decreases i
  {
    if i > 0 {
      assert d[0].0 != k;
      forall j | 0 <= j < i - 1 ensures d[1..][j].0 != k {
        assert d[1..][j] == d[j + 1];
      }
      PutAt(d[1..], k, v, i - 1);
      assert d[i := (k, v)] == [d[0]] + d[1..][i - 1 := (k, v)];
    }
  }
}
