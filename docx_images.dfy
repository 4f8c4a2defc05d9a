/** extract_images in docx2corrected_md.py: every image relationship of a .docx package is
    saved under a new name, the .docx stem, '_' and the image's own name, with a counter added
    when that name was already given to another image of the same package. */
module DocxImages {
  import opened Strings
  import opened PyPath

  /** A package relationship: its id (rId), its type URI and the part it points to. */
  datatype Rel = Rel(id: string, relType: string, targetRef: string)

  predicate IsImage(rel: Rel) {
    Contains(rel.relType, "image")
  }

  /** `f"{prefix}_{stem}{suffix}"`: the name tried first. */
  function FirstName(prefix: string, original: string): string {
    prefix + "_" + Stem(original) + Suffix(original)
  }

  /** `f"{prefix}_{stem}_{counter}{suffix}"`. */
  function Numbered(prefix: string, original: string, k: nat): string {
    prefix + "_" + Stem(original) + "_" + NatToString(k) + Suffix(original)
  }

  /** Different counters give different names. */
  lemma NumberedInjective(prefix: string, original: string, a: nat, b: nat)
    requires Numbered(prefix, original, a) == Numbered(prefix, original, b)
    ensures a == b
  {
    var p := prefix + "_" + Stem(original) + "_";
    var x := Suffix(original);
    var sa, sb := NatToString(a), NatToString(b);
    assert Numbered(prefix, original, a) == p + (sa + x);
    assert Numbered(prefix, original, b) == p + (sb + x);
    assert (p + (sa + x))[|p|..] == sa + x;
    assert (p + (sb + x))[|p|..] == sb + x;
    assert sa == (sa + x)[..|sa|];
    assert sb == (sb + x)[..|sb|];
    NatToStringInjective(a, b);
  }

  /** The names tried with counters 1 .. n-1. */
  ghost function Tried(prefix: string, original: string, n: nat): set<string> {
    set k | 1 <= k < n :: Numbered(prefix, original, k)
  }

  lemma {:induction false} TriedSize(prefix: string, original: string, n: nat)
    requires n >= 1
    ensures |Tried(prefix, original, n)| == n - 1
  {
    if n == 1 {
      assert Tried(prefix, original, n) == {};
    } else {
      TriedSize(prefix, original, n - 1);
      var c := Numbered(prefix, original, n - 1);
      forall k | 1 <= k < n - 1
        ensures Numbered(prefix, original, k) != c
      {
        if Numbered(prefix, original, k) == c {
          NumberedInjective(prefix, original, k, n - 1);
        }
      }
      assert Tried(prefix, original, n) == Tried(prefix, original, n - 1) + {c};
    }
  }

  /** Every counter below n was taken, so there are at least n-1 taken names: the counter
      loop cannot run past |taken| + 1. */
  lemma TriedBound(prefix: string, original: string, taken: set<string>, n: nat)
    requires n >= 1
    requires forall j :: 1 <= j < n ==> Numbered(prefix, original, j) in taken
    ensures n - 1 <= |taken|
  {
    TriedSize(prefix, original, n);
    SubsetSize(Tried(prefix, original, n), taken);
  }

  lemma SubsetSize(a: set<string>, b: set<string>)
    requires a <= b
    ensures |a| <= |b|
  {
    assert b == a + (b - a);
    assert a * (b - a) == {};
  }

  /** The smallest counter from k on whose name is not taken. */
  function SmallestFree(prefix: string, original: string, taken: set<string>, k: nat)
    : (r: nat)
    requires k >= 1
    requires forall j :: 1 <= j < k ==> Numbered(prefix, original, j) in taken
    ensures r >= k && Numbered(prefix, original, r) !in taken
    ensures forall j :: 1 <= j < r ==> Numbered(prefix, original, j) in taken
    decreases |taken| + 1 - k
  {
    if Numbered(prefix, original, k) !in taken then k
    else
      TriedBound(prefix, original, taken, k + 1);
      SmallestFree(prefix, original, taken, k + 1)
  }

  /** The name the image gets, given the names already in the mapping and the files already in
      the image directory. The first name is checked against the mapping only; a numbered name
      against both. */
  function NewName(prefix: string, original: string, values: set<string>, files: set<string>)
    : string
  {
    var first := FirstName(prefix, original);
    if first !in values then first
    else Numbered(prefix, original, SmallestFree(prefix, original, values + files, 1))
  }

  /** The chosen name is never one the mapping already gives out. When the first name is free
      in the mapping it is used, even if a file of that name exists (which is then
      overwritten); otherwise the name carries the smallest counter k >= 1 whose name is
      neither in the mapping nor on disk. */
  lemma NewNameChoice(prefix: string, original: string, values: set<string>, files: set<string>)
    ensures NewName(prefix, original, values, files) !in values
    ensures FirstName(prefix, original) !in values ==>
      NewName(prefix, original, values, files) == FirstName(prefix, original)
    ensures FirstName(prefix, original) in values ==>
      exists k: nat :: k >= 1 && NewName(prefix, original, values, files) == Numbered(prefix, original, k)
        && Numbered(prefix, original, k) !in values && Numbered(prefix, original, k) !in files
        && forall j :: 1 <= j < k ==>
             Numbered(prefix, original, j) in values || Numbered(prefix, original, j) in files
  {
    if FirstName(prefix, original) in values {
      var k := SmallestFree(prefix, original, values + files, 1);
      assert NewName(prefix, original, values, files) == Numbered(prefix, original, k);
    }
  }

  /** The counter loop: tries 1, 2, ... until a name is neither in the mapping nor on disk. */
  method NextFreeName(prefix: string, original: string, values: set<string>, files: set<string>)
    returns (name: string)
    ensures name == Numbered(prefix, original, SmallestFree(prefix, original, values + files, 1))
  {
    var counter: nat := 1;
    name := Numbered(prefix, original, counter);
    while name in values || name in files
      invariant counter >= 1 && name == Numbered(prefix, original, counter)
      invariant forall j :: 1 <= j < counter ==> Numbered(prefix, original, j) in values + files
      decreases |values + files| + 1 - counter
    {
      TriedBound(prefix, original, values + files, counter + 1);
      counter := counter + 1;
      name := Numbered(prefix, original, counter);
    }
    var s := SmallestFree(prefix, original, values + files, 1);
    assert Numbered(prefix, original, s) !in values + files;
    assert Numbered(prefix, original, counter) !in values + files;
    assert !(s < counter) && !(counter < s);
  }

  /** What extract_images has built so far: the mapping from original names to new names, and
      the names of the files in the image directory. */
  datatype ImageDir = ImageDir(mapping: map<string, string>, files: set<string>)

  /** One relationship: an image is written under its new name and recorded in the mapping
      (a later image with the same original name replaces the entry); anything else is
      passed over. */
  function ExtractStep(prefix: string, rel: Rel, s: ImageDir): ImageDir {
    if IsImage(rel) then
      var original := Basename(rel.targetRef);
      var name := NewName(prefix, original, s.mapping.Values, s.files);
      ImageDir(s.mapping[original := name], s.files + {name})
    else s
  }

  /** The relationships in package order. */
  function ExtractAll(prefix: string, rels: seq<Rel>, s: ImageDir): ImageDir
    decreases |rels|
  {
    if rels == [] then s else ExtractAll(prefix, rels[1..], ExtractStep(prefix, rels[0], s))
  }

  /** extract_images(docx_path, image_dir), with the files already in image_dir as input. */
  method ExtractImages(prefix: string, rels: seq<Rel>, existing: set<string>)
    returns (mapping: map<string, string>, files: set<string>)
    ensures ImageDir(mapping, files) == ExtractAll(prefix, rels, ImageDir(map[], existing))
  {
    mapping := map[];
    files := existing;
    var i := 0;
    while i < |rels|
      invariant 0 <= i <= |rels|
      invariant ExtractAll(prefix, rels[i..], ImageDir(mapping, files))
             == ExtractAll(prefix, rels, ImageDir(map[], existing))
    {
      var rel := rels[i];
      assert rels[i..][0] == rel && rels[i..][1..] == rels[i + 1..];
      if Contains(rel.relType, "image") {
        var original := Basename(rel.targetRef);
        var newName := FirstName(prefix, original);
        if newName in mapping.Values {
          newName := NextFreeName(prefix, original, mapping.Values, files);
        }
        files := files + {newName};
        mapping := mapping[original := newName];
      }
      i := i + 1;
    }
  }

  /** Every name the mapping gives out is a file in the image directory. */
  predicate Saved(s: ImageDir) {
    s.mapping.Values <= s.files
  }

  /** After one image its original name maps to the new name, which is now a file, and which
      no other original name was mapped to; entries for other names and files only grow. */
  lemma ExtractStepImage(prefix: string, rel: Rel, s: ImageDir)
    requires IsImage(rel)
    ensures var t := ExtractStep(prefix, rel, s); var original := Basename(rel.targetRef);
      original in t.mapping && t.mapping[original] !in s.mapping.Values
      && t.mapping[original] in t.files && s.files <= t.files
      && t.mapping.Keys == s.mapping.Keys + {original}
      && forall o :: o in s.mapping && o != original ==> o in t.mapping && t.mapping[o] == s.mapping[o]
  {
    NewNameChoice(prefix, Basename(rel.targetRef), s.mapping.Values, s.files);
  }

  /** Saving keeps every mapped name backed by a file. */
  lemma {:induction false} ExtractKeepsSaved(prefix: string, rels: seq<Rel>, s: ImageDir)
    requires Saved(s)
    ensures Saved(ExtractAll(prefix, rels, s))
    ensures s.files <= ExtractAll(prefix, rels, s).files
    decreases |rels|
  {
    if rels != [] {
      var t := ExtractStep(prefix, rels[0], s);
      if IsImage(rels[0]) {
        var original := Basename(rels[0].targetRef);
        forall v | v in t.mapping.Values ensures v in t.files {
          var o :| o in t.mapping && t.mapping[o] == v;
          if o != original {
            assert v in s.mapping.Values;
          }
        }
      }
      ExtractKeepsSaved(prefix, rels[1..], t);
    }
  }

  /** The keys of the final mapping are exactly the original names of the image
      relationships, added to the keys there were before. */
  lemma {:induction false} ExtractKeys(prefix: string, rels: seq<Rel>, s: ImageDir)
    ensures ExtractAll(prefix, rels, s).mapping.Keys ==
      s.mapping.Keys + set r | r in rels && IsImage(r) :: Basename(r.targetRef)
    decreases |rels|
  {
    if rels != [] {
      var t := ExtractStep(prefix, rels[0], s);
      ExtractKeys(prefix, rels[1..], t);
      ExtractStepKeys(prefix, rels[0], s);
      ImageNamesCons(rels);
    }
  }

  lemma ExtractStepKeys(prefix: string, rel: Rel, s: ImageDir)
    ensures ExtractStep(prefix, rel, s).mapping.Keys ==
      s.mapping.Keys + if IsImage(rel) then {Basename(rel.targetRef)} else {}
  {
  }

  lemma ImageNamesCons(rels: seq<Rel>)
    requires rels != []
    ensures (set r | r in rels && IsImage(r) :: Basename(r.targetRef))
         == (if IsImage(rels[0]) then {Basename(rels[0].targetRef)} else {})
            + set r | r in rels[1..] && IsImage(r) :: Basename(r.targetRef)
  {
    assert forall r :: r in rels <==> r == rels[0] || r in rels[1..] by {
      assert rels == [rels[0]] + rels[1..];
    }
  }
}
