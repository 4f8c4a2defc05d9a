/**
 * text_classification_with_doubao.py: a notes file is cut into notes at a delimiter, a chat
 * model names the category of each note, the notes are grouped by category in order of first
 * appearance, and a Markdown report with a count per category and one section per category
 * is written.
 */
module TextClassification {
  import opened Wrappers
  import opened Strings
  import opened PyPath
  import opened Chat

  // ---------------------------------------------------------------------------------------
  // split_notes

  /** U+2003 EM SPACE, which split_notes turns into a newline first. */
  const EmSpace: char := '\U{2003}'

  /** The characters of note.strip('\- \n\t'): backslash, hyphen, space, newline, tab. */
  const NoteTrim: set<char> := {'\\', '-', ' ', '\n', '\t'}

  function ReplaceChar(s: string, a: char, b: char): string {
    seq(|s|, i requires 0 <= i < |s| => if s[i] == a then b else s[i])
  }

  /** re.split(delimiter, text) for a delimiter without regex metacharacters; an empty pattern
      splits around every character. */
  function RegexSplit(s: string, d: string): seq<string> {
    if d == "" then [""] + seq(|s|, i requires 0 <= i < |s| => [s[i]]) + [""]
    else SplitOnStr(s, d)
  }

  /** A piece survives the filter of the comprehension when piece.strip() is not empty. */
  predicate Kept(piece: string) {
    Strip(piece) != ""
  }

  /** [note.strip('\- \n\t') for note in pieces if note.strip()] */
  function CleanNotes(pieces: seq<string>): seq<string>
    decreases |pieces|
  {
    if pieces == [] then []
    else (if Kept(pieces[0]) then [StripSet(pieces[0], NoteTrim)] else []) + CleanNotes(pieces[1..])
  }

  function SplitNotes(text: string, delimiter: string): seq<string> {
    CleanNotes(RegexSplit(ReplaceChar(text, EmSpace, '\n'), delimiter))
  }

  /** Each piece contributes on its own and in place: the notes of a + b are the notes of a
      followed by the notes of b. */
  lemma {:induction false} CleanNotesConcat(a: seq<string>, b: seq<string>)
    ensures CleanNotes(a + b) == CleanNotes(a) + CleanNotes(b)
    decreases |a|
  {
    if a == [] {
      assert a + b == b;
    } else {
      var ab := a + b;
      assert ab[0] == a[0];
      assert ab[1..] == a[1..] + b;
      CleanNotesConcat(a[1..], b);
      var head := if Kept(a[0]) then [StripSet(a[0], NoteTrim)] else [];
      ConcatAssoc(head, CleanNotes(a[1..]), CleanNotes(b));
    }
  }

  lemma ConcatAssoc(x: seq<string>, y: seq<string>, z: seq<string>)
    ensures x + (y + z) == (x + y) + z
  {
  }

  lemma CleanNotesCons(pieces: seq<string>)
    requires pieces != []
    ensures CleanNotes(pieces) == CleanNotes([pieces[0]]) + CleanNotes(pieces[1..])
  {
    assert [pieces[0]][1..] == [];
  }

  /** What one piece contributes: its trimmed text if it passes the filter, else nothing. */
  lemma CleanNotesSingle(piece: string)
    ensures CleanNotes([piece]) == if Kept(piece) then [StripSet(piece, NoteTrim)] else []
  {
    assert [piece][1..] == [];
  }

  /** Every note is the trimmed text of a piece that passed the filter. */
  lemma {:induction false} CleanNotesFrom(pieces: seq<string>, note: string)
    requires note in CleanNotes(pieces)
    ensures exists p :: p in pieces && Kept(p) && note == StripSet(p, NoteTrim)
    decreases |pieces|
  {
    var head := if Kept(pieces[0]) then [StripSet(pieces[0], NoteTrim)] else [];
    assert CleanNotes(pieces) == head + CleanNotes(pieces[1..]);
    if note !in head {
      CleanNotesFrom(pieces[1..], note);
      var p :| p in pieces[1..] && Kept(p) && note == StripSet(p, NoteTrim);
      assert p in pieces;
    }
  }

  /** A piece of hyphens and backslashes passes the filter (it is not whitespace) and is then
      trimmed to nothing: split_notes can return empty notes. */
  lemma DashesBecomeEmpty(piece: string)
    requires piece != [] && AllIn(piece, {'-', '\\'})
    ensures CleanNotes([piece]) == [""]
  {
    assert !IsSpace(piece[0]);
    StripBlank(piece);
    assert AllIn(piece, NoteTrim);
    StripSetSlice(piece, NoteTrim);
    assert [piece][1..] == [];
  }

  lemma ReplaceCharRemoves(s: string, a: char, b: char)
    requires a != b
    ensures a !in ReplaceChar(s, a, b)
  {
    var t := ReplaceChar(s, a, b);
    forall i | 0 <= i < |t| ensures t[i] != a {
    }
  }

  lemma {:induction false} RegexSplitWithout(s: string, d: string, c: char)
    requires c !in s
    ensures NoneHolds(RegexSplit(s, d), c)
  {
    var pieces := RegexSplit(s, d);
    if d == "" {
      forall j | 0 <= j < |pieces| ensures c !in pieces[j] {
        if 0 < j < |pieces| - 1 {
          assert pieces[j] == [s[j - 1]];
        }
      }
    } else {
      SplitOnStrPiecesWithout(s, d, c);
    }
  }

  lemma StripSetWithout(p: string, cs: set<char>, c: char)
    requires c !in p
    ensures c !in StripSet(p, cs)
  {
    var i := |p| - |LStripSet(p, cs)|;
    StripSetSlice(p, cs);
    assert StripSet(p, cs) == p[i..i + |StripSet(p, cs)|];
  }

  predicate NoneHolds(parts: seq<string>, c: char) {
    forall k :: 0 <= k < |parts| ==> c !in parts[k]
  }

  lemma NoneHoldsConcat(a: seq<string>, b: seq<string>, c: char)
    requires NoneHolds(a, c) && NoneHolds(b, c)
    ensures NoneHolds(a + b, c)
  {
    forall k | 0 <= k < |a + b| ensures c !in (a + b)[k] {
      if k >= |a| {
        assert (a + b)[k] == b[k - |a|];
      }
    }
  }

  lemma {:induction false} CleanNotesWithout(pieces: seq<string>, c: char)
    requires NoneHolds(pieces, c)
    ensures NoneHolds(CleanNotes(pieces), c)
    decreases |pieces|
  {
    if pieces != [] {
      var p := pieces[0];
      var tail := pieces[1..];
      assert NoneHolds(tail, c) by {
        forall j | 0 <= j < |tail| ensures c !in tail[j] {
          assert tail[j] == pieces[j + 1];
        }
      }
      CleanNotesWithout(tail, c);
      assert c !in p;
      StripSetWithout(p, NoteTrim, c);
      CleanNotesSingle(p);
      CleanNotesCons(pieces);
      NoneHoldsConcat(CleanNotes([p]), CleanNotes(tail), c);
    }
  }

  /** Every em space became a newline before the split, so no note holds one. */
  lemma NotesHaveNoEmSpace(text: string, delimiter: string)
    ensures NoneHolds(SplitNotes(text, delimiter), EmSpace)
  {
    var t := ReplaceChar(text, EmSpace, '\n');
    ReplaceCharRemoves(text, EmSpace, '\n');
    RegexSplitWithout(t, delimiter, EmSpace);
    CleanNotesWithout(RegexSplit(t, delimiter), EmSpace);
  }

  // ---------------------------------------------------------------------------------------
  // decide_category

  /** The module-level endpoint and host of the script. */
  const EndpointId: string := "ep-20241201202141-xghlt"
  const ApiHost: string := "ark.cn-beijing.volces.com"

  const Fence: string := "\n~~~\n"
  const AskPrefix: string := "请判断以下文本的类别："

  /** The user message: the question, then the note between two "~~~" fences. */
  function CategoryQuestion(note: string): string {
    AskPrefix + Fence + note + Fence
  }

  /** The note carried by a question. */
  function QuestionNote(msg: string): string
    requires |msg| >= |AskPrefix| + |Fence| + |Fence|
  {
    msg[|AskPrefix| + |Fence|..|msg| - |Fence|]
  }

  lemma QuestionRoundTrip(note: string)
    ensures |CategoryQuestion(note)| >= |AskPrefix| + |Fence| + |Fence|
    ensures QuestionNote(CategoryQuestion(note)) == note
  {
    var m := CategoryQuestion(note);
    assert m == (AskPrefix + Fence) + note + Fence;
    assert m[|AskPrefix + Fence|..|m| - |Fence|] == note;
  }

  /** decide_category: the model's reply is the category, taken as it comes. */
  function DecideCategory(complete: Completion, system: string, note: string)
    : Result<string, string>
  {
    complete(SystemAndUser(EndpointId, ApiHost, system, CategoryQuestion(note)))
  }

  /** The categories of all notes, asked in order; the first error ends the run. */
  function Categories(complete: Completion, system: string, notes: seq<string>)
    : (r: Result<seq<string>, string>)
    ensures r.Success? <==>
      forall i :: 0 <= i < |notes| ==> DecideCategory(complete, system, notes[i]).Success?
    ensures r.Success? ==>
      |r.value| == |notes|
      && forall i :: 0 <= i < |notes| ==>
           DecideCategory(complete, system, notes[i]) == Success(r.value[i])
    ensures r.Failure? ==>
      exists i :: 0 <= i < |notes| && DecideCategory(complete, system, notes[i]) == Failure(r.error)
        && forall j :: 0 <= j < i ==> DecideCategory(complete, system, notes[j]).Success?
    decreases |notes|
  {
    if notes == [] then Success([])
    else
      var first :- DecideCategory(complete, system, notes[0]);
      var rest :- Categories(complete, system, notes[1..]);
      assert forall i :: 1 <= i < |notes| ==> notes[i] == notes[1..][i - 1];
      Success([first] + rest)
  }

  /** The run stops at the first note whose question fails, with that error. */
  lemma {:induction false} CategoriesFailAt(complete: Completion, system: string,
                                            notes: seq<string>, i: nat)
    requires i < |notes|
    requires forall j :: 0 <= j < i ==> DecideCategory(complete, system, notes[j]).Success?
    requires DecideCategory(complete, system, notes[i]).Failure?
    ensures Categories(complete, system, notes)
      == Failure(DecideCategory(complete, system, notes[i]).error)
    decreases i
  {
    if i > 0 {
      var tail := notes[1..];
      assert DecideCategory(complete, system, notes[0]).Success?;
      assert tail[i - 1] == notes[i];
      forall j | 0 <= j < i - 1
        ensures DecideCategory(complete, system, tail[j]).Success?
      {
        assert tail[j] == notes[j + 1];
      }
      CategoriesFailAt(complete, system, tail, i - 1);
    }
  }

  /** When every question succeeds, the run returns exactly the replies. */
  lemma CategoriesAllSucceed(complete: Completion, system: string, notes: seq<string>,
                             cats: seq<string>)
    requires |cats| == |notes|
    requires forall k :: 0 <= k < |notes| ==>
      DecideCategory(complete, system, notes[k]) == Success(cats[k])
    ensures Categories(complete, system, notes) == Success(cats)
  {
    var r := Categories(complete, system, notes);
    assert r.Success?;
    assert r.value == cats;
  }

  // ---------------------------------------------------------------------------------------
  // Grouping: organized_notes.setdefault(category, []).append(note)

  /** The categories in order of first appearance. */
  function Distinct(cats: seq<string>): seq<string>
    decreases |cats|
  {
    if cats == [] then []
    else
      var prev := Distinct(cats[..|cats| - 1]);
      if cats[|cats| - 1] in prev then prev else prev + [cats[|cats| - 1]]
  }

  /** The notes whose category is c, in input order. */
  function Members(notes: seq<string>, cats: seq<string>, c: string): seq<string>
    requires |notes| == |cats|
    decreases |cats|
  {
    if cats == [] then []
    else
      var n := |cats| - 1;
      Members(notes[..n], cats[..n], c) + (if cats[n] == c then [notes[n]] else [])
  }

  /** Each category that occurs, with its members. */
  function Groups(notes: seq<string>, cats: seq<string>): map<string, seq<string>>
    requires |notes| == |cats|
  {
    map c | c in cats :: Members(notes, cats, c)
  }

  /** The dict organized_notes: its keys in insertion order, and its contents. */
  datatype Organized = Organized(order: seq<string>, groups: map<string, seq<string>>)

  function Grouping(notes: seq<string>, cats: seq<string>): Organized
    requires |notes| == |cats|
  {
    Organized(Distinct(cats), Groups(notes, cats))
  }

  /** The key order lists each key of the dict once. */
  predicate ValidOrganized(o: Organized) {
    (forall k :: k in o.order ==> k in o.groups)
    && (forall k :: k in o.groups ==> k in o.order)
    && forall a, b :: 0 <= a < b < |o.order| ==> o.order[a] != o.order[b]
  }

  /** Position of the first occurrence of x in s. */
  function IndexOf(s: seq<string>, x: string): (i: nat)
    requires x in s
    ensures i < |s| && s[i] == x && x !in s[..i]
    decreases |s|
  {
    if s[0] == x then 0
    else
      var i := IndexOf(s[1..], x);
      assert s[..i + 1] == [s[0]] + s[1..][..i];
      i + 1
  }

  /** The first occurrence is the only index holding x with no x before it. */
  lemma IndexOfUnique(t: seq<string>, x: string, i: nat)
    requires i < |t| && t[i] == x && x !in t[..i]
    ensures IndexOf(t, x) == i
  {
  }

  lemma IndexOfSnoc(s: seq<string>, x: string, y: string)
    requires x in s
    ensures IndexOf(s + [y], x) == IndexOf(s, x)
  {
    var i := IndexOf(s, x);
    assert (s + [y])[..i] == s[..i];
    IndexOfUnique(s + [y], x, i);
  }

  lemma IndexOfNew(s: seq<string>, x: string)
    requires x !in s
    ensures IndexOf(s + [x], x) == |s|
  {
    assert (s + [x])[..|s|] == s;
    IndexOfUnique(s + [x], x, |s|);
  }

  /** The category order holds every category exactly once, ordered by first appearance. */
  lemma {:induction false} DistinctSpec(cats: seq<string>)
    ensures forall c :: c in Distinct(cats) <==> c in cats
    ensures forall a, b :: 0 <= a < b < |Distinct(cats)| ==> Distinct(cats)[a] != Distinct(cats)[b]
    ensures forall a, b :: 0 <= a < b < |Distinct(cats)| ==>
      IndexOf(cats, Distinct(cats)[a]) < IndexOf(cats, Distinct(cats)[b])
    decreases |cats|
  {
    if cats != [] {
      var n := |cats| - 1;
      var p := cats[..n];
      var c := cats[n];
      assert cats == p + [c];
      DistinctSpec(p);
      var d := Distinct(p);
      forall x | x in p ensures IndexOf(cats, x) == IndexOf(p, x) {
        IndexOfSnoc(p, x, c);
      }
      if c !in d {
        IndexOfNew(p, c);
        var e := d + [c];
        assert forall a :: 0 <= a < |d| ==> e[a] == d[a];
      }
    }
  }

  lemma MembersSnoc(notes: seq<string>, cats: seq<string>, note: string, c: string, x: string)
    requires |notes| == |cats|
    ensures Members(notes + [note], cats + [c], x)
      == Members(notes, cats, x) + (if c == x then [note] else [])
  {
    assert (notes + [note])[..|notes|] == notes;
    assert (cats + [c])[..|cats|] == cats;
  }

  lemma {:induction false} MembersAbsent(notes: seq<string>, cats: seq<string>, x: string)
    requires |notes| == |cats| && x !in cats
    ensures Members(notes, cats, x) == []
    decreases |cats|
  {
    if cats != [] {
      var n := |cats| - 1;
      assert x !in cats[..n];
      MembersAbsent(notes[..n], cats[..n], x);
    }
  }

  /** One setdefault(...).append(note) on the dict of the notes so far. */
  lemma GroupsSnoc(notes: seq<string>, cats: seq<string>, note: string, c: string)
    requires |notes| == |cats|
    ensures Groups(notes + [note], cats + [c]) ==
      Groups(notes, cats)[c := (if c in cats then Groups(notes, cats)[c] else []) + [note]]
  {
    var g := Groups(notes, cats);
    var g' := Groups(notes + [note], cats + [c]);
    var h := g[c := (if c in cats then g[c] else []) + [note]];
    forall x | x in g' ensures x in h && g'[x] == h[x] {
      MembersSnoc(notes, cats, note, c, x);
      if x == c && c !in cats {
        MembersAbsent(notes, cats, c);
      }
    }
    forall x | x in h ensures x in g' {
    }
  }

  lemma GroupingValid(notes: seq<string>, cats: seq<string>)
    requires |notes| == |cats|
    ensures ValidOrganized(Grouping(notes, cats))
  {
    DistinctSpec(cats);
  }

  /** The sizes of the groups listed in keys, added up. */
  function GroupSizes(keys: seq<string>, groups: map<string, seq<string>>): nat
    requires forall k :: k in keys ==> k in groups
    decreases |keys|
  {
    if keys == [] then 0 else |groups[keys[0]]| + GroupSizes(keys[1..], groups)
  }

  lemma {:induction false} GroupSizesSnoc(keys: seq<string>, groups: map<string, seq<string>>, k: string)
    requires forall x :: x in keys + [k] ==> x in groups
    ensures GroupSizes(keys + [k], groups) == GroupSizes(keys, groups) + |groups[k]|
    decreases |keys|
  {
    if keys != [] {
      assert (keys + [k])[1..] == keys[1..] + [k];
      GroupSizesSnoc(keys[1..], groups, k);
    }
  }

  /** Changing the group of key c changes the sum by the change in that group's size, when
      c is listed once (or not at all). */
  lemma {:induction false} GroupSizesUpdate(
    keys: seq<string>, groups: map<string, seq<string>>, c: string, v: seq<string>)
    requires forall x :: x in keys ==> x in groups
    requires forall a, b :: 0 <= a < b < |keys| ==> keys[a] != keys[b]
    ensures GroupSizes(keys, groups[c := v]) + (if c in keys then |groups[c]| else 0)
      == GroupSizes(keys, groups) + (if c in keys then |v| else 0)
    decreases |keys|
  {
    if keys != [] {
      assert forall a, b :: 0 <= a < b < |keys[1..]| ==> keys[1..][a] != keys[1..][b] by {
        forall a, b | 0 <= a < b < |keys[1..]| ensures keys[1..][a] != keys[1..][b] {
          assert keys[1..][a] == keys[a + 1] && keys[1..][b] == keys[b + 1];
        }
      }
      GroupSizesUpdate(keys[1..], groups, c, v);
      if keys[0] == c {
        assert c !in keys[1..] by {
          forall j | 0 <= j < |keys[1..]| ensures keys[1..][j] != c {
            assert keys[1..][j] == keys[j + 1];
          }
        }
      }
      assert c in keys <==> keys[0] == c || c in keys[1..];
    }
  }

  /** The group sizes add up to the number of notes: each note lands in exactly one group. */
  lemma {:induction false} GroupSizesTotal(notes: seq<string>, cats: seq<string>)
    requires |notes| == |cats|
    ensures forall k :: k in Distinct(cats) ==> k in Groups(notes, cats)
    ensures GroupSizes(Distinct(cats), Groups(notes, cats)) == |notes|
    decreases |cats|
  {
    DistinctSpec(cats);
    if cats != [] {
      var n := |cats| - 1;
      var p := cats[..n];
      var ns := notes[..n];
      var c := cats[n];
      assert cats == p + [c] && notes == ns + [notes[n]];
      GroupSizesTotal(ns, p);
      DistinctSpec(p);
      var g := Groups(ns, p);
      var d := Distinct(p);
      var v := (if c in p then g[c] else []) + [notes[n]];
      GroupsSnoc(ns, p, notes[n], c);
      GroupSizesUpdate(d, g, c, v);
      if c !in d {
        GroupSizesSnoc(d, g[c := v], c);
      }
    }
  }

  /** What one turn of the grouping loop needs: a category is a key iff it was seen, a new
      one extends the key order, and the dict gains the note under its category. */
  lemma OrganizeStep(notes: seq<string>, cats: seq<string>, category: string, i: nat)
    requires |cats| == i < |notes|
    ensures var g := Groups(notes[..i], cats);
      (category in g <==> category in cats)
      && Distinct(cats + [category])
         == (if category in cats then Distinct(cats) else Distinct(cats) + [category])
      && Groups(notes[..i + 1], cats + [category])
         == g[category := (if category in cats then g[category] else []) + [notes[i]]]
  {
    DistinctSnoc(cats, category);
    GroupsSnoc(notes[..i], cats, notes[i], category);
    assert notes[..i + 1] == notes[..i] + [notes[i]];
  }

  /** A category seen before leaves the order alone; a new one joins its end. */
  lemma DistinctSnoc(cats: seq<string>, c: string)
    ensures Distinct(cats + [c]) == if c in cats then Distinct(cats) else Distinct(cats) + [c]
  {
    DistinctMembers(cats);
    assert (cats + [c])[..|cats|] == cats;
  }

  lemma {:induction false} DistinctMembers(cats: seq<string>)
    ensures forall c :: c in Distinct(cats) <==> c in cats
    decreases |cats|
  {
    if cats != [] {
      var n := |cats| - 1;
      DistinctMembers(cats[..n]);
      assert cats == cats[..n] + [cats[n]];
    }
  }

  /** The save_organized_notes loop: a category per note, asked in order; each note is
      appended to its category's list, and a new category joins the end of the key order. */
  method OrganizeNotes(complete: Completion, system: string, notes: seq<string>)
    returns (r: Result<Organized, string>)
    ensures r.Failure? <==> Categories(complete, system, notes).Failure?
    ensures r.Failure? ==> r.error == Categories(complete, system, notes).error
    ensures r.Success? ==>
      |Categories(complete, system, notes).value| == |notes|
      && r.value == Grouping(notes, Categories(complete, system, notes).value)
  {
    var order: seq<string> := [];
    var groups: map<string, seq<string>> := map[];
    ghost var cats: seq<string> := [];
    var i := 0;
    while i < |notes|
      invariant 0 <= i <= |notes| && |cats| == i
      invariant forall k :: 0 <= k < i ==> DecideCategory(complete, system, notes[k]) == Success(cats[k])
      invariant order == Distinct(cats)
      invariant groups == Groups(notes[..i], cats)
    {
      var reply := DecideCategory(complete, system, notes[i]);
      if reply.Failure? {
        CategoriesFailAt(complete, system, notes, i);
        return Failure(reply.error);
      }
      var category := reply.value;
      OrganizeStep(notes, cats, category, i);
      var members := if category in groups then groups[category] else [];
      if category !in groups {
        order := order + [category];
      }
      groups := groups[category := members + [notes[i]]];
      cats := cats + [category];
      i := i + 1;
    }
    CategoriesAllSucceed(complete, system, notes, cats);
    assert notes[..i] == notes;
    return Success(Organized(order, groups));
  }

  // ---------------------------------------------------------------------------------------
  // The report

  const Title: string := "# 笔记分类整理\n\n"
  const StatsHeading: string := "## 统计信息\n"
  const TotalLabel: string := "- 总笔记数量："
  const Separator: string := "\n\n---\n\n"

  /** The "{percentage:.1f}" text for count notes out of total; floating-point formatting is
      not part of this model. */
  type Percent = (nat, nat) -> string

  function StatLine(k: string, count: nat, total: nat, percent: Percent): string {
    "- " + k + ": " + NatToString(count) + " 条 (" + percent(count, total) + "%)\n"
  }

  function StatLines(o: Organized, total: nat, percent: Percent): seq<string>
    requires ValidOrganized(o)
  {
    seq(|o.order|, i requires 0 <= i < |o.order| =>
      StatLine(o.order[i], |o.groups[o.order[i]]|, total, percent))
  }

  function NoteBlocks(v: seq<string>): seq<string> {
    seq(|v|, i requires 0 <= i < |v| => v[i] + Separator)
  }

  /** A category's section: its heading, each note followed by a rule, then a blank line. */
  function Section(k: string, v: seq<string>): string {
    "## " + k + "\n" + Concat(NoteBlocks(v)) + "\n"
  }

  function Sections(o: Organized): seq<string>
    requires ValidOrganized(o)
  {
    seq(|o.order|, i requires 0 <= i < |o.order| => Section(o.order[i], o.groups[o.order[i]]))
  }

  /** The text save_organized_notes writes. */
  function Report(o: Organized, total: nat, percent: Percent): string
    requires ValidOrganized(o)
  {
    Title + StatsHeading + TotalLabel + NatToString(total) + "\n"
    + Concat(StatLines(o, total, percent)) + "\n" + Concat(Sections(o))
  }

  /** Appending element i to a string that ends with the concatenation of s[..i]. */
  lemma ConcatPrefixStep(head: string, s: seq<string>, i: nat)
    requires i < |s|
    ensures head + Concat(s[..i]) + s[i] == head + Concat(s[..i + 1])
  {
    assert s[..i + 1] == s[..i] + [s[i]];
    ConcatAppend(s[..i], s[i]);
  }

  /** The statistics loop of save_organized_notes: one line per category, in key order,
      appended to content. */
  method AppendStats(start: string, o: Organized, total: nat, percent: Percent)
    returns (content: string)
    requires ValidOrganized(o)
    ensures content == start + Concat(StatLines(o, total, percent))
  {
    content := start;
    ghost var stats := StatLines(o, total, percent);
    var i := 0;
    while i < |o.order|
      invariant 0 <= i <= |o.order|
      invariant content == start + Concat(stats[..i])
    {
      var k := o.order[i];
      ConcatPrefixStep(start, stats, i);
      var line := "- " + k + ": " + NatToString(|o.groups[k]|) + " 条 ("
        + percent(|o.groups[k]|, total) + "%)\n";
      assert line == stats[i];
      content := content + line;
      i := i + 1;
    }
    assert stats[..i] == stats;
  }

  /** One category's turn of the section loop, appended to content. */
  method AppendSection(start: string, k: string, v: seq<string>) returns (content: string)
    ensures content == start + Section(k, v)
  {
    ghost var blocks := NoteBlocks(v);
    var heading := "## " + k + "\n";
    content := start + heading;
    var j := 0;
    while j < |v|
      invariant 0 <= j <= |v|
      invariant content == start + heading + Concat(blocks[..j])
    {
      ConcatPrefixStep(start + heading, blocks, j);
      var block := v[j] + Separator;
      assert block == blocks[j];
      content := content + block;
      j := j + 1;
    }
    assert blocks[..j] == blocks;
    content := content + "\n";
  }

  /** The content built with += in save_organized_notes. */
  method RenderReport(o: Organized, total: nat, percent: Percent) returns (content: string)
    requires ValidOrganized(o)
    ensures content == Report(o, total, percent)
  {
    content := Title;
    content := content + StatsHeading;
    content := content + TotalLabel + NatToString(total) + "\n";
    content := AppendStats(content, o, total, percent);
    content := content + "\n";
    ghost var body := content;
    ghost var sections := Sections(o);
    var i := 0;
    while i < |o.order|
      invariant 0 <= i <= |o.order|
      invariant content == body + Concat(sections[..i])
    {
      var k := o.order[i];
      ConcatPrefixStep(body, sections, i);
      content := AppendSection(content, k, o.groups[k]);
      i := i + 1;
    }
    assert sections[..i] == sections;
  }

  /** The counts in the statistics section add up to the total the report states. */
  lemma ReportCountsAddUp(notes: seq<string>, cats: seq<string>)
    requires |notes| == |cats|
    ensures ValidOrganized(Grouping(notes, cats))
    ensures var o := Grouping(notes, cats);
      forall k :: k in o.order ==> k in o.groups
    ensures var o := Grouping(notes, cats); GroupSizes(o.order, o.groups) == |notes|
  {
    GroupingValid(notes, cats);
    GroupSizesTotal(notes, cats);
  }

  /** organized_notes_{now}.md beside the input file; the timestamp text is an input. */
  function ReportPath(txtFile: Path, stamp: string): Path {
    Path(txtFile.dir, "organized_notes_" + stamp + ".md")
  }

  /** save_organized_notes: classify, group, render, and name the output file. */
  method SaveOrganizedNotes(complete: Completion, system: string, txtFile: Path,
                            notes: seq<string>, stamp: string, percent: Percent)
    returns (r: Result<Written, string>)
    ensures r.Failure? <==> Categories(complete, system, notes).Failure?
    ensures r.Failure? ==> r.error == Categories(complete, system, notes).error
    ensures r.Success? ==>
      var cats := Categories(complete, system, notes).value;
      |cats| == |notes|
      && ValidOrganized(Grouping(notes, cats))
      && r.value == Written(ReportPath(txtFile, stamp), Report(Grouping(notes, cats), |notes|, percent))
  {
    var organized := OrganizeNotes(complete, system, notes);
    if organized.Failure? {
      return Failure(organized.error);
    }
    ghost var cats := Categories(complete, system, notes).value;
    GroupingValid(notes, cats);
    var content := RenderReport(organized.value, |notes|, percent);
    r := Success(Written(ReportPath(txtFile, stamp), content));
  }
}
