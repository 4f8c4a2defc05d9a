/** docx_to_markdown in docx2corrected_md.py: each paragraph of the document becomes zero or
    more Markdown blocks (a heading, image links, or its text), and the blocks are joined with
    blank lines. */
module DocxMarkdown {
  import opened Wrappers
  import opened Strings
  import opened PyPath
  import opened DocxImages
  import PyJson

  /** A run of a paragraph. `embed` is the r:embed id of the blip inside the run's drawing;
      it is None when the run has no drawing, the drawing no blip, or the blip no id. */
  datatype Run = Run(embed: Option<string>)

  /** A paragraph: its style name, its text and its runs. */
  datatype Paragraph = Paragraph(style: string, text: string, runs: seq<Run>)

  /** doc.part.rels[rId], when rId is a key (ids are unique in a package; the first one with
      the id is taken). */
  function LookupRel(rels: seq<Rel>, id: string): (r: Option<Rel>)
    ensures r.Some? ==> r.value in rels && r.value.id == id
    ensures r.None? ==> forall k :: 0 <= k < |rels| ==> rels[k].id != id
    decreases |rels|
  {
    if rels == [] then None
    else if rels[0].id == id then Some(rels[0])
    else LookupRel(rels[1..], id)
  }

  /** The image name a run contributes: `mapping.get(original, original)` for a non-empty id
      that names a relationship; nothing otherwise. */
  function RunImage(run: Run, rels: seq<Rel>, mapping: map<string, string>): Option<string> {
    match run.embed
    case None => None
    case Some(rId) =>
      if rId == "" then None
      else
        match LookupRel(rels, rId)
        case None => None
        case Some(rel) =>
          var original := Basename(rel.targetRef);
          Some(if original in mapping then mapping[original] else original)
  }

  /** `f'![{n}](images/{n})'`. */
  function Link(name: string): string {
    "![" + name + "](images/" + name + ")"
  }

  /** The links of the runs, in run order. */
  function ImageLinks(runs: seq<Run>, rels: seq<Rel>, mapping: map<string, string>)
    : (r: seq<string>)
    ensures |r| <= |runs|
    decreases |runs|
  {
    if runs == [] then []
    else
      var here := match RunImage(runs[|runs| - 1], rels, mapping)
        case None => []
        case Some(n) => [Link(n)];
      ImageLinks(runs[..|runs| - 1], rels, mapping) + here
  }

  /** The runs give no link exactly when none of them resolves to an image. */
  lemma {:induction false} ImageLinksEmpty(runs: seq<Run>, rels: seq<Rel>,
                                           mapping: map<string, string>)
    ensures ImageLinks(runs, rels, mapping) == [] <==>
      forall k :: 0 <= k < |runs| ==> RunImage(runs[k], rels, mapping).None?
    decreases |runs|
  {
    if runs != [] {
      var init := runs[..|runs| - 1];
      ImageLinksEmpty(init, rels, mapping);
      assert forall k :: 0 <= k < |init| ==> init[k] == runs[k];
    }
  }

  /** Links come in run order: the links of two runs of runs are the links of the first
      followed by those of the second. */
  lemma {:induction false} ImageLinksConcat(a: seq<Run>, b: seq<Run>, rels: seq<Rel>,
                                            mapping: map<string, string>)
    ensures ImageLinks(a + b, rels, mapping) ==
      ImageLinks(a, rels, mapping) + ImageLinks(b, rels, mapping)
    decreases |b|
  {
    if b == [] {
      assert a + b == a;
    } else {
      var b0 := b[..|b| - 1];
      assert (a + b)[..|a + b| - 1] == a + b0;
      assert (a + b)[|a + b| - 1] == b[|b| - 1];
      ImageLinksConcat(a, b0, rels, mapping);
    }
  }

  /** One run gives its image's link, or nothing. */
  lemma ImageLinksSingle(run: Run, rels: seq<Rel>, mapping: map<string, string>)
    ensures ImageLinks([run], rels, mapping) ==
      match RunImage(run, rels, mapping)
      case None => []
      case Some(n) => [Link(n)]
  {
    assert [run][..0] == [];
  }

  const HeadingStyle: string := "Heading"

  const InvalidLiteral: string := "invalid literal for int() with base 10: "

  /** `int(style[-1])` on a one-character string: the digit's value, or the ValueError that
      int raises, which quotes the string with `repr`. */
  function DigitValue(c: char): Result<nat, string> {
    if '0' <= c <= '9' then Success((c as int - '0' as int) as nat)
    else Failure(InvalidLiteral + PyJson.ReprStr([c]))
  }

  /** A style ending in a quote or a backslash is reported as `repr` prints it. */
  lemma DigitValueRepr()
    ensures DigitValue('g') == Failure(InvalidLiteral + "'g'")
    ensures DigitValue('\'') == Failure(InvalidLiteral + "\"'\"")
    ensures DigitValue('\\') == Failure(InvalidLiteral + "'\\\\'")
  {
    assert ['g'][1..] == [] && ['\''][1..] == [] && ['\\'][1..] == [];
    assert PyJson.ReprStr(['g']) == "'g'";
    assert PyJson.ReprStr(['\'']) == "\"'\"";
    assert PyJson.ReprStr(['\\']) == "'\\\\'";
  }

  /** `'#' * level`. */
  function Hashes(level: nat): (r: string)
    ensures |r| == level && forall k :: 0 <= k < |r| ==> r[k] == '#'
  {
    seq(level, _ => '#')
  }

  /** The blocks one paragraph contributes. */
  function ParagraphBlocks(p: Paragraph, rels: seq<Rel>, mapping: map<string, string>)
    : Result<seq<string>, string>
  {
    if StartsWith(p.style, HeadingStyle) then
      var level :- DigitValue(p.style[|p.style| - 1]);
      Success([Hashes(level) + " " + p.text])
    else
      var links := ImageLinks(p.runs, rels, mapping);
      var hasImage := links != [];
      Success(links + if Strip(p.text) != "" && !hasImage then [p.text] else [])
  }

  /** The blocks of the paragraphs, in order; the first paragraph that raises ends the
      conversion with its error. */
  function AllBlocks(ps: seq<Paragraph>, rels: seq<Rel>, mapping: map<string, string>)
    : Result<seq<string>, string>
    decreases |ps|
  {
    if ps == [] then Success([])
    else
      var before :- AllBlocks(ps[..|ps| - 1], rels, mapping);
      var last :- ParagraphBlocks(ps[|ps| - 1], rels, mapping);
      Success(before + last)
  }

  /** The conversion succeeds exactly when every paragraph does, and a failure is the error
      of one of the paragraphs. */
  lemma {:induction false} AllBlocksOutcome(ps: seq<Paragraph>, rels: seq<Rel>,
                                            mapping: map<string, string>)
    ensures var r := AllBlocks(ps, rels, mapping);
      (r.Success? <==> forall k :: 0 <= k < |ps| ==> ParagraphBlocks(ps[k], rels, mapping).Success?)
      && (r.Failure? ==>
            exists k :: 0 <= k < |ps| && ParagraphBlocks(ps[k], rels, mapping) == Failure(r.error))
    decreases |ps|
  {
    if ps != [] {
      var init := ps[..|ps| - 1];
      AllBlocksOutcome(init, rels, mapping);
      assert forall k :: 0 <= k < |init| ==> init[k] == ps[k];
    }
  }

  /** What docx_to_markdown returns. */
  function Markdown(ps: seq<Paragraph>, rels: seq<Rel>, mapping: map<string, string>)
    : Result<string, string>
  {
    var blocks :- AllBlocks(ps, rels, mapping);
    Success(Join("\n\n", blocks))
  }

  /** A heading paragraph becomes one block: as many '#' as the style's last digit, a space,
      then the text; a heading style that does not end in a digit makes the conversion
      fail. */
  lemma HeadingBlock(p: Paragraph, rels: seq<Rel>, mapping: map<string, string>)
    requires StartsWith(p.style, HeadingStyle)
    ensures var c := p.style[|p.style| - 1];
      ParagraphBlocks(p, rels, mapping).Success? <==> '0' <= c <= '9'
    ensures ParagraphBlocks(p, rels, mapping).Success? ==>
      var level := p.style[|p.style| - 1] as int - '0' as int;
      var b := ParagraphBlocks(p, rels, mapping).value;
      |b| == 1 && |b[0]| == level + 1 + |p.text|
      && (forall k :: 0 <= k < level ==> b[0][k] == '#')
      && b[0][level] == ' ' && b[0][level + 1..] == p.text
  {
  }

  /** Any other paragraph gives its image links in run order, followed by its text exactly
      when it has no image and its text is not blank. */
  lemma BodyBlocks(p: Paragraph, rels: seq<Rel>, mapping: map<string, string>)
    requires !StartsWith(p.style, HeadingStyle)
    ensures ParagraphBlocks(p, rels, mapping).Success?
    ensures var b := ParagraphBlocks(p, rels, mapping).value;
      var links := ImageLinks(p.runs, rels, mapping);
      b[..|links|] == links
      && (|b| == |links| + 1 <==>
          !Blank(p.text) && forall k :: 0 <= k < |p.runs| ==> RunImage(p.runs[k], rels, mapping).None?)
      && (|b| == |links| + 1 ==> b[|links|] == p.text)
      && |b| <= |links| + 1
  {
    StripBlank(p.text);
    ImageLinksEmpty(p.runs, rels, mapping);
  }

  /** The link of a run whose image is in the mapping uses the new name; otherwise the
      original name. */
  lemma RunImageName(run: Run, rels: seq<Rel>, mapping: map<string, string>, rel: Rel)
    requires run.embed.Some? && run.embed.value != ""
    requires LookupRel(rels, run.embed.value) == Some(rel)
    ensures var o := Basename(rel.targetRef);
      RunImage(run, rels, mapping) == Some(if o in mapping then mapping[o] else o)
  {
  }

  /** docx_to_markdown(docx_path, image_name_mapping). */
  method DocxToMarkdown(ps: seq<Paragraph>, rels: seq<Rel>, mapping: map<string, string>)
    returns (r: Result<string, string>)
    ensures r == Markdown(ps, rels, mapping)
  {
    var content: seq<string> := [];
    var i := 0;
    while i < |ps|
      invariant 0 <= i <= |ps|
      invariant AllBlocks(ps[..i], rels, mapping) == Success(content)
    {
      var blocks := RenderParagraph(ps[i], rels, mapping);
      if blocks.Failure? {
        AllBlocksFailAt(ps, rels, mapping, i + 1);
        return Failure(blocks.error);
      }
      var added := blocks.value;
      AllBlocksSnoc(ps, rels, mapping, i, content, added);
      content := content + added;
      i := i + 1;
    }
    assert ps[..i] == ps;
    r := Success(Join("\n\n", content));
  }

  /** The body of the loop over paragraphs. */
  method RenderParagraph(p: Paragraph, rels: seq<Rel>, mapping: map<string, string>)
    returns (r: Result<seq<string>, string>)
    ensures r == ParagraphBlocks(p, rels, mapping)
  {
    if StartsWith(p.style, HeadingStyle) {
      var level := DigitValue(p.style[|p.style| - 1]);
      if level.Failure? {
        return Failure(level.error);
      }
      return Success([Hashes(level.value) + " " + p.text]);
    }
    var links := RunLinks(p.runs, rels, mapping);
    var added := links;
    if Strip(p.text) != "" && links == [] {
      added := added + [p.text];
    } else {
      assert added == links + [];
    }
    return Success(added);
  }

  /** The inner loop over the runs of one paragraph. */
  method RunLinks(runs: seq<Run>, rels: seq<Rel>, mapping: map<string, string>)
    returns (links: seq<string>)
    ensures links == ImageLinks(runs, rels, mapping)
  {
    links := [];
    var j := 0;
    while j < |runs|
      invariant 0 <= j <= |runs|
      invariant links == ImageLinks(runs[..j], rels, mapping)
    {
      assert runs[..j + 1][..j] == runs[..j];
      var image := RunImage(runs[j], rels, mapping);
      if image.Some? {
        links := links + [Link(image.value)];
      }
      j := j + 1;
    }
    assert runs[..j] == runs;
  }

  lemma AllBlocksSnoc(ps: seq<Paragraph>, rels: seq<Rel>, mapping: map<string, string>, i: nat,
                      before: seq<string>, added: seq<string>)
    requires i < |ps|
    requires AllBlocks(ps[..i], rels, mapping) == Success(before)
    requires ParagraphBlocks(ps[i], rels, mapping) == Success(added)
    ensures AllBlocks(ps[..i + 1], rels, mapping) == Success(before + added)
  {
    assert ps[..i + 1][..i] == ps[..i];
  }

  /** When the blocks before paragraph n-1 were all produced and paragraph n-1 raises, the
      conversion fails with that error. */
  lemma AllBlocksFailAt(ps: seq<Paragraph>, rels: seq<Rel>, mapping: map<string, string>, n: nat)
    requires 1 <= n <= |ps|
    requires AllBlocks(ps[..n - 1], rels, mapping).Success?
    requires ParagraphBlocks(ps[n - 1], rels, mapping).Failure?
    ensures Markdown(ps, rels, mapping) == Failure(ParagraphBlocks(ps[n - 1], rels, mapping).error)
  {
    assert ps[..n][..n - 1] == ps[..n - 1];
    PrefixFailure(ps, rels, mapping, n);
  }

  /** A failing prefix makes the whole conversion fail the same way. */
  lemma {:induction false} PrefixFailure(ps: seq<Paragraph>, rels: seq<Rel>,
                                         mapping: map<string, string>, n: nat)
    requires n <= |ps|
    requires AllBlocks(ps[..n], rels, mapping).Failure?
    ensures AllBlocks(ps, rels, mapping) == AllBlocks(ps[..n], rels, mapping)
    decreases |ps| - n
  {
    if n < |ps| {
      var init := ps[..|ps| - 1];
      assert init[..n] == ps[..n];
      PrefixFailure(init, rels, mapping, n);
    } else {
      assert ps[..n] == ps;
    }
  }
}
