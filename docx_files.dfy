/** process_files in docx2corrected_md.py: the .docx (or .md) files under a directory are
    selected, each is converted and corrected (or skipped when its output already exists), and
    the run ends with the numbers of files found, processed and skipped. */
module DocxFiles {
  import opened Wrappers
  import opened Strings
  import opened PyPath
  import opened DocxImages
  import opened DocxMarkdown
  import opened Chat
  import TextCorrection

  /** Both branches call the corrector with max_length=1500. */
  const MaxLength: int := 1500

  /** What python-docx reads from one .docx file. */
  datatype Package = Package(rels: seq<Rel>, paragraphs: seq<Paragraph>)

  /** What a run depends on outside the code: the model, the chat settings, and reading a
      file (either may raise). */
  datatype Env = Env(
    complete: Completion,
    cfg: TextCorrection.ChatConfig,
    readDocx: Path -> Result<Package, string>,
    readText: Path -> Result<string, string>)

  // ---------------------------------------------------------------------------------------
  // which files

  /** The docx filter: no "_combined" in the stem, and not a Word lock file ("~$..."). */
  predicate DocxSelected(f: Path) {
    !Contains(Stem(f.name), "_combined") && !StartsWith(Stem(f.name), "~$")
  }

  /** The md filter: no "_combined" in the stem. */
  predicate MdSelected(f: Path) {
    !Contains(Stem(f.name), "_combined")
  }

  predicate Selected(docxMode: bool, f: Path) {
    if docxMode then DocxSelected(f) else MdSelected(f)
  }

  /** The comprehension over the rglob listing, in listing order. */
  function Select(found: seq<Path>, docxMode: bool): (r: seq<Path>)
    ensures |r| <= |found|
    decreases |found|
  {
    if found == [] then []
    else
      var init := Select(found[..|found| - 1], docxMode);
      var f := found[|found| - 1];
      if Selected(docxMode, f) then init + [f] else init
  }

  /** A file is selected exactly when it is listed and passes the filter; the selection keeps
      the listing's order. */
  lemma {:induction false} SelectMembers(found: seq<Path>, docxMode: bool)
    ensures forall f :: f in Select(found, docxMode) <==> f in found && Selected(docxMode, f)
    decreases |found|
  {
    if found != [] {
      var init := found[..|found| - 1];
      SelectMembers(init, docxMode);
      assert found == init + [found[|found| - 1]];
    }
  }

  lemma {:induction false} SelectConcat(a: seq<Path>, b: seq<Path>, docxMode: bool)
    ensures Select(a + b, docxMode) == Select(a, docxMode) + Select(b, docxMode)
    decreases |b|
  {
    if b == [] {
      assert a + b == a;
    } else {
      var b0 := b[..|b| - 1];
      assert (a + b)[..|a + b| - 1] == a + b0;
      assert (a + b)[|a + b| - 1] == b[|b| - 1];
      SelectConcat(a, b0, docxMode);
    }
  }

  // ---------------------------------------------------------------------------------------
  // one file

  /** The files on disk, and the text files written, in order. */
  datatype Files = Files(disk: set<Path>, writes: seq<Written>)

  datatype Outcome = Skipped | Done | Failed(error: string)

  datatype Step = Step(outcome: Outcome, files: Files)

  /** `docx_file.with_suffix('.md')` in docx mode, `md_file.with_suffix('.md.bak')` in md
      mode: the file whose existence means the input was handled already. */
  function Target(docxMode: bool, f: Path): Path {
    WithSuffix(f, if docxMode then ".md" else ".md.bak")
  }

  /** `output_path.parent / 'images'`. */
  function ImagesDir(output: Path): string {
    Full(Path(output.dir, "images"))
  }

  /** The names of the files in a directory. */
  function NamesIn(disk: set<Path>, dir: string): set<string> {
    set p | p in disk && p.dir == dir :: p.name
  }

  /** The files a directory holds once the given names are in it. */
  function InDir(dir: string, names: set<string>): set<Path> {
    set n | n in names :: Path(dir, n)
  }

  /** extract_images, docx_to_markdown, the corrector, write_text. The images are saved before
      the conversion can fail, so they stay on disk when it does. */
  function ConvertDocx(env: Env, f: Path, files: Files): Step {
    var output := WithSuffix(f, ".md");
    match env.readDocx(f)
    case Failure(e) => Step(Failed(e), files)
    case Success(pkg) =>
      var dir := ImagesDir(output);
      var ext := ExtractAll(Stem(f.name), pkg.rels, ImageDir(map[], NamesIn(files.disk, dir)));
      var disk := files.disk + InDir(dir, ext.files);
      match Markdown(pkg.paragraphs, pkg.rels, ext.mapping)
      case Failure(e) => Step(Failed(e), Files(disk, files.writes))
      case Success(md) =>
        match TextCorrection.Corrected(env.complete, env.cfg, md, MaxLength)
        case Failure(e) => Step(Failed(e), Files(disk, files.writes))
        case Success(out) =>
          Step(Done, Files(disk + {output}, files.writes + [Written(output, out)]))
  }

  /** read_text, the corrector, then the original moved to .md.bak and the corrected text
      written in its place. */
  function ConvertMd(env: Env, f: Path, files: Files): Step {
    match env.readText(f)
    case Failure(e) => Step(Failed(e), files)
    case Success(content) =>
      match TextCorrection.Corrected(env.complete, env.cfg, content, MaxLength)
      case Failure(e) => Step(Failed(e), files)
      case Success(out) =>
        var backup := WithSuffix(f, ".md.bak");
        Step(Done, Files(files.disk + {backup, f},
                         files.writes + [Written(backup, content), Written(f, out)]))
  }

  /** One pass of the loop body. */
  function FileStep(env: Env, docxMode: bool, skip: bool, f: Path, files: Files): Step {
    if skip && Target(docxMode, f) in files.disk then Step(Skipped, files)
    else if docxMode then ConvertDocx(env, f, files)
    else ConvertMd(env, f, files)
  }

  // ---------------------------------------------------------------------------------------
  // the loop

  datatype Progress = Progress(outcomes: seq<Outcome>, files: Files)

  /** The files handled in order, each seeing the disk the previous ones left. */
  function RunAll(env: Env, docxMode: bool, skip: bool, fs: seq<Path>, start: Files)
    : (p: Progress)
    ensures |p.outcomes| == |fs|
    decreases |fs|
  {
    if fs == [] then Progress([], start)
    else
      var before := RunAll(env, docxMode, skip, fs[..|fs| - 1], start);
      var st := FileStep(env, docxMode, skip, fs[|fs| - 1], before.files);
      Progress(before.outcomes + [st.outcome], st.files)
  }

  function CountDone(os: seq<Outcome>): nat
    decreases |os|
  {
    if os == [] then 0 else CountDone(os[..|os| - 1]) + if os[|os| - 1] == Done then 1 else 0
  }

  function CountSkipped(os: seq<Outcome>): nat
    decreases |os|
  {
    if os == [] then 0 else CountSkipped(os[..|os| - 1]) + if os[|os| - 1] == Skipped then 1 else 0
  }

  /** The totals printed at the end, and the files as the run leaves them. */
  datatype Summary = Summary(total: nat, processed: nat, skipped: nat, files: Files)

  function ProcessResult(env: Env, fileType: string, found: seq<Path>, skip: bool, start: Files)
    : Result<Summary, string>
  {
    var mode := AsciiLower(fileType);
    if mode == "docx" || mode == "md" then
      var docxMode := mode == "docx";
      var fs := Select(found, docxMode);
      var p := RunAll(env, docxMode, skip, fs, start);
      Success(Summary(|fs|, CountDone(p.outcomes), CountSkipped(p.outcomes), p.files))
    else Failure("不支持的文件类型: " + fileType + "，请使用 'docx' 或 'md'")
  }

  // ---------------------------------------------------------------------------------------
  // what the loop guarantees

  /** A file type other than docx or md, in any letter case, raises ValueError. */
  lemma UnknownTypeFails(env: Env, fileType: string, found: seq<Path>, skip: bool, start: Files)
    ensures ProcessResult(env, fileType, found, skip, start).Failure? <==>
      AsciiLower(fileType) != "docx" && AsciiLower(fileType) != "md"
  {
  }

  lemma {:induction false} CountsBounded(os: seq<Outcome>)
    ensures CountDone(os) + CountSkipped(os) <= |os|
    decreases |os|
  {
    if os != [] {
      CountsBounded(os[..|os| - 1]);
    }
  }

  /** processed + skipped never exceeds the number of files found. */
  lemma SummaryBounded(env: Env, fileType: string, found: seq<Path>, skip: bool, start: Files)
    requires ProcessResult(env, fileType, found, skip, start).Success?
    ensures var s := ProcessResult(env, fileType, found, skip, start).value;
      s.processed + s.skipped <= s.total && s.total <= |found|
  {
    var docxMode := AsciiLower(fileType) == "docx";
    var p := RunAll(env, docxMode, skip, Select(found, docxMode), start);
    CountsBounded(p.outcomes);
  }

  /** The k-th outcome is what the loop body does to the k-th file on the disk left by the
      files before it. */
  lemma {:induction false} RunAllAt(env: Env, docxMode: bool, skip: bool, fs: seq<Path>,
                                    start: Files, k: nat)
    requires k < |fs|
    ensures RunAll(env, docxMode, skip, fs, start).outcomes[k] ==
      FileStep(env, docxMode, skip, fs[k], RunAll(env, docxMode, skip, fs[..k], start).files).outcome
    decreases |fs|
  {
    var init := fs[..|fs| - 1];
    if k < |fs| - 1 {
      RunAllAt(env, docxMode, skip, init, start, k);
      assert init[..k] == fs[..k];
    }
  }

  /** A file is skipped exactly when skipping is on and its target exists at its turn. */
  lemma SkippedWhen(env: Env, docxMode: bool, skip: bool, fs: seq<Path>, start: Files, k: nat)
    requires k < |fs|
    ensures RunAll(env, docxMode, skip, fs, start).outcomes[k] == Skipped <==>
      skip && Target(docxMode, fs[k]) in RunAll(env, docxMode, skip, fs[..k], start).files.disk
  {
    RunAllAt(env, docxMode, skip, fs, start, k);
  }

  lemma {:induction false} NoSkipsWithoutFlag(env: Env, docxMode: bool, fs: seq<Path>,
                                              start: Files)
    ensures CountSkipped(RunAll(env, docxMode, false, fs, start).outcomes) == 0
    decreases |fs|
  {
    if fs != [] {
      var os := RunAll(env, docxMode, false, fs, start).outcomes;
      NoSkipsWithoutFlag(env, docxMode, fs[..|fs| - 1], start);
      assert os[..|os| - 1] == RunAll(env, docxMode, false, fs[..|fs| - 1], start).outcomes;
    }
  }

  /** Files are only added, and what was written stays written, whatever happens to a file. */
  lemma StepGrows(env: Env, docxMode: bool, skip: bool, f: Path, files: Files)
    ensures var t := FileStep(env, docxMode, skip, f, files).files;
      files.disk <= t.disk && files.writes <= t.writes
  {
  }

  /** A converted .docx file leaves its corrected Markdown next to it: the last write is the
      corrector's output for the converted document, under the .md name. */
  lemma DocxDoneWrites(env: Env, skip: bool, f: Path, files: Files)
    requires FileStep(env, true, skip, f, files).outcome == Done
    ensures var t := FileStep(env, true, skip, f, files).files;
      var pkg := env.readDocx(f).value;
      var dir := ImagesDir(WithSuffix(f, ".md"));
      var ext := ExtractAll(Stem(f.name), pkg.rels, ImageDir(map[], NamesIn(files.disk, dir)));
      var md := Markdown(pkg.paragraphs, pkg.rels, ext.mapping);
      env.readDocx(f).Success? && md.Success?
      && |t.writes| == |files.writes| + 1
      && t.writes[|files.writes|] ==
           Written(WithSuffix(f, ".md"),
                   TextCorrection.Corrected(env.complete, env.cfg, md.value, MaxLength).value)
      && WithSuffix(f, ".md") in t.disk
  {
  }

  /** A corrected .md file keeps its original text in the .md.bak file beside it. */
  lemma MdDoneWrites(env: Env, skip: bool, f: Path, files: Files)
    requires FileStep(env, false, skip, f, files).outcome == Done
    ensures var t := FileStep(env, false, skip, f, files).files;
      var content := env.readText(f).value;
      env.readText(f).Success?
      && t.writes == files.writes +
           [Written(WithSuffix(f, ".md.bak"), content),
            Written(f, TextCorrection.Corrected(env.complete, env.cfg, content, MaxLength).value)]
  {
  }

  // ---------------------------------------------------------------------------------------
  // the code

  method ConvertDocxFile(env: Env, f: Path, files: Files) returns (st: Step)
    ensures st == ConvertDocx(env, f, files)
  {
    var output := WithSuffix(f, ".md");
    var doc := env.readDocx(f);
    if doc.Failure? {
      return Step(Failed(doc.error), files);
    }
    var dir := ImagesDir(output);
    var mapping, names := ExtractImages(Stem(f.name), doc.value.rels, NamesIn(files.disk, dir));
    var disk := files.disk + InDir(dir, names);
    var md := DocxToMarkdown(doc.value.paragraphs, doc.value.rels, mapping);
    if md.Failure? {
      return Step(Failed(md.error), Files(disk, files.writes));
    }
    var out := TextCorrection.CorrectNote(env.complete, env.cfg, md.value, MaxLength);
    if out.Failure? {
      return Step(Failed(out.error), Files(disk, files.writes));
    }
    st := Step(Done, Files(disk + {output}, files.writes + [Written(output, out.value)]));
  }

  method ConvertMdFile(env: Env, f: Path, files: Files) returns (st: Step)
    ensures st == ConvertMd(env, f, files)
  {
    var content := env.readText(f);
    if content.Failure? {
      return Step(Failed(content.error), files);
    }
    var out := TextCorrection.CorrectNote(env.complete, env.cfg, content.value, MaxLength);
    if out.Failure? {
      return Step(Failed(out.error), files);
    }
    var backup := WithSuffix(f, ".md.bak");
    st := Step(Done, Files(files.disk + {backup, f},
                           files.writes + [Written(backup, content.value), Written(f, out.value)]));
  }

  /** The loop body: the skip check, then the conversion of the mode. */
  method ProcessOne(env: Env, docxMode: bool, skip: bool, f: Path, files: Files)
    returns (st: Step)
    ensures st == FileStep(env, docxMode, skip, f, files)
  {
    if skip && Target(docxMode, f) in files.disk {
      return Step(Skipped, files);
    }
    if docxMode {
      st := ConvertDocxFile(env, f, files);
    } else {
      st := ConvertMdFile(env, f, files);
    }
  }

  /** process_files(input_dir, endpoint_id, api_host, system_message, file_type,
      skip_existing), with the rglob listing and the disk as inputs. */
  method ProcessFiles(env: Env, fileType: string, found: seq<Path>, skip: bool, start: Files)
    returns (r: Result<Summary, string>)
    ensures r == ProcessResult(env, fileType, found, skip, start)
  {
    var mode := AsciiLower(fileType);
    if mode != "docx" && mode != "md" {
      return Failure("不支持的文件类型: " + fileType + "，请使用 'docx' 或 'md'");
    }
    var docxMode := mode == "docx";
    var fs := SelectFiles(found, docxMode);
    var processed, skipped := 0, 0;
    var files := start;
    ghost var outcomes: seq<Outcome> := [];
    var i := 0;
    while i < |fs|
      invariant 0 <= i <= |fs|
      invariant RunAll(env, docxMode, skip, fs[..i], start) == Progress(outcomes, files)
      invariant processed == CountDone(outcomes) && skipped == CountSkipped(outcomes)
    {
      var st := ProcessOne(env, docxMode, skip, fs[i], files);
      if st.outcome == Skipped {
        skipped := skipped + 1;
      } else if st.outcome == Done {
        processed := processed + 1;
      }
      RunAllSnoc(env, docxMode, skip, fs, start, i, outcomes, files, st);
      CountSnoc(outcomes, st.outcome);
      outcomes := outcomes + [st.outcome];
      files := st.files;
      i := i + 1;
    }
    assert fs[..i] == fs;
    r := Success(Summary(|fs|, processed, skipped, files));
  }

  lemma RunAllSnoc(env: Env, docxMode: bool, skip: bool, fs: seq<Path>, start: Files, i: nat,
                   outcomes: seq<Outcome>, files: Files, st: Step)
    requires i < |fs|
    requires RunAll(env, docxMode, skip, fs[..i], start) == Progress(outcomes, files)
    requires st == FileStep(env, docxMode, skip, fs[i], files)
    ensures RunAll(env, docxMode, skip, fs[..i + 1], start) == Progress(outcomes + [st.outcome], st.files)
  {
    assert fs[..i + 1][..i] == fs[..i];
  }

  lemma CountSnoc(os: seq<Outcome>, o: Outcome)
    ensures CountDone(os + [o]) == CountDone(os) + (if o == Done then 1 else 0)
    ensures CountSkipped(os + [o]) == CountSkipped(os) + (if o == Skipped then 1 else 0)
  {
    assert (os + [o])[..|os|] == os;
  }

  /** Converting a file never reports it as skipped. */
  lemma ConvertNotSkipped(env: Env, f: Path, files: Files)
    ensures ConvertDocx(env, f, files).outcome != Skipped
    ensures ConvertMd(env, f, files).outcome != Skipped
  {
  }

  /** The list comprehension. */
  method SelectFiles(found: seq<Path>, docxMode: bool) returns (fs: seq<Path>)
    ensures fs == Select(found, docxMode)
  {
    fs := [];
    var i := 0;
    while i < |found|
      invariant 0 <= i <= |found|
      invariant fs == Select(found[..i], docxMode)
    {
      assert found[..i + 1][..i] == found[..i];
      if Selected(docxMode, found[i]) {
        fs := fs + [found[i]];
      }
      i := i + 1;
    }
    assert found[..i] == found;
  }
}
