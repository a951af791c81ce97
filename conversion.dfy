/** What converting one file does, and what a whole run does, as functions of
    the configuration, the filesystem before, and the answers of the remote
    parsing service. The classes in the `Converter` module are proved to behave
    exactly like these functions. */
module Conversion {
  import opened Ascii
  import opened Paths
  import opened Policy
  import opened Disks

  /** What the remote parser returns for one file: an exception with its
      text, or the parsed documents' texts in service order. */
  datatype ParseOutcome = Raised(error: string) | Parsed(texts: seq<string>)

  /** The remote service: its answer for a file sent to a given tier. */
  type Service = (Path, Tier) -> ParseOutcome

  /** The converter's settings, fixed when it is built. */
  datatype Config = Config(forceReconvert: bool, inputRoot: Path, outputRoot: Path)

  function OutputFor(cfg: Config, file: Path): Path
    requires StrictlyUnder(file, cfg.inputRoot)
  {
    OutputPath(cfg.inputRoot, cfg.outputRoot, file)
  }

  /** Whether, and with which tier, the remote parser was asked. */
  datatype ParserCall = NoCall | CallWith(tier: Tier)

  /** How the conversion of one file ended; `Text` gives the string the
      converter returns with it. */
  datatype Report =
    | SkippedAs(file: Path, out: Path)
    | ConvertedTo(out: Path)
    | NoContent
    | FailedWith(file: Path, reason: Reason)

  /** The exception a failed conversion caught: one from the operating
      system, or one from the parsing service with its text. */
  datatype Reason = OsFailure(error: OsError) | ParserFailure(text: string)

  function ReasonText(r: Reason): string {
    match r
    case OsFailure(error) => OsErrorText(error)
    case ParserFailure(text) => text
  }

  /** The boolean half of the converter's `(bool, str)` result. */
  predicate Succeeded(r: Report) {
    r.SkippedAs? || r.ConvertedTo?
  }

  const SkipMarker: string := "Skipped"

  /** The string half of the converter's `(bool, str)` result. */
  function Text(r: Report): string {
    match r
    case SkippedAs(file, out) => SkipMarker + " (already converted): " + Render(file) + " -> " + Render(out)
    case ConvertedTo(out) => Render(out)
    case NoContent => "No content extracted"
    case FailedWith(file, reason) => "Failed to convert " + Render(file) + ": " + ReasonText(reason)
  }

  /** A skip message starts with the marker `Skipped`. */
  lemma SkipTextShape(file: Path, out: Path)
    ensures StartsWith(Text(SkippedAs(file, out)), SkipMarker)
    ensures Contains(Text(SkippedAs(file, out)), SkipMarker)
  {
    var m := Text(SkippedAs(file, out));
    assert m == SkipMarker + (" (already converted): " + Render(file) + " -> " + Render(out));
    assert OccursAt(m, SkipMarker, 0);
  }

  /** A failure message names the file and ends with the exception's text. */
  lemma FailureTextShape(file: Path, reason: Reason)
    ensures StartsWith(Text(FailedWith(file, reason)), "Failed to convert " + Render(file) + ": ")
    ensures var m := Text(FailedWith(file, reason)); m[|m| - |ReasonText(reason)|..] == ReasonText(reason)
  {
    var m := Text(FailedWith(file, reason));
    var head := "Failed to convert " + Render(file) + ": ";
    assert m == head + ReasonText(reason);
    assert m[..|head|] == head;
  }

  /** The result of converting one file: its report, the filesystem
      afterwards, and the parser call it made. */
  datatype Step = Step(report: Report, disk: Disk, call: ParserCall)

  /** The answer of the skip test, with the filesystem it leaves, or the text
      of the exception the output directory's creation raised. */
  datatype SkipCheck = Checked(converted: bool, disk: Disk) | CheckRaised(error: OsError)

  /** The skip test: never when forced; otherwise compute the output path,
      creating its parent directories, and ask whether it exists. */
  function AlreadyConverted(cfg: Config, d: Disk, file: Path): SkipCheck
    requires StrictlyUnder(file, cfg.inputRoot)
  {
    if cfg.forceReconvert then Checked(false, d)
    else
      var out := OutputFor(cfg, file);
      match MakeDirs(d, Parent(out))
      case MkdirFailed(error) => CheckRaised(error)
      case Made(e) => Checked(Exists(e, out), e)
  }

  /** The prefixes of the parent are the proper prefixes of the path. */
  lemma ParentPrefixes(p: Path)
    requires p != []
    ensures |Parent(p)| == |p| - 1
    ensures forall k :: 0 <= k <= |Parent(p)| ==> Parent(p)[..k] == p[..k]
  {
  }

  /** The skip test raises exactly when, without the force flag, a regular
      file sits above the output path, and otherwise answers whether the
      output path existed before. */
  lemma AlreadyConvertedSpec(cfg: Config, d: Disk, file: Path)
    requires StrictlyUnder(file, cfg.inputRoot)
    ensures var c := AlreadyConverted(cfg, d, file);
      var out := OutputFor(cfg, file);
      && (cfg.forceReconvert ==> c == Checked(false, d))
      && (!cfg.forceReconvert ==>
            && (c.CheckRaised? <==> BlockedAbove(d, out))
            && (c.Checked? ==> c.converted == Exists(d, out) && c.disk == MakeDirs(d, Parent(out)).disk)
            && (c.CheckRaised? ==> c.error == NotADirectory(Parent(out)) || c.error == FileExists(Parent(out))))
  {
    var out := OutputFor(cfg, file);
    OutputPathSpec(cfg.inputRoot, cfg.outputRoot, file);
    ParentPrefixes(out);
    MakeDirsSpec(d, Parent(out));
  }

  /** The skip branch: the output path is computed again, creating its parents
      once more, and the file is reported as skipped. */
  function SkipStep(file: Path, out: Path, c: Disk): (s: Step)
    ensures s.call == NoCall
    ensures Succeeded(s.report) ==> s.report == SkippedAs(file, out)
  {
    match MakeDirs(c, Parent(out))
    case MkdirFailed(error) => Step(FailedWith(file, OsFailure(error)), c, NoCall)
    case Made(after) => Step(SkippedAs(file, out), after, NoCall)
  }

  /** The write branch: the output path is computed again, creating its
      parents, and the joined pages are written to it. */
  function WriteStep(file: Path, out: Path, c: Disk, tier: Tier, texts: seq<string>): (s: Step)
    ensures s.call == CallWith(tier)
    ensures !Succeeded(s.report) ==> s.report.FailedWith? && s.report.file == file
    ensures Succeeded(s.report) ==> s.report == ConvertedTo(out)
  {
    match MakeDirs(c, Parent(out))
    case MkdirFailed(error) => Step(FailedWith(file, OsFailure(error)), c, CallWith(tier))
    case Made(withParents) =>
      match Write(withParents, out, JoinTexts(texts))
      case WriteFailed(error) => Step(FailedWith(file, OsFailure(error)), withParents, CallWith(tier))
      case Written(after) => Step(ConvertedTo(out), after, CallWith(tier))
  }

  /** What the parser's answer leads to: an exception or an empty answer is a
      failure, anything else is written. */
  function ParseStep(file: Path, out: Path, c: Disk, tier: Tier, answer: ParseOutcome): (s: Step)
    ensures s.call == CallWith(tier)
    ensures Succeeded(s.report) ==> s.report == ConvertedTo(out)
  {
    match answer
    case Raised(error) => Step(FailedWith(file, ParserFailure(error)), c, CallWith(tier))
    case Parsed(texts) =>
      if texts == [] then Step(NoContent, c, CallWith(tier))
      else WriteStep(file, out, c, tier, texts)
  }

  /** Converting one file: skip when already converted; otherwise ask the
      parser of the file's tier, fail on an exception or an empty answer, and
      write the pages joined by a blank line to the output path. Any exception
      on the way (directory creation, parsing, opening the output) becomes a
      failure carrying its text. */
  function ConvertStep(cfg: Config, d: Disk, file: Path, service: Service): Step
    requires StrictlyUnder(file, cfg.inputRoot)
  {
    var out := OutputFor(cfg, file);
    match AlreadyConverted(cfg, d, file)
    case CheckRaised(error) => Step(FailedWith(file, OsFailure(error)), d, NoCall)
    case Checked(converted, checked) =>
      if converted then SkipStep(file, out, checked)
      else ParseStep(file, out, checked, TierFor(file), service(file, TierFor(file)))
  }

  /** A regular file keeps its text unless it is the written path, every
      path that existed still exists, and nothing but the written path
      becomes a regular file; a failed write changes no file. */
  ghost predicate Frame(d: Disk, e: Disk, out: Path) {
    && (forall p :: Exists(d, p) ==> Exists(e, p))
    && (forall p :: p in d.files && p != out ==> p in e.files && e.files[p] == d.files[p])
    && e.files.Keys <= d.files.Keys + {out}
  }

  lemma SkipStepFrame(file: Path, out: Path, c: Disk)
    ensures SkipStep(file, out, c).disk.files == c.files
    ensures Frame(c, SkipStep(file, out, c).disk, out)
  {
    MakeDirsSpec(c, Parent(out));
  }

  lemma ParseStepFrame(file: Path, out: Path, c: Disk, tier: Tier, answer: ParseOutcome)
    ensures var s := ParseStep(file, out, c, tier, answer);
      Frame(c, s.disk, out) && (!Succeeded(s.report) ==> s.disk.files == c.files)
  {
    MakeDirsSpec(c, Parent(out));
    var m := MakeDirs(c, Parent(out));
    if answer.Parsed? && m.Made? {
      WriteSpec(m.disk, out, JoinTexts(answer.texts));
    }
  }

  /** One conversion keeps the frame of its output path. */
  lemma StepFrame(cfg: Config, d: Disk, file: Path, service: Service)
    requires StrictlyUnder(file, cfg.inputRoot)
    ensures Frame(d, ConvertStep(cfg, d, file, service).disk, OutputFor(cfg, file))
  {
    var out := OutputFor(cfg, file);
    MakeDirsSpec(d, Parent(out));
    var c := AlreadyConverted(cfg, d, file);
    if c.Checked? {
      SkipStepFrame(file, out, c.disk);
      ParseStepFrame(file, out, c.disk, TierFor(file), service(file, TierFor(file)));
    }
  }

  /** The file is skipped: the force flag is off and its output already
      exists where it can be reached. */
  predicate Skipped(cfg: Config, d: Disk, file: Path)
    requires StrictlyUnder(file, cfg.inputRoot)
  {
    !cfg.forceReconvert && !BlockedAbove(d, OutputFor(cfg, file)) && Exists(d, OutputFor(cfg, file))
  }

  /** The file gets past the skip test and its output path can be created. */
  predicate Attempted(cfg: Config, d: Disk, file: Path)
    requires StrictlyUnder(file, cfg.inputRoot)
  {
    cfg.forceReconvert || (!BlockedAbove(d, OutputFor(cfg, file)) && !Exists(d, OutputFor(cfg, file)))
  }

  /** The parser is asked exactly when the file gets past the skip test, and
      then with the file's own tier, so the premium parser is asked exactly
      for premium names. */
  lemma ParserCalledIff(cfg: Config, d: Disk, file: Path, service: Service)
    requires StrictlyUnder(file, cfg.inputRoot)
    ensures var s := ConvertStep(cfg, d, file, service);
      && (s.call != NoCall <==> Attempted(cfg, d, file))
      && (s.call != NoCall ==> s.call == CallWith(TierFor(file)))
      && (s.call == CallWith(Premium) <==> Attempted(cfg, d, file) && IsPremium(Name(file)))
  {
    AlreadyConvertedSpec(cfg, d, file);
  }

  /** A forced conversion always asks the parser. */
  lemma ForcedStepCallsParser(cfg: Config, d: Disk, file: Path, service: Service)
    requires StrictlyUnder(file, cfg.inputRoot)
    requires cfg.forceReconvert
    ensures ConvertStep(cfg, d, file, service).call == CallWith(TierFor(file))
  {
  }

  /** A skip succeeds, reports the input and output paths, writes nothing,
      and does not depend on the service. */
  lemma SkipOutcome(cfg: Config, d: Disk, file: Path, service: Service, other: Service)
    requires StrictlyUnder(file, cfg.inputRoot)
    requires Skipped(cfg, d, file)
    ensures var s := ConvertStep(cfg, d, file, service);
      && s.report == SkippedAs(file, OutputFor(cfg, file))
      && s.call == NoCall
      && s.disk.files == d.files
      && s == ConvertStep(cfg, d, file, other)
  {
    var out := OutputFor(cfg, file);
    AlreadyConvertedSpec(cfg, d, file);
    MakeDirsSpec(d, Parent(out));
    SkipStepFrame(file, out, AlreadyConverted(cfg, d, file).disk);
  }

  /** Only the answer for the file's own tier matters. */
  lemma OnlyChosenTierMatters(cfg: Config, d: Disk, file: Path, service: Service, other: Service)
    requires StrictlyUnder(file, cfg.inputRoot)
    requires service(file, TierFor(file)) == other(file, TierFor(file))
    ensures ConvertStep(cfg, d, file, service) == ConvertStep(cfg, d, file, other)
  {
  }

  /** Without the force flag a regular file above the output path makes the
      conversion fail, before the parser is asked, with the text of the
      directory-creation error, and changes nothing. */
  lemma BlockedOutcome(cfg: Config, d: Disk, file: Path, service: Service)
    requires StrictlyUnder(file, cfg.inputRoot)
    requires !cfg.forceReconvert
    requires BlockedAbove(d, OutputFor(cfg, file))
    ensures var s := ConvertStep(cfg, d, file, service);
      var out := OutputFor(cfg, file);
      && s.disk == d && s.call == NoCall
      && (s.report == FailedWith(file, OsFailure(NotADirectory(Parent(out))))
          || s.report == FailedWith(file, OsFailure(FileExists(Parent(out)))))
  {
    AlreadyConvertedSpec(cfg, d, file);
  }

  /** An exception from the parser becomes a failure carrying its text, and
      nothing is written. */
  lemma RaisedOutcome(cfg: Config, d: Disk, file: Path, service: Service)
    requires StrictlyUnder(file, cfg.inputRoot)
    requires Attempted(cfg, d, file)
    requires service(file, TierFor(file)).Raised?
    ensures var s := ConvertStep(cfg, d, file, service);
      s.report == FailedWith(file, ParserFailure(service(file, TierFor(file)).error)) && s.disk.files == d.files
  {
    AlreadyConvertedSpec(cfg, d, file);
    MakeDirsSpec(d, Parent(OutputFor(cfg, file)));
  }

  /** An empty answer is the failure `No content extracted`, with nothing
      written. */
  lemma EmptyAnswerOutcome(cfg: Config, d: Disk, file: Path, service: Service)
    requires StrictlyUnder(file, cfg.inputRoot)
    requires Attempted(cfg, d, file)
    requires service(file, TierFor(file)) == Parsed([])
    ensures var s := ConvertStep(cfg, d, file, service);
      s.report == NoContent && s.disk.files == d.files
  {
    AlreadyConvertedSpec(cfg, d, file);
    MakeDirsSpec(d, Parent(OutputFor(cfg, file)));
  }

  /** The write branch succeeds exactly when no regular file sits above the
      output path and the output path is not a directory; then the output
      holds the joined pages and is settled. */
  lemma WriteStepSpec(file: Path, out: Path, c: Disk, tier: Tier, texts: seq<string>)
    requires out != []
    ensures var s := WriteStep(file, out, c, tier, texts);
      && (Succeeded(s.report) <==> !BlockedAbove(c, out) && out !in c.dirs)
      && (Succeeded(s.report) ==> s.disk.files == c.files[out := JoinTexts(texts)] && Settled(s.disk, out))
  {
    ParentPrefixes(out);
    var m := MakeDirs(c, Parent(out));
    assert m.Made? <==> !BlockedAbove(c, out);
    if m.Made? {
      MakeDirsSpec(c, Parent(out));
      MakeDirsSucceedsIff(c, Parent(out));
      AncestorsMembers(Parent(out));
      var e := m.disk;
      assert out in e.dirs <==> out in c.dirs;
      WriteSpec(e, out, JoinTexts(texts));
      if out !in c.dirs {
        var w := Write(e, out, JoinTexts(texts)).disk;
        forall k | 0 <= k < |out| ensures out[..k] in w.dirs && out[..k] !in w.files {
          assert out[..k] == Parent(out)[..k];
          assert |out[..k]| < |out|;
        }
      }
    }
  }

  /** A non-empty answer is written to the output path, pages joined by a
      blank line, and the output path is reported; this fails only when a
      regular file sits above the output path or the output path is a
      directory, and then nothing is written. */
  lemma ParsedOutcome(cfg: Config, d: Disk, file: Path, service: Service)
    requires StrictlyUnder(file, cfg.inputRoot)
    requires Attempted(cfg, d, file)
    requires service(file, TierFor(file)).Parsed? && service(file, TierFor(file)).texts != []
    ensures var s := ConvertStep(cfg, d, file, service);
      var out := OutputFor(cfg, file);
      var texts := service(file, TierFor(file)).texts;
      && (Succeeded(s.report) <==> !BlockedAbove(d, out) && out !in d.dirs)
      && (Succeeded(s.report) ==> s.report == ConvertedTo(out) && s.disk.files == d.files[out := JoinTexts(texts)])
      && (!Succeeded(s.report) ==> s.report.FailedWith? && s.report.file == file && s.disk.files == d.files)
  {
    var out := OutputFor(cfg, file);
    AlreadyConvertedSpec(cfg, d, file);
    OutputPathSpec(cfg.inputRoot, cfg.outputRoot, file);
    var c := AlreadyConverted(cfg, d, file).disk;
    MakeDirsSpec(d, Parent(out));
    WriteStepSpec(file, out, c, TierFor(file), service(file, TierFor(file)).texts);
    ParseStepFrame(file, out, c, TierFor(file), service(file, TierFor(file)));
  }

  /** Without the force flag an existing file is never overwritten. */
  lemma UnforcedStepKeepsFiles(cfg: Config, d: Disk, file: Path, service: Service)
    requires StrictlyUnder(file, cfg.inputRoot)
    requires !cfg.forceReconvert
    ensures var s := ConvertStep(cfg, d, file, service);
      forall p :: p in d.files ==> p in s.disk.files && s.disk.files[p] == d.files[p]
  {
    AlreadyConvertedSpec(cfg, d, file);
    StepFrame(cfg, d, file, service);
  }

  /** A step keeps every settled path settled. */
  lemma StepKeepsSettled(cfg: Config, d: Disk, file: Path, service: Service, p: Path)
    requires StrictlyUnder(file, cfg.inputRoot)
    requires Settled(d, p)
    ensures Settled(ConvertStep(cfg, d, file, service).disk, p)
  {
    var out := OutputFor(cfg, file);
    var c := AlreadyConverted(cfg, d, file);
    if !cfg.forceReconvert && MakeDirs(d, Parent(out)).Made? {
      MakeDirsKeepsSettled(d, Parent(out), p);
    }
    if c.Checked? {
      var m := MakeDirs(c.disk, Parent(out));
      if m.Made? {
        MakeDirsKeepsSettled(c.disk, Parent(out), p);
        var answer := service(file, TierFor(file));
        if answer.Parsed? && Write(m.disk, out, JoinTexts(answer.texts)).Written? {
          WriteKeepsSettled(m.disk, out, JoinTexts(answer.texts), p);
        }
      }
    }
  }

  /** The skip branch, when it succeeds on an existing output, leaves that
      output settled. */
  lemma SkipStepSettles(file: Path, out: Path, c: Disk)
    requires out != [] && Exists(c, out)
    requires Succeeded(SkipStep(file, out, c).report)
    ensures Settled(SkipStep(file, out, c).disk, out)
  {
    ParentPrefixes(out);
    MakeDirsSpec(c, Parent(out));
    MakeDirsSucceedsIff(c, Parent(out));
  }

  /** A successful step leaves its output path settled. */
  lemma SuccessSettles(cfg: Config, d: Disk, file: Path, service: Service)
    requires StrictlyUnder(file, cfg.inputRoot)
    requires Succeeded(ConvertStep(cfg, d, file, service).report)
    ensures Settled(ConvertStep(cfg, d, file, service).disk, OutputFor(cfg, file))
  {
    var out := OutputFor(cfg, file);
    AlreadyConvertedSpec(cfg, d, file);
    OutputPathSpec(cfg.inputRoot, cfg.outputRoot, file);
    var c := AlreadyConverted(cfg, d, file);
    if c.converted {
      MakeDirsSpec(d, Parent(out));
      SkipStepSettles(file, out, c.disk);
    } else {
      WriteStepSpec(file, out, c.disk, TierFor(file), service(file, TierFor(file)).texts);
    }
  }

  /** Without the force flag a settled output means the file is skipped. */
  lemma SettledIsSkipped(cfg: Config, d: Disk, file: Path)
    requires StrictlyUnder(file, cfg.inputRoot)
    requires !cfg.forceReconvert
    requires Settled(d, OutputFor(cfg, file))
    ensures Skipped(cfg, d, file)
  {
    BlockedAboveIff(d, OutputFor(cfg, file));
  }

  /** A file that converted successfully is skipped the next time round
      without the force flag. */
  lemma SuccessThenSkipped(cfg: Config, d: Disk, file: Path, service: Service, again: Service)
    requires StrictlyUnder(file, cfg.inputRoot)
    requires Succeeded(ConvertStep(cfg, d, file, service).report)
    ensures var next := cfg.(forceReconvert := false);
      var s := ConvertStep(next, ConvertStep(cfg, d, file, service).disk, file, again);
      s.report == SkippedAs(file, OutputFor(cfg, file)) && s.call == NoCall
  {
    var next := cfg.(forceReconvert := false);
    var e := ConvertStep(cfg, d, file, service).disk;
    SuccessSettles(cfg, d, file, service);
    SettledIsSkipped(next, e, file);
    SkipOutcome(next, e, file, again, again);
  }

  /** One entry of the converter's `results` list. */
  datatype FileResult = FileResult(path: Path, report: Report)

  /** The state of a run after some files: their results in order, the
      filesystem, and the parser calls made so far. */
  datatype RunState = RunState(results: seq<FileResult>, disk: Disk, calls: seq<(Path, Tier)>)

  predicate AllUnder(files: seq<Path>, root: Path) {
    forall k :: 0 <= k < |files| ==> StrictlyUnder(files[k], root)
  }

  /** Converting the files one after another, each seeing the filesystem the
      previous one left, with one result per file. */
  function Run(cfg: Config, d: Disk, files: seq<Path>, service: Service): (r: RunState)
    requires AllUnder(files, cfg.inputRoot)
    ensures |r.results| == |files| && |r.calls| <= |files|
  {
    if files == [] then RunState([], d, [])
    else
      var before := Run(cfg, d, files[..|files| - 1], service);
      var file := files[|files| - 1];
      var s := ConvertStep(cfg, before.disk, file, service);
      RunState(before.results + [FileResult(file, s.report)],
               s.disk,
               before.calls + (if s.call.CallWith? then [(file, s.call.tier)] else []))
  }

  /** One more file: the run over the first `i + 1` files is the run over
      the first `i` followed by the step of file `i`, and so are its counters
      and its results list. */
  lemma RunGrows(cfg: Config, d: Disk, files: seq<Path>, service: Service, i: nat)
    requires AllUnder(files, cfg.inputRoot)
    requires i < |files|
    ensures AllUnder(files[..i], cfg.inputRoot) && AllUnder(files[..i + 1], cfg.inputRoot)
    ensures var before := Run(cfg, d, files[..i], service);
      var s := ConvertStep(cfg, before.disk, files[i], service);
      var after := Run(cfg, d, files[..i + 1], service);
      && after.results == before.results + [FileResult(files[i], s.report)]
      && after.disk == s.disk
      && after.calls == before.calls + (if s.call.CallWith? then [(files[i], s.call.tier)] else [])
      && ResultTuples(after.results) == ResultTuples(before.results) + [ResultTuple(FileResult(files[i], s.report))]
  {
    assert files[..i + 1][..i] == files[..i];
    var before := Run(cfg, d, files[..i], service);
    var s := ConvertStep(cfg, before.disk, files[i], service);
    var after := Run(cfg, d, files[..i + 1], service);
    assert after.results[..|after.results| - 1] == before.results;
  }

  /** The `k`-th result is the `k`-th file's own step on the filesystem the
      files before it left. */
  lemma {:induction false} RunResults(cfg: Config, d: Disk, files: seq<Path>, service: Service, k: nat)
    requires AllUnder(files, cfg.inputRoot)
    requires k < |files|
    ensures var s := ConvertStep(cfg, Run(cfg, d, files[..k], service).disk, files[k], service);
      Run(cfg, d, files, service).results[k] == FileResult(files[k], s.report)
  {
    if k < |files| - 1 {
      var init := files[..|files| - 1];
      assert init[..k] == files[..k];
      assert init[k] == files[k];
      RunResults(cfg, d, init, service, k);
      assert Run(cfg, d, files, service).results[k] == Run(cfg, d, init, service).results[k];
    } else {
      assert files[..|files| - 1] == files[..k];
    }
  }

  /** Every file paired with its own tier, in order: the parser calls of a
      forced run. */
  function TieredCalls(files: seq<Path>): (r: seq<(Path, Tier)>)
    ensures |r| == |files| && forall k :: 0 <= k < |files| ==> r[k] == (files[k], TierFor(files[k]))
  {
    if files == [] then [] else TieredCalls(files[..|files| - 1]) + [(files[|files| - 1], TierFor(files[|files| - 1]))]
  }

  /** With the force flag every file is sent to the parser, with its own tier,
      in file order. */
  lemma {:induction false} ForcedRunCallsEveryFile(cfg: Config, d: Disk, files: seq<Path>, service: Service)
    requires AllUnder(files, cfg.inputRoot)
    requires cfg.forceReconvert
    ensures Run(cfg, d, files, service).calls == TieredCalls(files)
  {
    if files != [] {
      ForcedRunCallsEveryFile(cfg, d, files[..|files| - 1], service);
      ForcedRunGrows(cfg, d, files, service);
    }
  }

  /** A forced run's calls grow by the last file and its tier. */
  lemma ForcedRunGrows(cfg: Config, d: Disk, files: seq<Path>, service: Service)
    requires AllUnder(files, cfg.inputRoot)
    requires cfg.forceReconvert && files != []
    ensures var init, last := files[..|files| - 1], files[|files| - 1];
      Run(cfg, d, files, service).calls == Run(cfg, d, init, service).calls + [(last, TierFor(last))]
  {
    var before := Run(cfg, d, files[..|files| - 1], service);
    ForcedStepCallsParser(cfg, before.disk, files[|files| - 1], service);
  }

  /** A run without the force flag leaves every file that existed before it
      with the text it had. */
  lemma {:induction false} UnforcedRunKeepsFiles(cfg: Config, d: Disk, files: seq<Path>, service: Service, p: Path)
    requires AllUnder(files, cfg.inputRoot)
    requires !cfg.forceReconvert
    requires p in d.files
    ensures var after := Run(cfg, d, files, service).disk;
      p in after.files && after.files[p] == d.files[p]
  {
    if files != [] {
      var before := Run(cfg, d, files[..|files| - 1], service);
      UnforcedRunKeepsFiles(cfg, d, files[..|files| - 1], service, p);
      UnforcedStepKeepsFiles(cfg, before.disk, files[|files| - 1], service);
    }
  }

  /** A run keeps every settled path settled. */
  lemma {:induction false} RunKeepsSettled(cfg: Config, d: Disk, files: seq<Path>, service: Service, p: Path)
    requires AllUnder(files, cfg.inputRoot)
    requires Settled(d, p)
    ensures Settled(Run(cfg, d, files, service).disk, p)
  {
    if files != [] {
      var before := Run(cfg, d, files[..|files| - 1], service);
      RunKeepsSettled(cfg, d, files[..|files| - 1], service, p);
      StepKeepsSettled(cfg, before.disk, files[|files| - 1], service, p);
    }
  }

  /** The filesystem after a run is the filesystem after its first `k + 1`
      files, run on through the rest. */
  lemma {:induction false} RunSplit(cfg: Config, d: Disk, files: seq<Path>, service: Service, k: nat)
    requires AllUnder(files, cfg.inputRoot)
    requires k < |files|
    ensures var s := ConvertStep(cfg, Run(cfg, d, files[..k], service).disk, files[k], service);
      Run(cfg, d, files, service).disk == Run(cfg, s.disk, files[k + 1..], service).disk
  {
    if k == |files| - 1 {
      assert files[..|files| - 1] == files[..k];
      assert files[k + 1..] == [];
    } else {
      var init := files[..|files| - 1];
      var rest := files[k + 1..];
      assert init[..k] == files[..k];
      assert rest[..|rest| - 1] == init[k + 1..];
      assert rest[|rest| - 1] == files[|files| - 1];
      RunSplit(cfg, d, init, service, k);
    }
  }

  /** A file that succeeded in a run has its output settled at the end of
      the run. */
  lemma SucceededStaysSettled(cfg: Config, d: Disk, files: seq<Path>, service: Service, k: nat)
    requires AllUnder(files, cfg.inputRoot)
    requires k < |files|
    requires Succeeded(Run(cfg, d, files, service).results[k].report)
    ensures Settled(Run(cfg, d, files, service).disk, OutputFor(cfg, files[k]))
  {
    RunResults(cfg, d, files, service, k);
    var before := Run(cfg, d, files[..k], service).disk;
    var s := ConvertStep(cfg, before, files[k], service);
    SuccessSettles(cfg, before, files[k], service);
    RunSplit(cfg, d, files, service, k);
    RunKeepsSettled(cfg, s.disk, files[k + 1..], service, OutputFor(cfg, files[k]));
  }

  /** Without the force flag, a file whose output is settled before a run is
      skipped in that run. */
  lemma SettledSkippedInRun(cfg: Config, d: Disk, files: seq<Path>, service: Service, k: nat)
    requires AllUnder(files, cfg.inputRoot)
    requires !cfg.forceReconvert
    requires k < |files|
    requires Settled(d, OutputFor(cfg, files[k]))
    ensures Run(cfg, d, files, service).results[k].report == SkippedAs(files[k], OutputFor(cfg, files[k]))
  {
    RunKeepsSettled(cfg, d, files[..k], service, OutputFor(cfg, files[k]));
    var before := Run(cfg, d, files[..k], service).disk;
    SettledIsSkipped(cfg, before, files[k]);
    SkipOutcome(cfg, before, files[k], service, service);
    RunResults(cfg, d, files, service, k);
  }

  /** Running again without the force flag skips every file that succeeded
      the first time, without asking the parser about it. */
  lemma RerunSkipsSucceeded(cfg: Config, d: Disk, files: seq<Path>, service: Service, again: Service, k: nat)
    requires AllUnder(files, cfg.inputRoot)
    requires k < |files|
    requires Succeeded(Run(cfg, d, files, service).results[k].report)
    ensures var next := cfg.(forceReconvert := false);
      var second := Run(next, Run(cfg, d, files, service).disk, files, again);
      second.results[k].report == SkippedAs(files[k], OutputFor(cfg, files[k]))
  {
    var next := cfg.(forceReconvert := false);
    SucceededStaysSettled(cfg, d, files, service, k);
    SettledSkippedInRun(next, Run(cfg, d, files, service).disk, files, again, k);
  }

  /** The converter's `results` entry for one file: the path with the
      `(bool, str)` pair its conversion returned. */
  type ResultEntry = (Path, bool, string)

  function ResultTuple(r: FileResult): ResultEntry {
    (r.path, Succeeded(r.report), Text(r.report))
  }

  function ResultTuples(results: seq<FileResult>): (r: seq<ResultEntry>)
    ensures |r| == |results| && forall k :: 0 <= k < |results| ==> r[k] == ResultTuple(results[k])
  {
    if results == [] then [] else ResultTuples(results[..|results| - 1]) + [ResultTuple(results[|results| - 1])]
  }

  /** The converter's four counters. */
  datatype Tally = Tally(converted: nat, skipped: nat, failed: nat, premium: nat)

  /** One round of the counting loop, on the `(bool, str)` result: a success
      whose string contains `Skipped` counts as skipped, any other success as
      converted (and as premium for a premium name), a failure as failed. */
  function Count(t: Tally, e: ResultEntry): Tally {
    if e.1 then
      if Contains(e.2, SkipMarker) then t.(skipped := t.skipped + 1)
      else t.(converted := t.converted + 1, premium := if IsPremium(Name(e.0)) then t.premium + 1 else t.premium)
    else t.(failed := t.failed + 1)
  }

  function TallyOf(entries: seq<ResultEntry>): Tally {
    if entries == [] then Tally(0, 0, 0, 0)
    else Count(TallyOf(entries[..|entries| - 1]), entries[|entries| - 1])
  }

  /** Counting one more entry. */
  lemma TallyOfAppend(entries: seq<ResultEntry>, e: ResultEntry)
    ensures TallyOf(entries + [e]) == Count(TallyOf(entries), e)
  {
    assert (entries + [e])[..|entries|] == entries;
  }

  /** Every entry lands in exactly one of converted, skipped and failed, and
      premium files are counted only among the converted. */
  lemma {:induction false} TallyInvariant(entries: seq<ResultEntry>)
    ensures var t := TallyOf(entries);
      t.converted + t.skipped + t.failed == |entries| && t.premium <= t.converted
  {
    if entries != [] {
      TallyInvariant(entries[..|entries| - 1]);
    }
  }

  /** How one report is counted: a failure as failed, a skip as skipped, and
      a written file as converted, except that the substring test counts it
      as skipped when its output path happens to contain `Skipped`. */
  lemma CountReport(t: Tally, file: Path, r: Report)
    ensures Count(t, ResultTuple(FileResult(file, r))) ==
      match r
      case SkippedAs(_, _) => t.(skipped := t.skipped + 1)
      case ConvertedTo(out) =>
        if Contains(Render(out), SkipMarker) then t.(skipped := t.skipped + 1)
        else t.(converted := t.converted + 1, premium := if IsPremium(Name(file)) then t.premium + 1 else t.premium)
      case _ => t.(failed := t.failed + 1)
  {
    if r.SkippedAs? {
      SkipTextShape(r.file, r.out);
    }
  }

  /** The lines of the summary's failure list: every failed file with its
      message, in order. */
  function FailureLines(entries: seq<ResultEntry>): seq<(Path, string)> {
    if entries == [] then []
    else
      var last := entries[|entries| - 1];
      FailureLines(entries[..|entries| - 1]) + (if last.1 then [] else [(last.0, last.2)])
  }

  /** The names in the summary's premium list: every success whose string
      lacks `Skipped` and whose name is premium, in order. */
  function PremiumLines(entries: seq<ResultEntry>): seq<string> {
    if entries == [] then []
    else
      var last := entries[|entries| - 1];
      var listed := last.1 && !Contains(last.2, SkipMarker) && IsPremium(Name(last.0));
      PremiumLines(entries[..|entries| - 1]) + (if listed then [Name(last.0)] else [])
  }

  /** The summary lists exactly as many failures and premium files as its
      counters report. */
  lemma {:induction false} SummaryListsMatchCounters(entries: seq<ResultEntry>)
    ensures |FailureLines(entries)| == TallyOf(entries).failed
    ensures |PremiumLines(entries)| == TallyOf(entries).premium
  {
    if entries != [] {
      SummaryListsMatchCounters(entries[..|entries| - 1]);
    }
  }

  /** Every path of a listing of the input root lies below the input root. */
  lemma ListingUnder(walk: seq<Entry>, allow: set<string>, root: Path)
    requires forall k :: 0 <= k < |walk| ==> StrictlyUnder(walk[k].path, root)
    ensures AllUnder(SupportedIn(walk, allow), root)
  {
    forall i | 0 <= i < |SupportedIn(walk, allow)|
      ensures StrictlyUnder(SupportedIn(walk, allow)[i], root)
    {
      SupportedInSelected(walk, allow, i);
    }
  }

  /** A file named `Skipped.pdf` whose conversion writes its output is
      counted as skipped, because its output path ends in `Skipped.md`. */
  lemma SkippedNameMiscounted(t: Tally, cfg: Config, d: Disk, service: Service)
    requires StrictlyUnder(cfg.inputRoot + ["Skipped.pdf"], cfg.inputRoot)
    ensures var file := cfg.inputRoot + ["Skipped.pdf"];
      var s := ConvertStep(cfg, d, file, service);
      s.report.ConvertedTo? ==> Count(t, ResultTuple(FileResult(file, s.report))) == t.(skipped := t.skipped + 1)
  {
    var file := cfg.inputRoot + ["Skipped.pdf"];
    var out := OutputFor(cfg, file);
    SkippedOutputName(cfg, file);
    SkippedNameContainsMarker(out);
    CountReport(t, file, ConvertedTo(out));
  }

  /** The output of `Skipped.pdf` is `Skipped.md`. */
  lemma SkippedOutputName(cfg: Config, file: Path)
    requires StrictlyUnder(file, cfg.inputRoot) && Name(file) == "Skipped.pdf"
    ensures OutputFor(cfg, file) != [] && Name(OutputFor(cfg, file)) == "Skipped.md"
  {
    OutputPathName(cfg.inputRoot, cfg.outputRoot, file);
    OutputPathSpec(cfg.inputRoot, cfg.outputRoot, file);
    SkippedPdfStem();
    assert "Skipped" + ".md" == "Skipped.md";
  }

  lemma SkippedPdfStem()
    ensures Stem("Skipped.pdf") == "Skipped"
  {
    assert "Skipped.pdf" == "Skipped" + ".pdf";
    SuffixOfAppended("Skipped", ".pdf");
  }

  /** An output path named `Skipped.md` contains the marker. */
  lemma SkippedNameContainsMarker(out: Path)
    requires out != [] && Name(out) == "Skipped.md"
    ensures Contains(Render(out), SkipMarker)
  {
    RenderEndsWithName(out);
    var r := Render(out);
    assert r[|r| - 10..] == "Skipped.md";
    assert r[|r| - 10..|r| - 3] == SkipMarker;
    assert OccursAt(r, SkipMarker, |r| - 10);
  }

  /** No component of `p` holds the marker's first letter, a capital `S`. */
  predicate ClearOfMarker(p: Path) {
    forall i, k :: 0 <= i < |p| && 0 <= k < |p[i]| ==> p[i][k] != SkipMarker[0]
  }

  /** Then `str(p)` does not contain `Skipped`. */
  lemma RenderClearOfMarker(p: Path)
    requires ClearOfMarker(p)
    ensures !Contains(Render(p), SkipMarker)
  {
    RenderAvoids(p, SkipMarker[0]);
    NotContainsWithoutHead(Render(p), SkipMarker);
  }

  /** The output path adds only `.md`, which holds no `S`, to the output root
      and the file's path below the input root. */
  lemma OutputClearOfMarker(cfg: Config, file: Path)
    requires StrictlyUnder(file, cfg.inputRoot)
    requires ClearOfMarker(cfg.outputRoot) && ClearOfMarker(RelativeTo(file, cfg.inputRoot))
    ensures ClearOfMarker(OutputFor(cfg, file))
  {
    var rel := RelativeTo(file, cfg.inputRoot);
    var w := WithSuffix(rel, ".md");
    WithSuffixSpec(rel, ".md");
    StemSuffixSplit(Name(rel));
    var out := OutputFor(cfg, file);
    assert out == cfg.outputRoot + w;
    forall i, k | 0 <= i < |out| && 0 <= k < |out[i]| ensures out[i][k] != SkipMarker[0] {
      if i >= |cfg.outputRoot| {
        var j := i - |cfg.outputRoot|;
        assert out[i] == w[j];
        if j == |w| - 1 {
          var stem := Stem(Name(rel));
          assert w[j] == stem + ".md";
          if k < |stem| {
            assert stem[k] == Name(rel)[k];
          }
        }
      }
    }
  }

  /** A written file counts as converted, and as premium exactly for a
      premium name, when neither the output root nor the file's path below
      the input root holds a capital `S`. */
  lemma ConvertedCounted(t: Tally, cfg: Config, file: Path)
    requires StrictlyUnder(file, cfg.inputRoot)
    requires ClearOfMarker(cfg.outputRoot) && ClearOfMarker(RelativeTo(file, cfg.inputRoot))
    ensures Count(t, ResultTuple(FileResult(file, ConvertedTo(OutputFor(cfg, file))))) ==
      t.(converted := t.converted + 1, premium := if IsPremium(Name(file)) then t.premium + 1 else t.premium)
  {
    OutputClearOfMarker(cfg, file);
    RenderClearOfMarker(OutputFor(cfg, file));
    CountReport(t, file, ConvertedTo(OutputFor(cfg, file)));
  }

  /** A step creates or removes no path as long as its output path, other
      than the output path itself: the directories it makes lie above it. */
  lemma StepCreatesNoSibling(cfg: Config, d: Disk, file: Path, service: Service, q: Path)
    requires StrictlyUnder(file, cfg.inputRoot)
    requires |q| >= |OutputFor(cfg, file)| && q != OutputFor(cfg, file)
    ensures Exists(ConvertStep(cfg, d, file, service).disk, q) == Exists(d, q)
  {
    var out := OutputFor(cfg, file);
    OutputPathSpec(cfg.inputRoot, cfg.outputRoot, file);
    ParentPrefixes(out);
    MakeDirsSpec(d, Parent(out));
    var c := AlreadyConverted(cfg, d, file);
    if c.Checked? {
      MakeDirsSpec(c.disk, Parent(out));
      var m := MakeDirs(c.disk, Parent(out));
      var answer := service(file, TierFor(file));
      if m.Made? && answer.Parsed? {
        WriteSpec(m.disk, out, JoinTexts(answer.texts));
      }
    }
  }

  /** A path next to a settled one has no regular file above it. */
  lemma SiblingNotBlocked(d: Disk, p: Path, q: Path)
    requires Settled(d, p) && p != [] && q != [] && Parent(p) == Parent(q)
    ensures !BlockedAbove(d, q)
  {
    BlockedAboveIff(d, q);
    forall k | 0 <= k < |q| ensures q[..k] !in d.files {
      assert q[..k] == p[..k];
    }
  }

  /** Without the force flag a new output with no file above it is written
      when the parser of the file's tier answers with pages. */
  lemma FreshConverted(cfg: Config, d: Disk, file: Path, service: Service)
    requires StrictlyUnder(file, cfg.inputRoot)
    requires !cfg.forceReconvert
    requires !BlockedAbove(d, OutputFor(cfg, file)) && !Exists(d, OutputFor(cfg, file))
    requires service(file, TierFor(file)).Parsed? && service(file, TierFor(file)).texts != []
    ensures var s := ConvertStep(cfg, d, file, service);
      s.report == ConvertedTo(OutputFor(cfg, file)) && s.call == CallWith(TierFor(file))
  {
    ParsedOutcome(cfg, d, file, service);
    ParserCalledIff(cfg, d, file, service);
  }
}
