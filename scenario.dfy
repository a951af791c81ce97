/** An end-to-end run of three files directly in the input root, one of
    them already converted, one with a premium name. The lemmas build it
    from the one-file steps and the counting rule. */
module Scenario {
  import opened Ascii
  import opened Paths
  import opened Policy
  import opened Disks
  import opened Conversion

  /** A file directly in the input root maps to its stem plus `.md` directly
      in the output root. */
  lemma TopLevelOutput(cfg: Config, name: Segment, stem: Segment, ext: string)
    requires name == stem + ext
    requires |ext| >= 2 && ext[0] == '.'
    requires forall k :: 1 <= k < |ext| ==> ext[k] != '.'
    ensures StrictlyUnder(cfg.inputRoot + [name], cfg.inputRoot)
    ensures RelativeTo(cfg.inputRoot + [name], cfg.inputRoot) == [name]
    ensures OutputFor(cfg, cfg.inputRoot + [name]) == cfg.outputRoot + [stem + ".md"]
  {
    var file := cfg.inputRoot + [name];
    assert file[..|cfg.inputRoot|] == cfg.inputRoot;
    assert RelativeTo(file, cfg.inputRoot) == [name];
    SuffixOfAppended(stem, ext);
  }

  /** The parser calls of one step, as the run records them. */
  function CallsOf(file: Path, s: Step): seq<(Path, Tier)> {
    if s.call.CallWith? then [(file, s.call.tier)] else []
  }

  /** A new output next to a settled one is written, and the step keeps the
      settled one settled and `absent`, a path of the same depth, absent. */
  lemma FreshStepKeeps(cfg: Config, d: Disk, file: Path, service: Service, keep: Path, absent: Path)
    requires StrictlyUnder(file, cfg.inputRoot) && !cfg.forceReconvert
    requires Settled(d, keep) && keep != [] && Parent(keep) == Parent(OutputFor(cfg, file))
    requires !Exists(d, OutputFor(cfg, file))
    requires |absent| >= |OutputFor(cfg, file)| && absent != OutputFor(cfg, file) && !Exists(d, absent)
    requires service(file, TierFor(file)).Parsed? && service(file, TierFor(file)).texts != []
    ensures var s := ConvertStep(cfg, d, file, service);
      && s.report == ConvertedTo(OutputFor(cfg, file)) && s.call == CallWith(TierFor(file))
      && Settled(s.disk, keep) && !Exists(s.disk, absent)
  {
    OutputPathSpec(cfg.inputRoot, cfg.outputRoot, file);
    SiblingNotBlocked(d, keep, OutputFor(cfg, file));
    FreshConverted(cfg, d, file, service);
    StepKeepsSettled(cfg, d, file, service, keep);
    StepCreatesNoSibling(cfg, d, file, service, absent);
  }

  /** A settled output is skipped, stays settled, and `absent`, a path of
      the same depth, stays absent. */
  lemma SettledStepKeeps(cfg: Config, d: Disk, file: Path, service: Service, absent: Path)
    requires StrictlyUnder(file, cfg.inputRoot) && !cfg.forceReconvert
    requires Settled(d, OutputFor(cfg, file))
    requires |absent| >= |OutputFor(cfg, file)| && absent != OutputFor(cfg, file) && !Exists(d, absent)
    ensures var s := ConvertStep(cfg, d, file, service);
      && s.report == SkippedAs(file, OutputFor(cfg, file)) && s.call == NoCall
      && Settled(s.disk, OutputFor(cfg, file)) && !Exists(s.disk, absent)
  {
    SettledIsSkipped(cfg, d, file);
    SkipOutcome(cfg, d, file, service, service);
    StepKeepsSettled(cfg, d, file, service, OutputFor(cfg, file));
    StepCreatesNoSibling(cfg, d, file, service, absent);
  }

  /** The run over one file is that file's step. */
  lemma RunOne(cfg: Config, d: Disk, a: Path, service: Service)
    requires StrictlyUnder(a, cfg.inputRoot)
    ensures AllUnder([a], cfg.inputRoot)
    ensures var s := ConvertStep(cfg, d, a, service);
      Run(cfg, d, [a], service) == RunState([FileResult(a, s.report)], s.disk, CallsOf(a, s))
  {
    assert [a][..0] == [];
  }

  /** One more file at the end: one more result, that step's filesystem and
      its calls. */
  lemma RunMore(cfg: Config, d: Disk, files: seq<Path>, b: Path, service: Service)
    requires AllUnder(files, cfg.inputRoot) && StrictlyUnder(b, cfg.inputRoot)
    ensures AllUnder(files + [b], cfg.inputRoot)
    ensures var before := Run(cfg, d, files, service);
      var s := ConvertStep(cfg, before.disk, b, service);
      Run(cfg, d, files + [b], service) == RunState(before.results + [FileResult(b, s.report)], s.disk, before.calls + CallsOf(b, s))
  {
    assert (files + [b])[..|files|] == files;
  }

  /** The first of three files: written by the parser of its tier, with
      `ob` still settled and `oc` still absent. */
  lemma FirstOfThree(cfg: Config, d: Disk, service: Service, a: Path, ob: Path, oc: Path)
    requires StrictlyUnder(a, cfg.inputRoot) && !cfg.forceReconvert
    requires Settled(d, ob) && ob != [] && Parent(ob) == Parent(OutputFor(cfg, a))
    requires !Exists(d, OutputFor(cfg, a))
    requires |oc| >= |OutputFor(cfg, a)| && oc != OutputFor(cfg, a) && !Exists(d, oc)
    requires service(a, TierFor(a)).Parsed? && service(a, TierFor(a)).texts != []
    ensures AllUnder([a], cfg.inputRoot)
    ensures var run := Run(cfg, d, [a], service);
      && run.results == [FileResult(a, ConvertedTo(OutputFor(cfg, a)))]
      && run.calls == [(a, TierFor(a))]
      && Settled(run.disk, ob) && !Exists(run.disk, oc)
  {
    RunOne(cfg, d, a, service);
    FreshStepKeeps(cfg, d, a, service, ob, oc);
  }

  /** The second: skipped, its output staying settled, `oc` still absent,
      no parser call. */
  lemma SecondOfThree(cfg: Config, d: Disk, service: Service, a: Path, b: Path, oc: Path)
    requires AllUnder([a], cfg.inputRoot) && StrictlyUnder(b, cfg.inputRoot) && !cfg.forceReconvert
    requires Settled(Run(cfg, d, [a], service).disk, OutputFor(cfg, b))
    requires |oc| >= |OutputFor(cfg, b)| && oc != OutputFor(cfg, b) && !Exists(Run(cfg, d, [a], service).disk, oc)
    ensures AllUnder([a, b], cfg.inputRoot)
    ensures var before := Run(cfg, d, [a], service);
      var run := Run(cfg, d, [a, b], service);
      && run.results == before.results + [FileResult(b, SkippedAs(b, OutputFor(cfg, b)))]
      && run.calls == before.calls
      && Settled(run.disk, OutputFor(cfg, b)) && !Exists(run.disk, oc)
  {
    RunMore(cfg, d, [a], b, service);
    assert [a] + [b] == [a, b];
    SettledStepKeeps(cfg, Run(cfg, d, [a], service).disk, b, service, oc);
  }

  /** The third: written by the parser of its tier next to the settled
      `ob`. */
  lemma ThirdOfThree(cfg: Config, d: Disk, service: Service, a: Path, b: Path, c: Path, ob: Path)
    requires AllUnder([a, b], cfg.inputRoot) && StrictlyUnder(c, cfg.inputRoot) && !cfg.forceReconvert
    requires Settled(Run(cfg, d, [a, b], service).disk, ob) && ob != [] && Parent(ob) == Parent(OutputFor(cfg, c))
    requires !Exists(Run(cfg, d, [a, b], service).disk, OutputFor(cfg, c))
    requires service(c, TierFor(c)).Parsed? && service(c, TierFor(c)).texts != []
    ensures AllUnder([a, b, c], cfg.inputRoot)
    ensures var before := Run(cfg, d, [a, b], service);
      var run := Run(cfg, d, [a, b, c], service);
      && run.results == before.results + [FileResult(c, ConvertedTo(OutputFor(cfg, c)))]
      && run.calls == before.calls + [(c, TierFor(c))]
  {
    RunMore(cfg, d, [a, b], c, service);
    assert [a, b] + [c] == [a, b, c];
    var d2 := Run(cfg, d, [a, b], service).disk;
    SiblingNotBlocked(d2, ob, OutputFor(cfg, c));
    FreshConverted(cfg, d2, c, service);
  }

  /** The first two files: the first written, the second skipped, the
      second's output still settled and `oc` still absent. */
  lemma TwoFileRun(cfg: Config, d: Disk, service: Service, a: Path, b: Path, oc: Path)
    requires StrictlyUnder(a, cfg.inputRoot) && StrictlyUnder(b, cfg.inputRoot) && !cfg.forceReconvert
    requires var oa, ob := OutputFor(cfg, a), OutputFor(cfg, b);
      && ob != [] && Parent(ob) == Parent(oa) && Settled(d, ob) && !Exists(d, oa)
      && |oc| == |oa| && oc != oa && oc != ob && !Exists(d, oc)
    requires service(a, TierFor(a)).Parsed? && service(a, TierFor(a)).texts != []
    ensures AllUnder([a, b], cfg.inputRoot)
    ensures var run := Run(cfg, d, [a, b], service);
      && run.results == [FileResult(a, ConvertedTo(OutputFor(cfg, a))), FileResult(b, SkippedAs(b, OutputFor(cfg, b)))]
      && run.calls == [(a, TierFor(a))]
      && Settled(run.disk, OutputFor(cfg, b)) && !Exists(run.disk, oc)
  {
    FirstOfThree(cfg, d, service, a, OutputFor(cfg, b), oc);
    SecondOfThree(cfg, d, service, a, b, oc);
  }

  /** Three files whose outputs sit side by side, the second one already in
      place and the other two absent, run without the force flag: the first
      and the third are written by the parsers of their tiers and the second
      is skipped. */
  lemma ThreeFileRun(cfg: Config, d: Disk, service: Service, a: Path, b: Path, c: Path)
    requires StrictlyUnder(a, cfg.inputRoot) && StrictlyUnder(b, cfg.inputRoot) && StrictlyUnder(c, cfg.inputRoot)
    requires !cfg.forceReconvert
    requires var oa, ob, oc := OutputFor(cfg, a), OutputFor(cfg, b), OutputFor(cfg, c);
      && oa != [] && ob != [] && Parent(oa) == Parent(ob) == Parent(oc) && oc != oa && oc != ob
      && Settled(d, ob) && !Exists(d, oa) && !Exists(d, oc)
    requires service(a, TierFor(a)).Parsed? && service(a, TierFor(a)).texts != []
    requires service(c, TierFor(c)).Parsed? && service(c, TierFor(c)).texts != []
    ensures AllUnder([a, b, c], cfg.inputRoot)
    ensures var run := Run(cfg, d, [a, b, c], service);
      && run.results == [FileResult(a, ConvertedTo(OutputFor(cfg, a))), FileResult(b, SkippedAs(b, OutputFor(cfg, b))), FileResult(c, ConvertedTo(OutputFor(cfg, c)))]
      && run.calls == [(a, TierFor(a)), (c, TierFor(c))]
  {
    var ob, oc := OutputFor(cfg, b), OutputFor(cfg, c);
    TwoFileRun(cfg, d, service, a, b, oc);
    ThirdOfThree(cfg, d, service, a, b, c, ob);
  }

  /** The results list grows by the entry of the new result. */
  lemma ResultTuplesAppend(results: seq<FileResult>, r: FileResult)
    ensures ResultTuples(results + [r]) == ResultTuples(results) + [ResultTuple(r)]
  {
    assert (results + [r])[..|results|] == results;
  }

  /** Two written files around a skipped one count as two converted, one
      skipped, no failure and one premium when only the third name is premium
      and neither output path contains `Skipped`. */
  lemma ThreeReportTally(a: Path, b: Path, c: Path, oa: Path, ob: Path, oc: Path)
    requires !Contains(Render(oa), SkipMarker) && !Contains(Render(oc), SkipMarker)
    requires !IsPremium(Name(a)) && IsPremium(Name(c))
    ensures TallyOf(ResultTuples([FileResult(a, ConvertedTo(oa)), FileResult(b, SkippedAs(b, ob)), FileResult(c, ConvertedTo(oc))])) == Tally(2, 1, 0, 1)
  {
    var ra, rb, rc := FileResult(a, ConvertedTo(oa)), FileResult(b, SkippedAs(b, ob)), FileResult(c, ConvertedTo(oc));
    ResultTuplesAppend([], ra);
    ResultTuplesAppend([ra], rb);
    ResultTuplesAppend([ra, rb], rc);
    assert [] + [ra] == [ra] && [ra] + [rb] == [ra, rb] && [ra, rb] + [rc] == [ra, rb, rc];
    var e1 := ResultTuples([ra]);
    var e2 := ResultTuples([ra, rb]);
    TallyOfAppend([], ResultTuple(ra));
    TallyOfAppend(e1, ResultTuple(rb));
    TallyOfAppend(e2, ResultTuple(rc));
    CountReport(Tally(0, 0, 0, 0), a, ra.report);
    CountReport(Tally(1, 0, 0, 0), b, rb.report);
    CountReport(Tally(1, 1, 0, 0), c, rc.report);
  }

  /** Below an output root and paths without a capital `S`, the two written
      files of the run count as converted. */
  lemma ThreeFileTally(cfg: Config, a: Path, b: Path, c: Path)
    requires StrictlyUnder(a, cfg.inputRoot) && StrictlyUnder(b, cfg.inputRoot) && StrictlyUnder(c, cfg.inputRoot)
    requires ClearOfMarker(cfg.outputRoot)
    requires ClearOfMarker(RelativeTo(a, cfg.inputRoot)) && ClearOfMarker(RelativeTo(c, cfg.inputRoot))
    requires !IsPremium(Name(a)) && IsPremium(Name(c))
    ensures TallyOf(ResultTuples([FileResult(a, ConvertedTo(OutputFor(cfg, a))), FileResult(b, SkippedAs(b, OutputFor(cfg, b))), FileResult(c, ConvertedTo(OutputFor(cfg, c)))])) == Tally(2, 1, 0, 1)
  {
    OutputClearOfMarker(cfg, a);
    RenderClearOfMarker(OutputFor(cfg, a));
    OutputClearOfMarker(cfg, c);
    RenderClearOfMarker(OutputFor(cfg, c));
    ThreeReportTally(a, b, c, OutputFor(cfg, a), OutputFor(cfg, b), OutputFor(cfg, c));
  }

  /** The files of the end-to-end run, in walk order. */
  function ExampleFiles(root: Path): (files: seq<Path>)
    ensures |files| == 3 && AllUnder(files, root)
  {
    [root + ["a.pdf"], root + ["b.docx"], root + ["DIFFICULT_c.pdf"]]
  }

  /** The output of `a.pdf`: `a.md` directly in the output root. */
  lemma ExampleOutputA(cfg: Config)
    ensures StrictlyUnder(cfg.inputRoot + ["a.pdf"], cfg.inputRoot)
    ensures RelativeTo(cfg.inputRoot + ["a.pdf"], cfg.inputRoot) == ["a.pdf"]
    ensures OutputFor(cfg, cfg.inputRoot + ["a.pdf"]) == cfg.outputRoot + ["a.md"]
  {
    assert "a" + ".pdf" == "a.pdf";
    assert "a" + ".md" == "a.md";
    TopLevelOutput(cfg, "a.pdf", "a", ".pdf");
  }

  /** The output of `b.docx`: `b.md` directly in the output root. */
  lemma ExampleOutputB(cfg: Config)
    ensures StrictlyUnder(cfg.inputRoot + ["b.docx"], cfg.inputRoot)
    ensures OutputFor(cfg, cfg.inputRoot + ["b.docx"]) == cfg.outputRoot + ["b.md"]
  {
    assert "b" + ".docx" == "b.docx";
    assert "b" + ".md" == "b.md";
    TopLevelOutput(cfg, "b.docx", "b", ".docx");
  }

  /** The output of `DIFFICULT_c.pdf`: `DIFFICULT_c.md` directly in the
      output root. */
  lemma ExampleOutputC(cfg: Config)
    ensures StrictlyUnder(cfg.inputRoot + ["DIFFICULT_c.pdf"], cfg.inputRoot)
    ensures RelativeTo(cfg.inputRoot + ["DIFFICULT_c.pdf"], cfg.inputRoot) == ["DIFFICULT_c.pdf"]
    ensures OutputFor(cfg, cfg.inputRoot + ["DIFFICULT_c.pdf"]) == cfg.outputRoot + ["DIFFICULT_c.md"]
  {
    assert "DIFFICULT_c" + ".pdf" == "DIFFICULT_c.pdf";
    assert "DIFFICULT_c" + ".md" == "DIFFICULT_c.md";
    TopLevelOutput(cfg, "DIFFICULT_c.pdf", "DIFFICULT_c", ".pdf");
  }

  /** Only `DIFFICULT_c.pdf` has a premium name. */
  lemma ExampleTiers()
    ensures !IsPremium("a.pdf") && IsPremium("DIFFICULT_c.pdf")
  {
    PremiumIff("a.pdf");
    PremiumIff("DIFFICULT_c.pdf");
  }

  /** No capital `S` in the two names that are converted. */
  lemma ExampleClear()
    ensures ClearOfMarker(["a.pdf"]) && ClearOfMarker(["DIFFICULT_c.pdf"])
  {
  }

  /** The filesystem the end-to-end run starts from: `b.md` is in place and
      reachable, and neither `a.md` nor `DIFFICULT_c.md` exists. */
  ghost predicate ExampleDisk(cfg: Config, d: Disk) {
    && Settled(d, cfg.outputRoot + ["b.md"])
    && !Exists(d, cfg.outputRoot + ["a.md"])
    && !Exists(d, cfg.outputRoot + ["DIFFICULT_c.md"])
  }

  /** The parsers answer `a.pdf` on the automatic tier and `DIFFICULT_c.pdf`
      on the premium tier with at least one page. */
  predicate ExampleService(cfg: Config, service: Service) {
    var a := service(cfg.inputRoot + ["a.pdf"], Standard);
    var c := service(cfg.inputRoot + ["DIFFICULT_c.pdf"], Premium);
    a.Parsed? && a.texts != [] && c.Parsed? && c.texts != []
  }

  /** The end-to-end run: `a.pdf` and `DIFFICULT_c.pdf` are new and `b.docx`
      already has its `b.md`. Without the force flag `b.docx` is skipped,
      `a.pdf` goes to the automatic parser and `DIFFICULT_c.pdf` to the
      premium one, and the counters read two converted, one skipped, no
      failure and one premium. The counters need an output root without a
      capital `S`: below one whose path holds `Skipped` every conversion
      counts as skipped. */
  lemma EndToEndRun(cfg: Config, d: Disk, service: Service)
    requires !cfg.forceReconvert && ClearOfMarker(cfg.outputRoot)
    requires ExampleDisk(cfg, d) && ExampleService(cfg, service)
    ensures var files := ExampleFiles(cfg.inputRoot);
      var run := Run(cfg, d, files, service);
      && run.results[0].report.ConvertedTo?
      && run.results[1].report.SkippedAs?
      && run.results[2].report.ConvertedTo?
      && run.calls == [(files[0], Standard), (files[2], Premium)]
      && TallyOf(ResultTuples(run.results)) == Tally(2, 1, 0, 1)
  {
    var files := ExampleFiles(cfg.inputRoot);
    ExampleOutputA(cfg);
    ExampleOutputB(cfg);
    ExampleOutputC(cfg);
    ExampleTiers();
    ExampleClear();
    ThreeFileRun(cfg, d, service, files[0], files[1], files[2]);
    ThreeFileTally(cfg, files[0], files[1], files[2]);
    assert [files[0], files[1], files[2]] == files;
  }
}
