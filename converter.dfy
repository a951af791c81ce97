/** The converter object and the filesystem it works on, as classes whose
    methods change state step by step in the order the converter does. Each
    method is proved to leave exactly the state, and return exactly the
    values, that the functions of the `Conversion` module describe. */
module Converter {
  import opened Ascii
  import opened Paths
  import opened Policy
  import opened Disks
  import opened Conversion

  datatype Option<T> = None | Some(value: T)

  /** The local filesystem: the text of every regular file and the set of
      directories. */
  class FileSystem {
    var files: map<Path, string>
    var dirs: set<Path>

    function Snapshot(): Disk
      reads this
    {
      Disk(files, dirs)
    }

    constructor (d: Disk)
      ensures Snapshot() == d
    {
      files := d.files;
      dirs := d.dirs;
    }

    /** `p.exists()`. */
    method PathExists(p: Path) returns (b: bool)
      ensures b == Exists(Snapshot(), p)
    {
      b := p in files || p in dirs;
    }

    /** `p.mkdir(parents=True, exist_ok=True)`: the error it raises, or
        `None` once `p` and its ancestors are directories. */
    method MakeDirectories(p: Path) returns (error: Option<OsError>)
      modifies this
      ensures match MakeDirs(old(Snapshot()), p)
        case Made(e) => error == None && Snapshot() == e
        case MkdirFailed(x) => error == Some(x) && Snapshot() == old(Snapshot())
    {
      match MakeDirs(Snapshot(), p)
      case Made(e) =>
        dirs := e.dirs;
        error := None;
      case MkdirFailed(x) =>
        error := Some(x);
    }

    /** Opening `p` for writing and writing `text`, below an existing
        directory: the error it raises, or `None` once `p` holds `text`. */
    method WriteText(p: Path, text: string) returns (error: Option<OsError>)
      modifies this
      ensures match Write(old(Snapshot()), p, text)
        case Written(e) => error == None && Snapshot() == e
        case WriteFailed(x) => error == Some(x) && Snapshot() == old(Snapshot())
    {
      if p in dirs {
        error := Some(IsADirectory(p));
      } else {
        files := files[p := text];
        error := None;
      }
    }
  }

  /** What the recursive walk of `root` yields on disk `d`: entries strictly
      below `root` that exist, flagged as regular files exactly when they
      are. */
  predicate Listing(d: Disk, root: Path, walk: seq<Entry>) {
    forall k :: 0 <= k < |walk| ==>
      && StrictlyUnder(walk[k].path, root)
      && Exists(d, walk[k].path)
      && (walk[k].isFile <==> walk[k].path in d.files)
  }

  /** The counters and the `results` list a run of the converter reports in
      its summary. */
  datatype Summary = Summary(tally: Tally, results: seq<ResultEntry>)

  class DocumentConverter {
    const forceReconvert: bool
    const inputDir: Path
    const outputDir: Path
    const fs: FileSystem
    /** The two remote parsers, the automatic and the premium one. */
    const service: Service

    function Settings(): Config {
      Config(forceReconvert, inputDir, outputDir)
    }

    constructor FromParts(forceReconvert: bool, inputDir: Path, outputDir: Path, fs: FileSystem, service: Service)
      ensures Settings() == Config(forceReconvert, inputDir, outputDir)
      ensures this.fs == fs && this.service == service
    {
      this.forceReconvert := forceReconvert;
      this.inputDir := inputDir;
      this.outputDir := outputDir;
      this.fs := fs;
      this.service := service;
    }

    /** Building a converter: the input and output roots below the project
        root, and the output root created with its ancestors. When that
        creation raises, no converter is built and the error is returned. */
    static method Create(projectRoot: Path, forceReconvert: bool, fs: FileSystem, service: Service)
      returns (c: DocumentConverter?, error: Option<OsError>)
      modifies fs
      ensures match MakeDirs(old(fs.Snapshot()), OutputRoot(projectRoot))
        case MkdirFailed(x) => c == null && error == Some(x) && fs.Snapshot() == old(fs.Snapshot())
        case Made(e) =>
          && c != null && fresh(c) && error == None && fs.Snapshot() == e
          && c.Settings() == Config(forceReconvert, InputRoot(projectRoot), OutputRoot(projectRoot))
          && c.fs == fs && c.service == service
    {
      var inputDir := InputRoot(projectRoot);
      var outputDir := OutputRoot(projectRoot);
      error := fs.MakeDirectories(outputDir);
      if error.Some? {
        c := null;
      } else {
        c := new DocumentConverter.FromParts(forceReconvert, inputDir, outputDir, fs, service);
      }
    }

    /** The supported files of a walk, in walk order. */
    method GetSupportedFiles(walk: seq<Entry>) returns (files: seq<Path>)
      ensures files == SupportedIn(walk, SupportedExtensions)
    {
      var allow := SupportedExtensions;
      files := [];
      var i := 0;
      while i < |walk|
        invariant 0 <= i <= |walk|
        invariant files == SupportedIn(walk[..i], allow)
      {
        assert walk[..i + 1][..i] == walk[..i];
        var e := walk[i];
        if Selected(e, allow) {
          files := files + [e.path];
        }
        i := i + 1;
      }
      assert walk[..i] == walk;
    }

    /** The output path of a file, after creating its parent directories. */
    method GetOutputPath(file: Path) returns (out: Path, error: Option<OsError>)
      requires StrictlyUnder(file, inputDir)
      modifies fs
      ensures out == OutputFor(Settings(), file)
      ensures match MakeDirs(old(fs.Snapshot()), Parent(out))
        case Made(e) => error == None && fs.Snapshot() == e
        case MkdirFailed(x) => error == Some(x) && fs.Snapshot() == old(fs.Snapshot())
    {
      var relative := RelativeTo(file, inputDir);
      out := outputDir + WithSuffix(relative, ".md");
      error := fs.MakeDirectories(Parent(out));
    }

    /** The skip test, or the error computing the output path raised. */
    method IsFileAlreadyConverted(file: Path) returns (converted: bool, error: Option<OsError>)
      requires StrictlyUnder(file, inputDir)
      modifies fs
      ensures match AlreadyConverted(Settings(), old(fs.Snapshot()), file)
        case Checked(answer, e) => error == None && converted == answer && fs.Snapshot() == e
        case CheckRaised(x) => error == Some(x) && fs.Snapshot() == old(fs.Snapshot())
    {
      if forceReconvert {
        return false, None;
      }
      var out;
      out, error := GetOutputPath(file);
      if error.Some? {
        return false, error;
      }
      converted := fs.PathExists(out);
    }

    /** Converting one file: the `(bool, str)` pair and the filesystem are
        those of the step function. */
    method ConvertFile(file: Path) returns (success: bool, result: string)
      requires StrictlyUnder(file, inputDir)
      modifies fs
      ensures var s := ConvertStep(Settings(), old(fs.Snapshot()), file, service);
        success == Succeeded(s.report) && result == Text(s.report) && fs.Snapshot() == s.disk
    {
      var converted, error := IsFileAlreadyConverted(file);
      if error.Some? {
        return false, Text(FailedWith(file, OsFailure(error.value)));
      }
      if converted {
        var out, error := GetOutputPath(file);
        if error.Some? {
          return false, Text(FailedWith(file, OsFailure(error.value)));
        }
        return true, Text(SkippedAs(file, out));
      }
      var tier := if IsPremium(Name(file)) then Premium else Standard;
      var answer := service(file, tier);
      if answer.Raised? {
        return false, Text(FailedWith(file, ParserFailure(answer.error)));
      }
      if answer.texts == [] {
        return false, Text(NoContent);
      }
      var content := JoinTexts(answer.texts);
      var out, error2 := GetOutputPath(file);
      if error2.Some? {
        return false, Text(FailedWith(file, OsFailure(error2.value)));
      }
      var error3 := fs.WriteText(out, content);
      if error3.Some? {
        return false, Text(FailedWith(file, OsFailure(error3.value)));
      }
      return true, Text(ConvertedTo(out));
    }

    /** Converting every supported file of the walk in order, counting each
        `(bool, str)` result with the counting rule of `Count`. With no supported file nothing happens and there is no
        summary; otherwise the counters and the results are those of the run
        function, and every file lands in exactly one counter. */
    method ConvertAllDocuments(walk: seq<Entry>) returns (summary: Option<Summary>)
      requires Listing(fs.Snapshot(), inputDir, walk)
      modifies fs
      ensures var files := SupportedIn(walk, SupportedExtensions);
        && (files == [] ==> summary == None && fs.Snapshot() == old(fs.Snapshot()))
        && (files != [] ==>
              && AllUnder(files, inputDir)
              && var run := Run(Settings(), old(fs.Snapshot()), files, service);
              && summary == Some(Summary(TallyOf(ResultTuples(run.results)), ResultTuples(run.results)))
              && fs.Snapshot() == run.disk)
        && (summary.Some? ==>
              var t := summary.value.tally;
              t.converted + t.skipped + t.failed == |files| && t.premium <= t.converted)
    {
      var files := GetSupportedFiles(walk);
      if files == [] {
        return None;
      }
      ListingUnder(walk, SupportedExtensions, inputDir);
      ghost var d := fs.Snapshot();
      var tally := Tally(0, 0, 0, 0);
      var results: seq<ResultEntry> := [];
      var i := 0;
      while i < |files|
        invariant 0 <= i <= |files|
        invariant AllUnder(files[..i], inputDir)
        invariant fs.Snapshot() == Run(Settings(), d, files[..i], service).disk
        invariant results == ResultTuples(Run(Settings(), d, files[..i], service).results)
        invariant tally == TallyOf(results)
      {
        var file := files[i];
        var success, result := ConvertFile(file);
        RunGrows(Settings(), d, files, service, i);
        TallyOfAppend(results, (file, success, result));
        results := results + [(file, success, result)];
        tally := Count(tally, (file, success, result));
        i := i + 1;
      }
      assert files[..i] == files;
      TallyInvariant(results);
      summary := Some(Summary(tally, results));
    }
  }
}
