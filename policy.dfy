/** The decisions `DocumentConverter` takes from a path alone: which files are
    listed for conversion, where a file's markdown goes, which parser tier a
    file gets, and how the parsed pages are combined. */
module Policy {
  import opened Ascii
  import opened Paths

  /** The extensions LlamaParse accepts, in lower case with their dot, in the
      groups the allow-list is written in. */
  const BaseExtensions: set<string> := {".pdf"}

  const DocumentExtensions: set<string> := {
    ".abw", ".cgm", ".cwk", ".doc", ".docx", ".docm", ".dot", ".dotm", ".hwp",
    ".key", ".lwp", ".mw", ".mcw", ".pages", ".pbd", ".ppt", ".pptm", ".pptx",
    ".pot", ".potm", ".potx", ".rtf", ".sda", ".sdd", ".sdp", ".sdw", ".sgl",
    ".sti", ".sxi", ".sxw", ".stw", ".sxg", ".txt", ".uof", ".uop", ".uot",
    ".vor", ".wpd", ".wps", ".xml", ".zabw", ".epub"
  }

  const ImageExtensions: set<string> := {
    ".jpg", ".jpeg", ".png", ".gif", ".bmp", ".svg", ".tiff", ".webp",
    ".web", ".htm", ".html"
  }

  const SpreadsheetExtensions: set<string> := {
    ".xlsx", ".xls", ".xlsm", ".xlsb", ".xlw", ".csv", ".dif", ".sylk", ".slk",
    ".prn", ".numbers", ".et", ".ods", ".fods", ".uos1", ".uos2", ".dbf",
    ".wk1", ".wk2", ".wk3", ".wk4", ".wks", ".123", ".wq1", ".wq2", ".wb1",
    ".wb2", ".wb3", ".qpw", ".xlr", ".eth", ".tsv"
  }

  /** Audio is accepted up to 20 MB; the size limit is the service's. */
  const AudioExtensions: set<string> := {
    ".mp3", ".mp4", ".mpeg", ".mpga", ".m4a", ".wav", ".webm"
  }

  const SupportedExtensions: set<string> :=
    BaseExtensions + DocumentExtensions + ImageExtensions + SpreadsheetExtensions + AudioExtensions

  /** A name without a suffix is never on the allow-list. */
  lemma EmptyNotSupported()
    ensures "" !in SupportedExtensions
  {
    EmptyNotDocument();
    EmptyNotImage();
    EmptyNotSpreadsheet();
    EmptyNotAudio();
  }

  lemma EmptyNotDocument()
    ensures "" !in DocumentExtensions
  {
  }

  lemma EmptyNotImage()
    ensures "" !in ImageExtensions
  {
  }

  lemma EmptyNotSpreadsheet()
    ensures "" !in SpreadsheetExtensions
  {
  }

  lemma EmptyNotAudio()
    ensures "" !in AudioExtensions
  {
  }

  /** The input and output roots below the project root. */
  function InputRoot(projectRoot: Path): Path {
    projectRoot + ["input", "reference_documents", "original"]
  }

  function OutputRoot(projectRoot: Path): Path {
    projectRoot + ["input", "reference_documents", "plain_text"]
  }

  /** One entry that the recursive walk of the input root yields. */
  datatype Entry = Entry(path: Path, isFile: bool)

  /** The test one entry must pass to be listed: a regular file, an
      extension on the allow-list `allow` in any case, and a name that is
      neither hidden nor the macOS folder file. The converter uses it with
      `allow == SupportedExtensions`; the lemmas below hold for any list
      without the empty string. */
  predicate Selected(e: Entry, allow: set<string>) {
    var name := Name(e.path);
    && e.isFile
    && Lower(Suffix(name)) in allow
    && !StartsWith(name, ".")
    && name != ".DS_Store"
  }

  /** The entries of a walk that pass `Selected`, in walk order. */
  function SupportedIn(walk: seq<Entry>, allow: set<string>): seq<Path> {
    if walk == [] then []
    else
      var last := walk[|walk| - 1];
      SupportedIn(walk[..|walk| - 1], allow) + (if Selected(last, allow) then [last.path] else [])
  }

  /** A file is listed exactly when it is a regular file whose name has a
      suffix, that suffix lower-cased is on the allow-list, and the name does
      not start with a dot; the `.DS_Store` comparison adds nothing. */
  lemma SelectedIff(e: Entry, allow: set<string>)
    requires "" !in allow
    ensures Selected(e, allow) <==>
      var name := Name(e.path);
      && e.isFile
      && Suffix(name) != ""
      && Lower(Suffix(name)) in allow
      && name[0] != '.'
  {
    var name := Name(e.path);
    if Suffix(name) == "" {
      assert Lower(Suffix(name)) == "";
    }
    if name != "" && name[0] != '.' {
      assert name[..1] != ".";
    }
    if name == ".DS_Store" {
      assert name[..1] == ".";
    }
  }

  /** On the converter's own allow-list the test is exactly: a regular file
      whose non-empty suffix, lower-cased, is on the list and whose name does
      not start with a dot. */
  lemma SupportedSelectedIff(e: Entry)
    ensures Selected(e, SupportedExtensions) <==>
      var name := Name(e.path);
      && e.isFile
      && Suffix(name) != ""
      && Lower(Suffix(name)) in SupportedExtensions
      && name[0] != '.'
  {
    EmptyNotSupported();
    SelectedIff(e, SupportedExtensions);
  }

  /** Hidden files are never listed, whatever their extension. */
  lemma HiddenNeverSelected(e: Entry, allow: set<string>)
    requires StartsWith(Name(e.path), ".")
    ensures !Selected(e, allow)
  {
  }

  /** For a regular file named by a non-hidden stem and a suffix, the test
      comes down to the lower-cased suffix being on the allow-list. */
  lemma SelectedByParts(dir: Path, stem: string, ext: string, allow: set<string>)
    requires stem != "" && stem[0] != '.'
    requires |ext| >= 2 && ext[0] == '.'
    requires forall k :: 1 <= k < |ext| ==> ext[k] != '.'
    ensures Selected(Entry(dir + [stem + ext], true), allow) <==> Lower(ext) in allow
  {
    var name := stem + ext;
    assert Name(dir + [name]) == name;
    SuffixOfAppended(stem, ext);
    NotHiddenName(stem, ext);
  }

  /** A name whose stem does not start with a dot is neither hidden nor the
      macOS folder file. */
  lemma NotHiddenName(stem: string, ext: string)
    requires stem != "" && stem[0] != '.'
    ensures !StartsWith(stem + ext, ".") && stem + ext != ".DS_Store"
  {
    var name := stem + ext;
    assert name[0] == stem[0] != '.';
    assert !StartsWith(name, ".") by {
      assert name[..1][0] == name[0];
    }
    assert name != ".DS_Store" by {
      assert ".DS_Store"[0] == '.';
    }
  }

  /** The extension test ignores case: upper-case `A.PDF` is listed. */
  lemma UpperCaseExtensionSelected(dir: Path)
    ensures Selected(Entry(dir + ["A.PDF"], true), SupportedExtensions)
  {
    assert ".pdf" in BaseExtensions;
    UpperCasePdfSelected(dir, SupportedExtensions);
  }

  lemma UpperCasePdfSelected(dir: Path, allow: set<string>)
    requires ".pdf" in allow
    ensures Selected(Entry(dir + ["A.PDF"], true), allow)
  {
    SelectedByParts(dir, "A", ".PDF", allow);
    assert "A" + ".PDF" == "A.PDF";
    LowerPdf();
  }

  lemma LowerPdf()
    ensures Lower(".PDF") == ".pdf"
  {
    var r := Lower(".PDF");
    assert r[0] == LowerChar('.') && r[1] == LowerChar('P') && r[2] == LowerChar('D') && r[3] == LowerChar('F');
  }

  /** A name without a suffix and a hidden PDF are not listed, and neither is
      anything that is not a regular file. */
  lemma SelectionRejects(dir: Path, allow: set<string>)
    requires "" !in allow
    ensures !Selected(Entry(dir + ["README"], true), allow)
    ensures !Selected(Entry(dir + [".secret.pdf"], true), allow)
    ensures !Selected(Entry(dir + ["slides.pdf"], false), allow)
  {
    assert LastDot("README") == -1;
    assert ".secret.pdf"[..1] == ".";
  }

  /** A path is listed exactly when some entry of the walk carries it and
      passes the test, and the listing has no more entries than the walk.
      Walk order is kept by the definition of `SupportedIn`. */
  lemma SupportedInMembers(walk: seq<Entry>, allow: set<string>, p: Path)
    ensures p in SupportedIn(walk, allow) <==>
      exists k :: 0 <= k < |walk| && walk[k].path == p && Selected(walk[k], allow)
    ensures |SupportedIn(walk, allow)| <= |walk|
  {
    SupportedInLength(walk, allow);
    if p in SupportedIn(walk, allow) {
      SupportedInSound(walk, allow, p);
    }
    if exists k :: 0 <= k < |walk| && walk[k].path == p && Selected(walk[k], allow) {
      var k :| 0 <= k < |walk| && walk[k].path == p && Selected(walk[k], allow);
      SupportedInComplete(walk, allow, k);
    }
  }

  lemma {:induction false} SupportedInLength(walk: seq<Entry>, allow: set<string>)
    ensures |SupportedIn(walk, allow)| <= |walk|
  {
    if walk != [] {
      SupportedInLength(walk[..|walk| - 1], allow);
    }
  }

  /** Every listed path comes from a selected entry. */
  lemma {:induction false} SupportedInSound(walk: seq<Entry>, allow: set<string>, p: Path)
    requires p in SupportedIn(walk, allow)
    ensures exists k :: 0 <= k < |walk| && walk[k].path == p && Selected(walk[k], allow)
  {
    var init, last := walk[..|walk| - 1], walk[|walk| - 1];
    if p in SupportedIn(init, allow) {
      SupportedInSound(init, allow, p);
      var k :| 0 <= k < |init| && init[k].path == p && Selected(init[k], allow);
      assert walk[k] == init[k];
    } else {
      assert walk[|walk| - 1].path == p && Selected(walk[|walk| - 1], allow);
    }
  }

  /** Every selected entry is listed. */
  lemma {:induction false} SupportedInComplete(walk: seq<Entry>, allow: set<string>, k: nat)
    requires k < |walk| && Selected(walk[k], allow)
    ensures walk[k].path in SupportedIn(walk, allow)
  {
    var init := walk[..|walk| - 1];
    if k < |init| {
      assert init[k] == walk[k];
      SupportedInComplete(init, allow, k);
    }
  }

  /** Every listed path passes the test. */
  lemma SupportedInSelected(walk: seq<Entry>, allow: set<string>, i: nat)
    requires i < |SupportedIn(walk, allow)|
    ensures exists k :: 0 <= k < |walk| && walk[k].path == SupportedIn(walk, allow)[i] && Selected(walk[k], allow)
  {
    SupportedInMembers(walk, allow, SupportedIn(walk, allow)[i]);
  }

  /** The output path of a file below the input root: its path relative to
      the input root, with the final suffix replaced by `.md`, below the
      output root. */
  function OutputPath(inputRoot: Path, outputRoot: Path, file: Path): Path
    requires StrictlyUnder(file, inputRoot)
  {
    outputRoot + WithSuffix(RelativeTo(file, inputRoot), ".md")
  }

  /** The output path starts with the output root and repeats every
      directory between the input root and the file. */
  lemma OutputPathSpec(inputRoot: Path, outputRoot: Path, file: Path)
    requires StrictlyUnder(file, inputRoot)
    ensures var out := OutputPath(inputRoot, outputRoot, file);
      && |out| == |outputRoot| + |file| - |inputRoot|
      && out[..|outputRoot|] == outputRoot
      && out[|outputRoot|..|out| - 1] == file[|inputRoot|..|file| - 1]
  {
    var rel := RelativeTo(file, inputRoot);
    var out := OutputPath(inputRoot, outputRoot, file);
    var w := WithSuffix(rel, ".md");
    assert out == outputRoot + w;
    assert out[|outputRoot|..|out| - 1] == Parent(w);
    assert Parent(rel) == file[|inputRoot|..|file| - 1];
  }

  /** The output file is named by the input file's stem with the suffix
      `.md`, and reading its stem and suffix back gives exactly those. */
  lemma OutputPathName(inputRoot: Path, outputRoot: Path, file: Path)
    requires StrictlyUnder(file, inputRoot)
    ensures var out := OutputPath(inputRoot, outputRoot, file);
      && Name(out) == Stem(Name(file)) + ".md"
      && Stem(Name(out)) == Stem(Name(file))
      && Suffix(Name(out)) == ".md"
  {
    var rel := RelativeTo(file, inputRoot);
    WithSuffixSpec(rel, ".md");
    var out := OutputPath(inputRoot, outputRoot, file);
    assert Name(out) == Name(WithSuffix(rel, ".md"));
    assert Name(rel) == Name(file);
  }

  /** Two files below the input root share an output path exactly when they
      sit in the same directory and have the same stem; so `a.pdf` and
      `a.docx` collide. */
  lemma OutputPathCollision(inputRoot: Path, outputRoot: Path, f: Path, g: Path)
    requires StrictlyUnder(f, inputRoot) && StrictlyUnder(g, inputRoot)
    ensures OutputPath(inputRoot, outputRoot, f) == OutputPath(inputRoot, outputRoot, g) <==>
      Parent(f) == Parent(g) && Stem(Name(f)) == Stem(Name(g))
  {
    var rf, rg := RelativeTo(f, inputRoot), RelativeTo(g, inputRoot);
    var wf, wg := WithSuffix(rf, ".md"), WithSuffix(rg, ".md");
    var of, og := outputRoot + wf, outputRoot + wg;
    assert Name(rf) == Name(f) && Name(rg) == Name(g);
    assert Parent(f) == inputRoot + Parent(rf) by {
      assert f == inputRoot + rf;
    }
    assert Parent(g) == inputRoot + Parent(rg) by {
      assert g == inputRoot + rg;
    }
    if of == og {
      assert wf == of[|outputRoot|..] == og[|outputRoot|..] == wg;
      WithSuffixSpec(rf, ".md");
      WithSuffixSpec(rg, ".md");
      assert Parent(rf) == Parent(rg);
    }
    if Parent(f) == Parent(g) && Stem(Name(f)) == Stem(Name(g)) {
      assert Parent(rf) == (inputRoot + Parent(rf))[|inputRoot|..] == Parent(rg);
      assert wf == wg;
    }
  }

  /** A concrete output path: only the final suffix changes. */
  lemma OutputPathExample(root: Path)
    ensures OutputPath(InputRoot(root), OutputRoot(root), InputRoot(root) + ["2024", "Q1.report.PDF"])
         == OutputRoot(root) + ["2024", "Q1.report.md"]
  {
    var file := InputRoot(root) + ["2024", "Q1.report.PDF"];
    var rel: Path := ["2024", "Q1.report.PDF"];
    assert RelativeTo(file, InputRoot(root)) == rel;
    SuffixOfAppended("Q1.report", ".PDF");
    assert Name(rel) == "Q1.report" + ".PDF";
    assert Stem(Name(rel)) + ".md" == "Q1.report.md";
    assert WithSuffix(rel, ".md") == ["2024", "Q1.report.md"];
  }

  /** The parser tier a file is sent to. */
  datatype Tier = Standard | Premium

  const PremiumMarker: string := "DIFFICULT"

  /** `name.upper().startswith('DIFFICULT')`. */
  predicate IsPremium(name: string) {
    StartsWith(Upper(name), PremiumMarker)
  }

  function TierFor(file: Path): Tier {
    if IsPremium(Name(file)) then Premium else Standard
  }

  /** Premium exactly when the first nine characters spell `difficult` in any
      mix of cases; nothing after them matters. */
  lemma PremiumIff(name: string)
    ensures IsPremium(name) <==>
      |name| >= 9 && forall k :: 0 <= k < 9 ==> LowerChar(name[k]) == "difficult"[k]
  {
    if |name| >= 9 {
      forall k | 0 <= k < 9
        ensures UpperChar(name[k]) == PremiumMarker[k] <==> LowerChar(name[k]) == "difficult"[k]
      {
        FoldAgrees(name[k], PremiumMarker[k]);
      }
      if IsPremium(name) {
        forall k | 0 <= k < 9 ensures UpperChar(name[k]) == PremiumMarker[k] {
          assert Upper(name)[..9][k] == PremiumMarker[k];
        }
      }
      if forall k :: 0 <= k < 9 ==> LowerChar(name[k]) == "difficult"[k] {
        assert Upper(name)[..9] == PremiumMarker;
      }
    }
  }

  /** Any case of the marker in front selects premium. */
  lemma PremiumUpperCase()
    ensures IsPremium("DIFFICULT_report.pdf")
  {
    PremiumIff("DIFFICULT_report.pdf");
  }

  lemma PremiumLowerCase()
    ensures IsPremium("difficult_x.pdf")
  {
    PremiumIff("difficult_x.pdf");
  }

  /** The marker is a prefix test: the same word later in the name, or a
      shortened marker, does not select premium. */
  lemma PremiumOnlyAsPrefix()
    ensures !IsPremium("report_DIFFICULT.pdf")
    ensures !IsPremium("DIFFICUL.pdf")
  {
    PremiumIff("report_DIFFICULT.pdf");
    assert LowerChar("report_DIFFICULT.pdf"[0]) != "difficult"[0];
    PremiumIff("DIFFICUL.pdf");
    assert LowerChar("DIFFICUL.pdf"[8]) != "difficult"[8];
  }

  /** Only the file's own name counts, not its directories. */
  lemma PremiumIgnoresDirectories(dir: Path, name: Segment)
    ensures TierFor(dir + [name]) == TierFor([name])
  {
  }

  const PageSeparator: string := "\n\n"

  /** `"\n\n".join(texts)`. */
  function JoinTexts(texts: seq<string>): string {
    if |texts| == 0 then ""
    else if |texts| == 1 then texts[0]
    else JoinTexts(texts[..|texts| - 1]) + PageSeparator + texts[|texts| - 1]
  }

  /** Joining two non-empty runs of pages is joining each and putting one
      separator between them: the pages stay in service order. */
  lemma {:induction false} JoinTextsAppend(a: seq<string>, b: seq<string>)
    requires a != [] && b != []
    ensures JoinTexts(a + b) == JoinTexts(a) + PageSeparator + JoinTexts(b)
  {
    var ab := a + b;
    if |b| == 1 {
      assert ab[..|ab| - 1] == a;
    } else {
      var binit := b[..|b| - 1];
      assert ab[..|ab| - 1] == a + binit;
      JoinTextsAppend(a, binit);
    }
  }

  /** The joined text is as long as the pages together plus two characters
      per gap between pages. */
  lemma {:induction false} JoinTextsLength(texts: seq<string>)
    requires texts != []
    ensures |JoinTexts(texts)| == TotalLength(texts) + 2 * (|texts| - 1)
  {
    if |texts| > 1 {
      JoinTextsLength(texts[..|texts| - 1]);
    }
  }

  function TotalLength(texts: seq<string>): nat {
    if texts == [] then 0 else TotalLength(texts[..|texts| - 1]) + |texts[|texts| - 1]|
  }

  /** The first page opens the joined text, and the last page closes it. */
  lemma {:induction false} JoinTextsEnds(texts: seq<string>)
    requires texts != []
    ensures StartsWith(JoinTexts(texts), texts[0])
    ensures var j := JoinTexts(texts); |texts[|texts| - 1]| <= |j| && j[|j| - |texts[|texts| - 1]|..] == texts[|texts| - 1]
  {
    if |texts| > 1 {
      var init := texts[..|texts| - 1];
      JoinTextsEnds(init);
      StartsWithExtend(JoinTexts(init), texts[0], PageSeparator + texts[|texts| - 1]);
      assert JoinTexts(texts) == JoinTexts(init) + (PageSeparator + texts[|texts| - 1]);
    }
  }

  lemma JoinTextsExample()
    ensures JoinTexts(["Page 1", "Page 2"]) == "Page 1\n\nPage 2"
    ensures JoinTexts(["only"]) == "only"
  {
    assert ["Page 1", "Page 2"][..1] == ["Page 1"];
  }
}
