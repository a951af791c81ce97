/** The filesystem as the converter sees it: which paths exist, as regular
    files with their text or as directories, and the operating-system errors
    the converter can run into. */
module Disks {
  import opened Paths

  datatype Disk = Disk(files: map<Path, string>, dirs: set<Path>)

  /** `p.exists()`: true for a regular file and for a directory. */
  predicate Exists(d: Disk, p: Path) {
    p in d.files || p in d.dirs
  }

  /** `p` and every directory above it, the root included. */
  function Ancestors(p: Path): set<Path> {
    if p == [] then {[]} else Ancestors(Parent(p)) + {p}
  }

  /** The ancestors of `p` are exactly its prefixes. */
  lemma {:induction false} AncestorsMembers(p: Path)
    ensures forall q :: q in Ancestors(p) <==> |q| <= |p| && q == p[..|q|]
  {
    if p != [] {
      AncestorsMembers(Parent(p));
      forall q ensures q in Ancestors(p) <==> |q| <= |p| && q == p[..|q|] {
        assert p[..|p|] == p;
        if |q| <= |Parent(p)| {
          assert Parent(p)[..|q|] == p[..|q|];
          assert q != p;
        }
      }
    }
  }

  /** A regular file sits strictly above `p`, so `p` cannot be reached. */
  predicate BlockedAbove(d: Disk, p: Path) {
    p != [] && (Parent(p) in d.files || BlockedAbove(d, Parent(p)))
  }

  /** That is, some proper prefix of `p` is a regular file. */
  lemma {:induction false} BlockedAboveIff(d: Disk, p: Path)
    ensures BlockedAbove(d, p) <==> exists k :: 0 <= k < |p| && p[..k] in d.files
  {
    if p != [] {
      BlockedAboveIff(d, Parent(p));
      if exists k :: 0 <= k < |p| && p[..k] in d.files {
        var k :| 0 <= k < |p| && p[..k] in d.files;
        if k < |p| - 1 {
          assert Parent(p)[..k] == p[..k];
        }
      }
      if exists k :: 0 <= k < |Parent(p)| && Parent(p)[..k] in d.files {
        var k :| 0 <= k < |Parent(p)| && Parent(p)[..k] in d.files;
        assert Parent(p)[..k] == p[..k];
      }
      assert p[..|p| - 1] == Parent(p);
    }
  }

  /** An `OSError` from the operating system, with the path it names. */
  datatype OsError = NotADirectory(path: Path) | FileExists(path: Path) | IsADirectory(path: Path)

  /** `str()` of the error, as CPython prints it on Linux: the number, the
      message and `repr()` of the path string. */
  function OsErrorText(e: OsError): string {
    match e
    case NotADirectory(p) => "[Errno 20] Not a directory: " + PyRepr(Render(p))
    case FileExists(p) => "[Errno 17] File exists: " + PyRepr(Render(p))
    case IsADirectory(p) => "[Errno 21] Is a directory: " + PyRepr(Render(p))
  }

  /** The quote `repr()` of a string uses: a double quote when the string
      holds a single quote and no double quote, a single quote otherwise. */
  function QuoteFor(s: string): char {
    if '\'' in s && '"' !in s then '"' else '\''
  }

  /** Characters `repr()` writes as `\xNN`: the C0 controls other than tab,
      newline and carriage return, DEL, the C1 controls, the no-break space
      and the soft hyphen. */
  predicate HexEscaped(c: char) {
    c as int < 0x20 || 0x7f <= c as int <= 0xa0 || c as int == 0xad
  }

  /** A character `repr()` copies as it is, whichever quote it chose. */
  predicate PlainChar(c: char) {
    !HexEscaped(c) && c != '\\' && c != '\'' && c != '"'
  }

  function HexDigit(n: int): char
    requires 0 <= n < 16
  {
    "0123456789abcdef"[n]
  }

  /** How `repr()` writes one character inside quotes `q`. */
  function ReprChar(c: char, q: char): string {
    if c == q || c == '\\' then ['\\', c]
    else if c == '\t' then "\\t"
    else if c == '\n' then "\\n"
    else if c == '\r' then "\\r"
    else if HexEscaped(c) then ['\\', 'x', HexDigit(c as int / 16), HexDigit(c as int % 16)]
    else [c]
  }

  function ReprBody(s: string, q: char): string {
    if s == [] then "" else ReprBody(s[..|s| - 1], q) + ReprChar(s[|s| - 1], q)
  }

  /** `repr()` of a string: the chosen quote, every character as `repr()`
      writes it, the quote again. */
  function PyRepr(s: string): string {
    var q := QuoteFor(s);
    [q] + ReprBody(s, q) + [q]
  }

  /** Plain characters, and the quote that was not chosen, are copied. */
  lemma {:induction false} ReprBodyCopies(s: string, q: char)
    requires q == '\'' || q == '"'
    requires forall k :: 0 <= k < |s| ==> s[k] != q && (PlainChar(s[k]) || s[k] == '\'' || s[k] == '"')
    ensures ReprBody(s, q) == s
  {
    if s != [] {
      var init, last := s[..|s| - 1], s[|s| - 1];
      ReprBodyCopies(init, q);
      ReprCharCopies(last, q);
      assert s == init + [last];
    }
  }

  lemma ReprCharCopies(c: char, q: char)
    requires q == '\'' || q == '"'
    requires c != q && (PlainChar(c) || c == '\'' || c == '"')
    ensures ReprChar(c, q) == [c]
  {
  }

  /** A string of plain characters is shown between single quotes. */
  lemma PyReprPlain(s: string)
    requires forall k :: 0 <= k < |s| ==> PlainChar(s[k])
    ensures PyRepr(s) == "'" + s + "'"
  {
    ReprBodyCopies(s, '\'');
  }

  /** A string with a single quote and no double quote, and otherwise plain,
      is shown between double quotes with its single quotes as they are. */
  lemma PyReprDoubleQuoted(s: string)
    requires '\'' in s && '"' !in s
    requires forall k :: 0 <= k < |s| ==> PlainChar(s[k]) || s[k] == '\''
    ensures PyRepr(s) == "\"" + s + "\""
  {
    ReprBodyCopies(s, '"');
  }

  /** A path of plain characters is shown between single quotes. */
  lemma OsErrorTextPlain()
    ensures OsErrorText(FileExists(["out", "a"])) == "[Errno 17] File exists: " + "'/out/a'"
  {
    assert Render(["out", "a"]) == "/out/a" by {
      assert RenderParts(["out", "a"][..1]) == "/out";
    }
    PlainRepr();
  }

  lemma PlainRepr()
    ensures PyRepr("/out/a") == "'/out/a'"
  {
    PyReprPlain("/out/a");
  }

  /** A path with an apostrophe is shown between double quotes. */
  lemma OsErrorTextApostrophe()
    ensures OsErrorText(FileExists(["Q1's"])) == "[Errno 17] File exists: " + "\"/Q1's\""
  {
    assert Render(["Q1's"]) == "/Q1's";
    ApostropheRepr();
  }

  lemma ApostropheRepr()
    ensures PyRepr("/Q1's") == "\"/Q1's\""
  {
    var t := "/Q1's";
    assert t[3] == '\'';
    PyReprDoubleQuoted(t);
  }

  /** The escapes `repr()` writes: a backslash before the chosen quote and
      before a backslash, `\t`, `\n` and `\r` for tab, newline and carriage
      return, and two hex digits for the no-break space. */
  lemma ReprEscapes(q: char)
    ensures ReprChar(q, q) == ['\\', q]
    ensures ReprChar('\\', q) == "\\\\"
    ensures q != '\t' ==> ReprChar('\t', q) == "\\t"
    ensures q != '\n' ==> ReprChar('\n', q) == "\\n"
    ensures q != '\r' ==> ReprChar('\r', q) == "\\r"
    ensures q != '\U{a0}' ==> ReprChar('\U{a0}', q) == "\\xa0"
  {
  }

  /** What `mkdir` leaves behind: the new filesystem, or the error it
      raises. */
  datatype DirsResult = Made(disk: Disk) | MkdirFailed(error: OsError)

  /** `p.mkdir(parents=True, exist_ok=True)`: `p` and all its ancestors become
      directories, unless a regular file is in the way: above `p` the first
      `os.mkdir` fails with `ENOTDIR`, and at `p` itself the `EEXIST` is
      re-raised because `p` is not a directory. Nothing is created when it
      fails. */
  function MakeDirs(d: Disk, p: Path): DirsResult {
    if BlockedAbove(d, p) then MkdirFailed(NotADirectory(p))
    else if p in d.files then MkdirFailed(FileExists(p))
    else Made(d.(dirs := d.dirs + Ancestors(p)))
  }

  /** `mkdir` succeeds exactly when no regular file lies on the way to `p`,
      `p` included. */
  lemma MakeDirsSucceedsIff(d: Disk, p: Path)
    ensures MakeDirs(d, p).Made? <==> forall k :: 0 <= k <= |p| ==> p[..k] !in d.files
  {
    BlockedAboveIff(d, p);
    assert p[..|p|] == p;
  }

  /** A successful `mkdir` touches no file, keeps whatever existed, makes `p`
      and every ancestor a directory, changes the existence of no path longer
      than `p`, and running it again changes nothing. */
  lemma MakeDirsSpec(d: Disk, p: Path)
    ensures MakeDirs(d, p).Made? ==>
      var e := MakeDirs(d, p).disk;
      && e.files == d.files
      && (forall q :: Exists(d, q) ==> Exists(e, q))
      && (forall k :: 0 <= k <= |p| ==> p[..k] in e.dirs)
      && (forall q :: |q| > |p| ==> (Exists(e, q) <==> Exists(d, q)))
      && MakeDirs(e, p) == Made(e)
  {
    if MakeDirs(d, p).Made? {
      var e := MakeDirs(d, p).disk;
      AncestorsMembers(p);
      assert e.dirs == d.dirs + Ancestors(p);
      forall k | 0 <= k <= |p| ensures p[..k] in e.dirs {
        assert |p[..k]| == k;
      }
      assert e.files == d.files;
      BlockedAboveIff(d, p);
      BlockedAboveIff(e, p);
      assert e.dirs + Ancestors(p) == e.dirs;
    }
  }

  /** What `open(p, 'w').write(text)` leaves behind. */
  datatype WriteResult = Written(disk: Disk) | WriteFailed(error: OsError)

  /** Writing replaces (or creates) the file's text, or fails when `p` is a
      directory. The converter writes only below a directory it has just
      created, so the errors `open` raises for a missing or non-directory
      parent are not modelled: this is a write below an existing directory. */
  function Write(d: Disk, p: Path, text: string): WriteResult {
    if p in d.dirs then WriteFailed(IsADirectory(p))
    else Written(d.(files := d.files[p := text]))
  }

  /** A write fails exactly on a directory; otherwise `p` now holds `text`,
      every other file and every directory is as it was. */
  lemma WriteSpec(d: Disk, p: Path, text: string)
    ensures Write(d, p, text).WriteFailed? <==> p in d.dirs
    ensures Write(d, p, text).Written? ==>
      var e := Write(d, p, text).disk;
      && p in e.files && e.files[p] == text
      && (forall q :: q != p && q in d.files ==> q in e.files && e.files[q] == d.files[q])
      && e.files.Keys == d.files.Keys + {p}
      && e.dirs == d.dirs
  {
  }

  /** `p` exists and every directory above it is a directory and not a regular
      file: from then on `mkdir` of any ancestor of `p` succeeds and no write
      can land above `p`. */
  ghost predicate Settled(d: Disk, p: Path) {
    Exists(d, p) && forall k :: 0 <= k < |p| ==> p[..k] in d.dirs && p[..k] !in d.files
  }

  /** A successful `mkdir` of any path keeps a settled path settled. */
  lemma MakeDirsKeepsSettled(d: Disk, q: Path, p: Path)
    requires Settled(d, p)
    requires MakeDirs(d, q).Made?
    ensures Settled(MakeDirs(d, q).disk, p)
  {
  }

  /** So does a successful write: it cannot target a directory, and every path
      above a settled path is one. */
  lemma WriteKeepsSettled(d: Disk, q: Path, text: string, p: Path)
    requires Settled(d, p)
    requires Write(d, q, text).Written?
    ensures Settled(Write(d, q, text).disk, p)
  {
  }
}
