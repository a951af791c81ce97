/** The part of `pathlib` the converter uses, on absolute POSIX paths:
    `name`, `parent`, `suffix`, `stem`, `with_suffix`, `relative_to` and the
    `/` operator, and `str()` of a path. Suffix and stem follow pathlib as of
    Python 3.12: the suffix starts at the last dot of the final component,
    provided that dot is neither its first nor its last character. */
module Paths {

  /** A path component: pathlib never stores an empty one. */
  type Segment = s: string | s != "" witness "_"

  /** An absolute path, as its components below the root `/`. */
  type Path = seq<Segment>

  /** `p.name`; the root has the empty name. */
  function Name(p: Path): string {
    if p == [] then "" else p[|p| - 1]
  }

  /** `p.parent`; the root is its own parent. */
  function Parent(p: Path): Path {
    if p == [] then [] else p[..|p| - 1]
  }

  /** `s.rfind('.')`: the index of the last dot, or -1 when there is none. */
  function LastDot(s: string): (i: int)
    ensures -1 <= i < |s|
    ensures 0 <= i ==> s[i] == '.'
    ensures forall k :: i < k < |s| ==> s[k] != '.'
  {
    if s == [] then -1
    else if s[|s| - 1] == '.' then |s| - 1
    else LastDot(s[..|s| - 1])
  }

  /** The last dot of `name` starts a suffix. */
  predicate HasSuffix(name: string) {
    0 < LastDot(name) < |name| - 1
  }

  /** `PurePath(name).suffix`. */
  function Suffix(name: string): string {
    if HasSuffix(name) then name[LastDot(name)..] else ""
  }

  /** `PurePath(name).stem`. */
  function Stem(name: string): string {
    if HasSuffix(name) then name[..LastDot(name)] else name
  }

  /** Stem and suffix split a name, and a non-empty name has a non-empty
      stem. */
  lemma StemSuffixSplit(name: string)
    ensures Stem(name) + Suffix(name) == name
    ensures name != "" ==> Stem(name) != ""
  {
  }

  /** A non-empty suffix is a dot followed by at least one character, none of
      them a dot, and it never takes the whole name. */
  lemma SuffixShape(name: string)
    requires Suffix(name) != ""
    ensures |Suffix(name)| >= 2 && Suffix(name)[0] == '.'
    ensures forall k :: 1 <= k < |Suffix(name)| ==> Suffix(name)[k] != '.'
    ensures |Stem(name)| >= 1
  {
  }

  /** Conversely, appending `ext` (a dot and at least one further character,
      none of them a dot) to a non-empty stem makes `ext` the suffix and keeps
      the stem. */
  lemma SuffixOfAppended(stem: string, ext: string)
    requires stem != ""
    requires |ext| >= 2 && ext[0] == '.'
    requires forall k :: 1 <= k < |ext| ==> ext[k] != '.'
    ensures Suffix(stem + ext) == ext
    ensures Stem(stem + ext) == stem
  {
    var name := stem + ext;
    assert LastDot(name) == |stem| by {
      LastDotAt(name, |stem|);
    }
    assert name[|stem|..] == ext;
    assert name[..|stem|] == stem;
  }

  /** `LastDot` finds a dot after which no dot follows. */
  lemma {:induction false} LastDotAt(s: string, i: nat)
    requires i < |s| && s[i] == '.'
    requires forall k :: i < k < |s| ==> s[k] != '.'
    ensures LastDot(s) == i
  {
    if i < |s| - 1 {
      LastDotAt(s[..|s| - 1], i);
    }
  }

  /** A suffix `with_suffix` accepts: empty, or a dot followed by at least one
      character, with no separator in it. */
  predicate ValidSuffix(suffix: string) {
    suffix == "" || (suffix[0] == '.' && suffix != "." && forall k :: 0 <= k < |suffix| ==> suffix[k] != '/')
  }

  /** `p.with_suffix(suffix)`: replace the final suffix of the name (or append
      when there is none). pathlib raises ValueError on an empty name, so the
      root is excluded. */
  function WithSuffix(p: Path, suffix: string): (r: Path)
    requires p != []
    requires ValidSuffix(suffix)
    ensures |r| == |p| && Parent(r) == Parent(p)
  {
    StemSuffixSplit(Name(p));
    Parent(p) + [Stem(Name(p)) + suffix]
  }

  /** `with_suffix` keeps the directories and the stem and installs the new
      suffix, which the result then reports back. */
  lemma WithSuffixSpec(p: Path, suffix: string)
    requires p != []
    requires ValidSuffix(suffix) && suffix != ""
    requires forall k :: 1 <= k < |suffix| ==> suffix[k] != '.'
    ensures var r := WithSuffix(p, suffix);
      && (forall k :: 0 <= k < |p| - 1 ==> r[k] == p[k])
      && Name(r) == Stem(Name(p)) + suffix
      && Suffix(Name(r)) == suffix
      && Stem(Name(r)) == Stem(Name(p))
  {
    var r := WithSuffix(p, suffix);
    StemSuffixSplit(Name(p));
    assert Name(r) == Stem(Name(p)) + suffix;
    SuffixOfAppended(Stem(Name(p)), suffix);
  }

  /** `p` lies strictly below `root`. */
  predicate StrictlyUnder(p: Path, root: Path) {
    |root| < |p| && p[..|root|] == root
  }

  /** `p.relative_to(root)` for a path strictly below `root`. */
  function RelativeTo(p: Path, root: Path): (r: Path)
    requires StrictlyUnder(p, root)
    ensures r != [] && root + r == p
  {
    p[|root|..]
  }

  /** `str(p)`: the root is `/`, every other path is each component preceded
      by a `/`. */
  function Render(p: Path): string {
    if p == [] then "/" else RenderParts(p)
  }

  function RenderParts(p: Path): string {
    if p == [] then "" else RenderParts(p[..|p| - 1]) + "/" + p[|p| - 1]
  }

  /** `str(p)` is an absolute path string: it starts with `/`. */
  lemma RenderIsAbsolute(p: Path)
    ensures |Render(p)| >= 1 && Render(p)[0] == '/'
  {
    if p != [] {
      RenderPartsIsAbsolute(p);
    }
  }

  lemma {:induction false} RenderPartsIsAbsolute(p: Path)
    requires p != []
    ensures |RenderParts(p)| >= 1 && RenderParts(p)[0] == '/'
  {
    if |p| > 1 {
      RenderPartsIsAbsolute(p[..|p| - 1]);
    }
  }

  /** A character that occurs in no component and is not `/` does not occur in
      `str(p)`. */
  lemma RenderAvoids(p: Path, c: char)
    requires c != '/'
    requires forall i, k :: 0 <= i < |p| && 0 <= k < |p[i]| ==> p[i][k] != c
    ensures forall k :: 0 <= k < |Render(p)| ==> Render(p)[k] != c
  {
    RenderPartsAvoids(p, c);
  }

  lemma {:induction false} RenderPartsAvoids(p: Path, c: char)
    requires c != '/'
    requires forall i, k :: 0 <= i < |p| && 0 <= k < |p[i]| ==> p[i][k] != c
    ensures forall k :: 0 <= k < |RenderParts(p)| ==> RenderParts(p)[k] != c
  {
    if p != [] {
      var init, last := p[..|p| - 1], p[|p| - 1];
      RenderPartsAvoids(init, c);
      assert forall k :: 0 <= k < |last| ==> last[k] != c;
      var r := RenderParts(init) + "/" + last;
      assert RenderParts(p) == r;
      forall k | 0 <= k < |r| ensures r[k] != c {
        if k < |RenderParts(init)| {
          assert r[k] == RenderParts(init)[k];
        } else if k > |RenderParts(init)| {
          assert r[k] == last[k - |RenderParts(init)| - 1];
        }
      }
    }
  }

  /** `str(p)` of a non-root path ends with `/` and the path's name. */
  lemma RenderEndsWithName(p: Path)
    requires p != []
    ensures |Render(p)| > |Name(p)|
    ensures Render(p)[|Render(p)| - |Name(p)| - 1..] == "/" + Name(p)
  {
    var r := RenderParts(p[..|p| - 1]) + "/" + p[|p| - 1];
    assert Render(p) == r;
    assert r[|r| - |Name(p)| - 1..] == "/" + Name(p);
  }
}
