/** Which member paths of an archive the validator takes for the content folder, the meta
    file, the logo and the screenshot, under the UUID-rooted and the legacy layout
    (curation_validator.py:94-130). The regular expressions of the source are written out
    as predicates; `re.match` with `^...$` is a whole-string match, except that Python's
    `$` also matches just before a newline that ends the string. */
module Layout {
  import opened PyStrings

  /** The two directory grammars: a UUID-named root folder, or any root folder name. */
  datatype Grammar = Legacy | UuidRooted

  /** The four members the validator looks for under the root folder. */
  datatype Target = ContentFolder | MetaFile | LogoFile | ScreenshotFile

  /** `[0-9a-f]`, or `[0-9a-fA-F]` under `(?i)`. */
  predicate IsHexDigit(c: char, ignoreCase: bool)
  {
    IsDigit(c) || ('a' <= c <= 'f') || (ignoreCase && 'A' <= c <= 'F')
  }

  /** Character `i` of `[0-9a-f]{8}-[0-9a-f]{4}-4[0-9a-f]{3}-[89ab][0-9a-f]{3}-[0-9a-f]{12}`:
      the string form of RFC 4122 (section 3) with the version nibble fixed to 4
      (section 4.1.3) and the variant nibble one of 8, 9, a, b (section 4.1.1). */
  predicate UuidCharOk(c: char, i: int, ignoreCase: bool)
  {
    if i == 8 || i == 13 || i == 18 || i == 23 then c == '-'
    else if i == 14 then c == '4'
    else if i == 19 then c == '8' || c == '9' || c == 'a' || c == 'b' || (ignoreCase && (c == 'A' || c == 'B'))
    else IsHexDigit(c, ignoreCase)
  }

  /** `u` is a version-4 UUID in the source's (lowercase unless `ignoreCase`) textual form. */
  predicate IsUuid4(u: string, ignoreCase: bool)
  {
    |u| == 36 && forall i :: 0 <= i < |u| ==> UuidCharOk(u[i], i, ignoreCase)
  }

  /** Under `(?i)` Python's `re` matches a pattern character against every character with the
      same simple case folding. For the pattern characters used here (lowercase ASCII letters,
      digits, dots) these are the character itself, its ASCII upper case, and for `s` also
      U+017F LATIN SMALL LETTER LONG S. */
  predicate FoldEq(c: char, p: char)
  {
    c == p
    || ('a' <= p <= 'z' && c as int == p as int - 32)
    || (p == 's' && c == '\U{17F}')
  }

  /** `s` matches the literal `p` under `(?i)`. */
  predicate FoldEquals(s: string, p: string)
  {
    |s| == |p| && forall i :: 0 <= i < |s| ==> FoldEq(s[i], p[i])
  }

  /** The root folder name: `[^/]+` in the legacy grammar, a UUID otherwise. */
  predicate RootMatches(root: string, g: Grammar, ignoreCase: bool)
  {
    match g
    case Legacy => |root| > 0 && '/' !in root
    case UuidRooted => IsUuid4(root, ignoreCase)
  }

  /** What follows the root folder's slash: `content/?`, `meta\.(yaml|yml|txt)`,
      `logo\.png` and `ss\.png`; only the last two are ever matched under `(?i)`. */
  predicate TailMatches(rest: string, t: Target, ignoreCase: bool)
  {
    match t
    case ContentFolder => rest == "content" || rest == "content/"
    case MetaFile => rest == "meta.yaml" || rest == "meta.yml" || rest == "meta.txt"
    case LogoFile => if ignoreCase then FoldEquals(rest, "logo.png") else rest == "logo.png"
    case ScreenshotFile => if ignoreCase then FoldEquals(rest, "ss.png") else rest == "ss.png"
  }

  /** Neither root pattern admits a slash, so the root is what precedes the first slash. */
  predicate BodyMatches(s: string, g: Grammar, t: Target, ignoreCase: bool)
  {
    var i := IndexOf(s, '/');
    i >= 0 && RootMatches(s[..i], g, ignoreCase) && TailMatches(s[i + 1..], t, ignoreCase)
  }

  /** `re.match("^<root>/<tail>$", s)`, with `$` accepting one final newline. */
  predicate Matches(s: string, g: Grammar, t: Target, ignoreCase: bool)
  {
    BodyMatches(s, g, t, ignoreCase)
    || (|s| > 0 && s[|s| - 1] == '\n' && BodyMatches(s[..|s| - 1], g, t, ignoreCase))
  }

  /** `re.match("^<uuid>/?$", s)`: the UUID root folder itself. */
  predicate IsUuidFolder(s: string)
  {
    UuidFolderBody(s) || (|s| > 0 && s[|s| - 1] == '\n' && UuidFolderBody(s[..|s| - 1]))
  }

  predicate UuidFolderBody(s: string)
  {
    IsUuid4(s, false) || (|s| == 37 && s[36] == '/' && IsUuid4(s[..36], false))
  }

  /** `[m for m in ms if regex.match(m) is not None]`. */
  function Matching(ms: seq<string>, g: Grammar, t: Target, ignoreCase: bool): (r: seq<string>)
    ensures |r| <= |ms|
    ensures forall x :: x in r <==> x in ms && Matches(x, g, t, ignoreCase)
  {
    if |ms| == 0 then []
    else
      var last := ms[|ms| - 1];
      assert ms == ms[..|ms| - 1] + [last];
      Matching(ms[..|ms| - 1], g, t, ignoreCase) + (if Matches(last, g, t, ignoreCase) then [last] else [])
  }

  /** The members that are a UUID root folder (curation_validator.py:95). */
  function UuidFolders(ms: seq<string>): (r: seq<string>)
    ensures |r| <= |ms|
    ensures forall x :: x in r <==> x in ms && IsUuidFolder(x)
  {
    if |ms| == 0 then []
    else
      var last := ms[|ms| - 1];
      assert ms == ms[..|ms| - 1] + [last];
      UuidFolders(ms[..|ms| - 1]) + (if IsUuidFolder(last) then [last] else [])
  }

  /** The lists the validator builds from the member paths. */
  datatype Located = Located(
    grammar: Grammar,
    content: seq<string>,
    meta: seq<string>,
    logo: seq<string>,
    logoCase: seq<string>,
    ss: seq<string>,
    ssCase: seq<string>)

  function Locate(ms: seq<string>): Located
  {
    var g := if |UuidFolders(ms)| == 0 then Legacy else UuidRooted;
    Located(g,
      Matching(ms, g, ContentFolder, false),
      Matching(ms, g, MetaFile, false),
      Matching(ms, g, LogoFile, false),
      Matching(ms, g, LogoFile, true),
      Matching(ms, g, ScreenshotFile, false),
      Matching(ms, g, ScreenshotFile, true))
  }

  /** The UUID-rooted grammar is used exactly when some member is a UUID folder. */
  lemma GrammarChoice(ms: seq<string>)
    ensures Locate(ms).grammar == UuidRooted <==> exists m :: m in ms && IsUuidFolder(m)
  {
    var u := UuidFolders(ms);
    if |u| > 0 {
      assert u[0] in u;
    }
    if exists m :: m in ms && IsUuidFolder(m) {
      var m :| m in ms && IsUuidFolder(m);
      assert m in u;
      assert |u| > 0;
    }
  }

  /** A UUID contains no slash. */
  lemma UuidHasNoSlash(u: string, ignoreCase: bool)
    requires IsUuid4(u, ignoreCase)
    ensures '/' !in u
  {
    forall i | 0 <= i < |u| ensures u[i] != '/' {
      assert UuidCharOk(u[i], i, ignoreCase);
    }
  }

  /** Every lowercase UUID is also accepted when case is ignored. */
  lemma UuidIgnoreCase(u: string)
    requires IsUuid4(u, false)
    ensures IsUuid4(u, true)
  {
    forall i | 0 <= i < |u| ensures UuidCharOk(u[i], i, true) {
      assert UuidCharOk(u[i], i, false);
    }
  }

  /** A slash after a slash-free root is the first one. */
  lemma SlashSplit(root: string, tail: string)
    requires '/' !in root
    ensures var s := root + "/" + tail;
      IndexOf(s, '/') == |root| && s[..|root|] == root && s[|root| + 1..] == tail
  {
    var s := root + "/" + tail;
    assert s[|root|] == '/';
    assert s[..|root|] == root;
    assert s[|root| + 1..] == tail;
  }

  /** The predicates accept exactly the paths the source's patterns describe: a root, a
      slash and a tail, optionally followed by one newline. */
  lemma {:induction false} ComposedPathMatches(root: string, tail: string, g: Grammar, t: Target, ignoreCase: bool)
    requires RootMatches(root, g, ignoreCase) && TailMatches(tail, t, ignoreCase)
    ensures Matches(root + "/" + tail, g, t, ignoreCase)
    ensures Matches(root + "/" + tail + "\n", g, t, ignoreCase)
  {
    if g.UuidRooted? { UuidHasNoSlash(root, ignoreCase); }
    var s := root + "/" + tail;
    SlashSplit(root, tail);
    assert BodyMatches(s, g, t, ignoreCase);
    assert (s + "\n")[..|s + "\n"| - 1] == s;
  }

  /** A path that matches `logo.png` (or `ss.png`) exactly also matches it under `(?i)`:
      the exact matches are always among the case-insensitive ones. */
  lemma ExactImpliesFolded(s: string, g: Grammar, t: Target)
    requires t == LogoFile || t == ScreenshotFile
    ensures Matches(s, g, t, false) ==> Matches(s, g, t, true)
  {
    if BodyMatches(s, g, t, false) {
      BodyExactImpliesFolded(s, g, t);
    } else if |s| > 0 && s[|s| - 1] == '\n' && BodyMatches(s[..|s| - 1], g, t, false) {
      BodyExactImpliesFolded(s[..|s| - 1], g, t);
    }
  }

  /** The same for the path without its final newline. */
  lemma BodyExactImpliesFolded(body: string, g: Grammar, t: Target)
    requires t == LogoFile || t == ScreenshotFile
    requires BodyMatches(body, g, t, false)
    ensures BodyMatches(body, g, t, true)
  {
    var i := IndexOf(body, '/');
    if g.UuidRooted? { UuidIgnoreCase(body[..i]); }
    var rest := body[i + 1..];
    var lit := if t == LogoFile then "logo.png" else "ss.png";
    assert rest == lit;
    FoldEqualsSelf(lit);
  }

  /** Under the UUID grammar a root folder with an upper-case hex digit still matches the
      case-insensitive logo pattern but not the exact one, so the validator reports an
      upper-case extension although the extension is `.png`. */
  lemma UpperCaseUuidRootOnlyFolded(root: string)
    requires IsUuid4(root, true) && !IsUuid4(root, false)
    ensures Matches(root + "/" + "logo.png", UuidRooted, LogoFile, true)
    ensures !Matches(root + "/" + "logo.png", UuidRooted, LogoFile, false)
  {
    UuidHasNoSlash(root, true);
    FoldEqualsSelf("logo.png");
    ComposedPathMatches(root, "logo.png", UuidRooted, LogoFile, true);
    RootDecidesMatch(root, "logo.png", UuidRooted, LogoFile);
  }

  /** Every literal matches itself under `(?i)`. */
  lemma FoldEqualsSelf(p: string)
    ensures FoldEquals(p, p)
  {
  }

  /** A path whose slash-free root does not match the exact root pattern, and which does
      not end in a newline, does not match the exact pattern. */
  lemma RootDecidesMatch(root: string, tail: string, g: Grammar, t: Target)
    requires '/' !in root && !RootMatches(root, g, false)
    requires |tail| > 0 && tail[|tail| - 1] != '\n'
    ensures !Matches(root + "/" + tail, g, t, false)
  {
    var s := root + "/" + tail;
    SlashSplit(root, tail);
    assert s[|s| - 1] == tail[|tail| - 1];
  }
}
