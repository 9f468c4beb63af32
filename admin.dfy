/** `Admin.find_modules_from_git` (cogs/admin.py:65-82): the files a `git pull` diffstat
    names are reduced to the Python files under `cogs/`, each paired with its submodule
    depth and dotted module name, and sorted in descending order so that deeper submodules
    are reloaded first. */
module Admin {
  import opened Common
  import opened PyStrings

  // ---------------------------------------------------------------------------------------
  // The diffstat pattern `\s*(?P<filename>.+?)\s*\|\s*[0-9]+\s*[+-]+`

  /** The number of leading ASCII digits. */
  function DigitRun(s: string): (n: nat)
    ensures n <= |s|
    ensures forall i :: 0 <= i < n ==> IsDigit(s[i])
    ensures n < |s| ==> !IsDigit(s[n])
  {
    if |s| > 0 && IsDigit(s[0]) then 1 + DigitRun(s[1..]) else 0
  }

  /** `\s*[0-9]+\s*[+-]+` matches at the start of `t` (the pattern is not anchored at the
      end, and one sign is enough). */
  predicate CountFollows(t: string)
  {
    var a := LStrip(t, Whitespace);
    var d := DigitRun(a);
    d > 0 && var b := LStrip(a[d..], Whitespace); |b| > 0 && (b[0] == '+' || b[0] == '-')
  }

  /** The file name captured from one line of output: the text before the line's first `|`,
      when the count and the signs follow it. The lazy group keeps what is left once the
      surrounding whitespace is taken by the two `\s*`, but it needs at least one character,
      so a name made only of whitespace is captured as its last character. */
  function LineCapture(line: string): (r: Option<string>)
    ensures r.Some? ==> |r.value| > 0 && '|' !in r.value
  {
    var p := IndexOf(line, '|');
    if p <= 0 || !CountFollows(line[p + 1..]) then None
    else
      var pre := line[..p];
      var name := Strip(pre);
      if name == "" then Some([pre[p - 1]])
      else
        assert forall c :: c in name ==> c in pre by {
          var i := StripCharsSlice(pre, Whitespace);
        }
        Some(name)
  }

  /** The values `f` gives, in order, dropping the `None`s. */
  function FilterMap<A, B>(xs: seq<A>, f: A -> Option<B>): (r: seq<B>)
    ensures |r| <= |xs|
  {
    if |xs| == 0 then []
    else
      var y := f(xs[|xs| - 1]);
      FilterMap(xs[..|xs| - 1], f) + (if y.Some? then [y.value] else [])
  }

  /** One more element: its value, if any, is appended. */
  lemma FilterMapStep<A, B>(xs: seq<A>, f: A -> Option<B>, n: nat)
    requires n < |xs|
    ensures FilterMap(xs[..n + 1], f) == FilterMap(xs[..n], f) + (if f(xs[n]).Some? then [f(xs[n]).value] else [])
  {
    assert xs[..n + 1][..n] == xs[..n];
  }

  /** A value is kept exactly when some element maps to it. */
  lemma {:induction false} FilterMapMembers<A, B>(xs: seq<A>, f: A -> Option<B>, y: B)
    ensures y in FilterMap(xs, f) <==> exists i :: 0 <= i < |xs| && f(xs[i]) == Some(y)
  {
    if |xs| > 0 {
      var pre := xs[..|xs| - 1];
      FilterMapMembers(pre, f, y);
      if exists i :: 0 <= i < |pre| && f(pre[i]) == Some(y) {
        var i :| 0 <= i < |pre| && f(pre[i]) == Some(y);
        assert xs[i] == pre[i];
      }
      if exists i :: 0 <= i < |xs| && f(xs[i]) == Some(y) {
        var i :| 0 <= i < |xs| && f(xs[i]) == Some(y);
        if i < |pre| {
          assert pre[i] == xs[i];
        }
      }
    }
  }

  /** `self._GIT_PULL_REGEX.findall(output)`, taken line by line. */
  function Captures(output: string): seq<string>
  {
    FilterMap(Split(output, '\n'), LineCapture)
  }

  /** Digits and signs are not whitespace. */
  lemma NotWhitespace(c: char)
    requires IsDigit(c) || c == '+' || c == '-'
    ensures c !in Whitespace
  {
  }

  /** A name without whitespace at its ends, padded with one space each side, strips back
      to itself. */
  lemma PaddedStrip(name: string)
    requires |name| > 0 && name[0] !in Whitespace && name[|name| - 1] !in Whitespace
    ensures Strip(" " + name + " ") == name
  {
    var pre := " " + name + " ";
    assert pre[1..] == name + " ";
    assert (name + " ")[0] == name[0];
    assert LStrip(name + " ", Whitespace) == name + " ";
    assert LStrip(pre, Whitespace) == name + " ";
    assert (name + " ")[..|name|] == name;
    assert RStrip(name + " ", Whitespace) == RStrip(name, Whitespace);
    assert RStrip(name, Whitespace) == name;
  }

  /** ` n ++--` is a count followed by signs. */
  lemma CountAndSignsFollow(n: nat, signs: string)
    requires |signs| > 0 && forall i :: 0 <= i < |signs| ==> signs[i] == '+' || signs[i] == '-'
    ensures CountFollows(" " + NatToDecimal(n) + " " + signs)
  {
    var digits := NatToDecimal(n);
    var tail := " " + digits + " " + signs;
    NotWhitespace(digits[0]);
    assert tail[1..] == digits + " " + signs;
    assert (digits + " " + signs)[0] == digits[0];
    assert LStrip(tail, Whitespace) == digits + " " + signs;
    DigitRunPrefix(digits, " " + signs);
    var a := digits + " " + signs;
    assert a[|digits|..] == " " + signs;
    assert (" " + signs)[1..] == signs;
    NotWhitespace(signs[0]);
    assert LStrip(" " + signs, Whitespace) == signs;
  }

  /** A diffstat line as git prints it, ` name | n ++--`, yields exactly its file name. */
  lemma DiffstatLineCaptured(name: string, n: nat, signs: string)
    requires |name| > 0 && '|' !in name
    requires name[0] !in Whitespace && name[|name| - 1] !in Whitespace
    requires |signs| > 0 && forall i :: 0 <= i < |signs| ==> signs[i] == '+' || signs[i] == '-'
    ensures LineCapture((" " + name + " ") + "|" + (" " + NatToDecimal(n) + " " + signs)) == Some(name)
  {
    PaddedStrip(name);
    CountAndSignsFollow(n, signs);
    CaptureBeforeBar(" " + name + " ", " " + NatToDecimal(n) + " " + signs);
  }

  /** A line `pre|tail` whose `pre` has no bar and some non-whitespace, and whose `tail`
      holds the count and the signs, captures `pre` stripped. */
  lemma CaptureBeforeBar(pre: string, tail: string)
    requires '|' !in pre && Strip(pre) != "" && CountFollows(tail)
    ensures LineCapture(pre + "|" + tail) == Some(Strip(pre))
  {
    var line := pre + "|" + tail;
    var p := |pre|;
    IndexOfAfter(pre, '|', tail);
    assert line[..p] == pre;
    assert line[p + 1..] == tail;
  }

  /** The digit run of a digit string followed by a non-digit is that string. */
  lemma {:induction false} DigitRunPrefix(digits: string, rest: string)
    requires forall i :: 0 <= i < |digits| ==> IsDigit(digits[i])
    requires |rest| > 0 && !IsDigit(rest[0])
    ensures DigitRun(digits + rest) == |digits|
  {
    if |digits| > 0 {
      DigitRunPrefix(digits[1..], rest);
      assert (digits + rest)[1..] == digits[1..] + rest;
    }
  }

  /** A line without `|` captures nothing. */
  lemma NoBarNoCapture(line: string)
    requires '|' !in line
    ensures LineCapture(line) == None
  {
  }

  // ---------------------------------------------------------------------------------------
  // os.path.splitext

  /** `os.path.splitext(p)`: the extension is the last `.` of the last path component and
      what follows it, unless the component has only dots before it (`.bashrc`). */
  function SplitExt(p: string): (r: (string, string))
    ensures r.0 + r.1 == p
    ensures r.1 == "" || (r.1[0] == '.' && '/' !in r.1 && '.' !in r.1[1..])
    ensures r.1 != "" ==>
      |r.0| == LastIndexOf(p, '.') && exists k :: LastIndexOf(p, '/') < k < |r.0| && p[k] != '.'
  {
    var sep := LastIndexOf(p, '/');
    var dot := LastIndexOf(p, '.');
    if dot > sep && exists k | sep + 1 <= k < dot :: p[k] != '.' then
      assert forall i :: 0 <= i < |p[dot..]| ==> p[dot..][i] == p[dot + i];
      (p[..dot], p[dot..])
    else (p, "")
  }

  /** A path `root + ".py"` whose last component has a character other than a dot before
      the extension splits into `root` and `.py`. */
  lemma SplitPyFile(root: string)
    requires LastIndexOf(root, '/') + 1 < |root| && root[|root| - 1] != '.'
    ensures SplitExt(root + ".py") == (root, ".py")
  {
    var p := root + ".py";
    LastIndexOfConcat(root, ".py", '/');
    LastIndexOfConcat(root, ".py", '.');
    assert LastIndexOf(".py", '.') == 0;
    SplitExtAt(p, |root| - 1);
    assert p[..|root|] == root;
    assert p[|root|..] == ".py";
  }

  /** Where the last `c` of `a + b` is. */
  lemma {:induction false} LastIndexOfConcat(a: string, b: string, c: char)
    ensures LastIndexOf(a + b, c) == if c in b then |a| + LastIndexOf(b, c) else LastIndexOf(a, c)
    decreases |b|
  {
    if |b| == 0 {
      assert a + b == a;
    } else {
      var b' := b[..|b| - 1];
      assert (a + b)[..|a + b| - 1] == a + b';
      LastIndexOfConcat(a, b', c);
      assert c in b <==> c in b' || b[|b| - 1] == c;
    }
  }

  /** `splitext` cuts at the last dot when a character other than a dot (at `k`) lies
      between the last slash and it. */
  lemma SplitExtAt(p: string, k: int)
    requires LastIndexOf(p, '/') < k < LastIndexOf(p, '.') && p[k] != '.'
    ensures SplitExt(p) == (p[..LastIndexOf(p, '.')], p[LastIndexOf(p, '.')..])
  {
  }

  /** Leading dots of the last component stay in the root: `cogs/.py` has no extension,
      so it is not taken for a module. */
  lemma HiddenPyFileIsNoModule()
    ensures SplitExt("cogs/.py") == ("cogs/.py", "")
    ensures ModuleOf("cogs/.py") == None
  {
    var p := "cogs/.py";
    LastIndexOfConcat("cogs", "/.py", '/');
    LastIndexOfConcat("cogs/", ".py", '.');
    assert "cogs" + "/.py" == p && "cogs/" + ".py" == p;
    assert LastIndexOf(p, '/') == 4 && LastIndexOf(p, '.') == 5;
  }

  // ---------------------------------------------------------------------------------------
  // Modules

  /** A module to reload: its depth below `cogs` and its dotted name. */
  type ModuleEntry = (int, string)

  /** The module for one captured file: Python files under `cogs/` only. */
  function ModuleOf(file: string): (r: Option<ModuleEntry>)
    ensures r.Some? ==> SplitExt(file).1 == ".py" && StartsWith(SplitExt(file).0, "cogs/")
  {
    var (root, ext) := SplitExt(file);
    if ext != ".py" || !StartsWith(root, "cogs/") then None
    else Some((CountChar(root, '/') - 1, ReplaceChar(root, '/', '.')))
  }

  /** The entry in terms of the split the loop computes. */
  lemma ModuleOfSplit(file: string, root: string, ext: string)
    requires (root, ext) == SplitExt(file)
    ensures ext != ".py" ==> ModuleOf(file) == None
    ensures ext == ".py" && !StartsWith(root, "cogs/") ==> ModuleOf(file) == None
    ensures ext == ".py" && StartsWith(root, "cogs/") ==>
      ModuleOf(file) == Some((CountChar(root, '/') - 1, ReplaceChar(root, '/', '.')))
  {
  }

  /** A character that occurs is counted. */
  lemma {:induction false} CountCharAt(s: string, c: char, i: nat)
    requires i < |s| && s[i] == c
    ensures CountChar(s, c) >= 1
  {
    if i < |s| - 1 {
      CountCharAt(s[..|s| - 1], c, i);
    }
  }

  /** A module's depth is never negative, its name has no slash and starts with `cogs.`,
      and the file is its root with the `.py` extension. */
  lemma ModuleOfShape(file: string)
    requires ModuleOf(file).Some?
    ensures var m := ModuleOf(file).value;
      m.0 >= 0 && '/' !in m.1 && StartsWith(m.1, "cogs.") && file == SplitExt(file).0 + ".py"
      && |m.1| == |SplitExt(file).0|
  {
    var root := SplitExt(file).0;
    assert root[4] == '/';
    CountCharAt(root, '/', 4);
    var name := ReplaceChar(root, '/', '.');
    assert name[..5] == "cogs.";
    assert forall i :: 0 <= i < |name| ==> name[i] != '/';
  }

  /** The loop's result before sorting: one entry per kept capture, in capture order. */
  function Modules(files: seq<string>): seq<ModuleEntry>
  {
    FilterMap(files, ModuleOf)
  }

  // ---------------------------------------------------------------------------------------
  // Descending order on (depth, name)

  /** Python's `a < b` on strings: lexicographic by code point, a proper prefix first. */
  predicate StrLess(a: string, b: string)
  {
    if |a| == 0 then |b| > 0
    else if |b| == 0 then false
    else if a[0] != b[0] then a[0] < b[0]
    else StrLess(a[1..], b[1..])
  }

  lemma {:induction false} StrLessIrreflexive(a: string)
    ensures !StrLess(a, a)
  {
    if |a| > 0 {
      StrLessIrreflexive(a[1..]);
    }
  }

  lemma {:induction false} StrLessTransitive(a: string, b: string, c: string)
    requires StrLess(a, b) && StrLess(b, c)
    ensures StrLess(a, c)
  {
    if |a| > 0 && |b| > 0 && |c| > 0 && a[0] == b[0] && b[0] == c[0] {
      StrLessTransitive(a[1..], b[1..], c[1..]);
    }
  }

  lemma {:induction false} StrLessTotal(a: string, b: string)
    requires a != b
    ensures StrLess(a, b) || StrLess(b, a)
  {
    if |a| > 0 && |b| > 0 && a[0] == b[0] {
      assert a == [a[0]] + a[1..] && b == [b[0]] + b[1..];
      StrLessTotal(a[1..], b[1..]);
    }
  }

  /** Python's tuple order on `(depth, name)`. */
  predicate Less(x: ModuleEntry, y: ModuleEntry)
  {
    x.0 < y.0 || (x.0 == y.0 && StrLess(x.1, y.1))
  }

  /** `x >= y` in that order. */
  predicate AtLeast(x: ModuleEntry, y: ModuleEntry)
  {
    !Less(x, y)
  }

  /** The order is total, so `>=` is transitive and antisymmetric. */
  lemma AtLeastTransitive(x: ModuleEntry, y: ModuleEntry, z: ModuleEntry)
    requires AtLeast(x, y) && AtLeast(y, z)
    ensures AtLeast(x, z)
  {
    if x.0 == z.0 && StrLess(x.1, z.1) {
      if y.0 == x.0 {
        if x.1 != y.1 { StrLessTotal(x.1, y.1); }
        if y.1 != z.1 { StrLessTotal(y.1, z.1); }
        if y.1 == z.1 {
        } else {
          StrLessTransitive(z.1, y.1, x.1);
          StrLessTransitive(x.1, z.1, x.1);
          StrLessIrreflexive(x.1);
        }
      }
    }
  }

  lemma AtLeastTotal(x: ModuleEntry, y: ModuleEntry)
    ensures AtLeast(x, y) || AtLeast(y, x)
    ensures AtLeast(x, y) && AtLeast(y, x) ==> x == y
  {
    if x.0 == y.0 && StrLess(x.1, y.1) && StrLess(y.1, x.1) {
      StrLessTransitive(x.1, y.1, x.1);
      StrLessIrreflexive(x.1);
    }
    if x.0 == y.0 && x.1 != y.1 {
      StrLessTotal(x.1, y.1);
    }
  }

  /** Sorted by `reverse=True`: each entry is at least every later one. */
  predicate SortedDescending(s: seq<ModuleEntry>)
  {
    forall i, j :: 0 <= i < j < |s| ==> AtLeast(s[i], s[j])
  }

  /** Inserting into a descending list before the first entry that `x` is at least. */
  function Insert(x: ModuleEntry, s: seq<ModuleEntry>): (r: seq<ModuleEntry>)
    ensures multiset(r) == multiset(s) + multiset{x}
    ensures |r| == |s| + 1
  {
    if |s| == 0 then [x]
    else if AtLeast(x, s[0]) then [x] + s
    else
      assert s == [s[0]] + s[1..];
      [s[0]] + Insert(x, s[1..])
  }

  /** The members of the insertion: the new entry and the old ones. */
  lemma {:induction false} InsertMembers(x: ModuleEntry, s: seq<ModuleEntry>, e: ModuleEntry)
    ensures e in Insert(x, s) <==> e == x || e in s
  {
    if |s| > 0 && !AtLeast(x, s[0]) {
      InsertMembers(x, s[1..], e);
      assert s == [s[0]] + s[1..];
    }
  }

  lemma {:induction false} InsertSorted(x: ModuleEntry, s: seq<ModuleEntry>)
    requires SortedDescending(s)
    ensures SortedDescending(Insert(x, s))
  {
    if |s| == 0 {
    } else if AtLeast(x, s[0]) {
      var r := [x] + s;
      forall i, j | 0 <= i < j < |r| ensures AtLeast(r[i], r[j]) {
        if i == 0 {
          if j > 1 {
            AtLeastTransitive(x, s[0], s[j - 1]);
          }
        } else {
          assert r[i] == s[i - 1] && r[j] == s[j - 1];
        }
      }
    } else {
      var tail := s[1..];
      InsertSorted(x, tail);
      var ins := Insert(x, tail);
      var r := [s[0]] + ins;
      AtLeastTotal(x, s[0]);
      forall i, j | 0 <= i < j < |r| ensures AtLeast(r[i], r[j]) {
        if i == 0 {
          var e := ins[j - 1];
          InsertMembers(x, tail, e);
          if e != x {
            var k :| 0 <= k < |tail| && tail[k] == e;
            assert s[k + 1] == e;
          }
        } else {
          assert r[i] == ins[i - 1] && r[j] == ins[j - 1];
        }
      }
    }
  }

  /** `list.sort(reverse=True)`, as insertion sort. Equal entries are equal values, so the
      stability of Python's sort does not show in the result. */
  function SortDescending(s: seq<ModuleEntry>): (r: seq<ModuleEntry>)
    ensures multiset(r) == multiset(s)
    ensures |r| == |s|
  {
    if |s| == 0 then []
    else
      assert s == [s[0]] + s[1..];
      Insert(s[0], SortDescending(s[1..]))
  }

  lemma {:induction false} SortDescendingSorted(s: seq<ModuleEntry>)
    ensures SortedDescending(SortDescending(s))
  {
    if |s| > 0 {
      SortDescendingSorted(s[1..]);
      InsertSorted(s[0], SortDescending(s[1..]));
    }
  }

  /** Deeper submodules come first: depths never increase along a sorted list. */
  lemma SortedDeeperFirst(s: seq<ModuleEntry>, i: int, j: int)
    requires SortedDescending(s) && 0 <= i < j < |s|
    ensures s[i].0 >= s[j].0
  {
  }

  /** The head of a descending list is at least each of its entries. */
  lemma HeadIsGreatest(s: seq<ModuleEntry>, x: ModuleEntry)
    requires SortedDescending(s) && x in s
    ensures AtLeast(s[0], x)
  {
    var k :| 0 <= k < |s| && s[k] == x;
    if k == 0 {
      AtLeastTotal(x, x);
    }
  }

  /** The tail of a descending list is descending. */
  lemma TailSorted(s: seq<ModuleEntry>)
    requires SortedDescending(s) && |s| > 0
    ensures SortedDescending(s[1..])
  {
    forall i, j | 0 <= i < j < |s| - 1 ensures AtLeast(s[1..][i], s[1..][j]) {
      assert s[1..][i] == s[i + 1] && s[1..][j] == s[j + 1];
    }
  }

  /** Two descending orderings of the same entries start with the same entry. */
  lemma SortedHeadsEqual(a: seq<ModuleEntry>, b: seq<ModuleEntry>)
    requires SortedDescending(a) && SortedDescending(b) && multiset(a) == multiset(b)
    requires |a| > 0 && |b| > 0
    ensures a[0] == b[0]
  {
    assert a[0] in multiset(b) && b[0] in multiset(a);
    HeadIsGreatest(b, a[0]);
    HeadIsGreatest(a, b[0]);
    AtLeastTotal(a[0], b[0]);
  }

  /** Dropping the head removes one occurrence of it. */
  lemma MultisetTail(a: seq<ModuleEntry>)
    requires |a| > 0
    ensures multiset(a[1..]) == multiset(a) - multiset{a[0]}
  {
    assert a == [a[0]] + a[1..];
  }

  /** Two descending lists with the same entries are the same list: the sort's result is
      determined by the entries alone. */
  lemma {:induction false} SortedUnique(a: seq<ModuleEntry>, b: seq<ModuleEntry>)
    requires SortedDescending(a) && SortedDescending(b) && multiset(a) == multiset(b)
    ensures a == b
  {
    if |a| > 0 && |b| > 0 {
      SortedHeadsEqual(a, b);
      MultisetTail(a);
      MultisetTail(b);
      TailSorted(a);
      TailSorted(b);
      SortedUnique(a[1..], b[1..]);
      assert a == [a[0]] + a[1..] && b == [b[0]] + b[1..];
    }
  }

  // ---------------------------------------------------------------------------------------
  // find_modules_from_git

  /** The loop over the captures (cogs/admin.py:69-78). Proved against `Modules`. */
  method CollectModules(files: seq<string>) returns (ret: seq<ModuleEntry>)
    ensures ret == Modules(files)
  {
    ret := [];
    var i := 0;
    while i < |files|
      invariant 0 <= i <= |files|
      invariant ret == FilterMap(files[..i], ModuleOf)
    {
      FilterMapStep(files, ModuleOf, i);
      var entry := ModuleFor(files[i]);
      if entry.Some? {
        ret := ret + [entry.value];
      }
      i := i + 1;
    }
    assert files[..|files|] == files;
  }

  /** The body of the loop for one file (cogs/admin.py:71-78): skipped unless it is a
      Python file under `cogs/`. */
  method ModuleFor(file: string) returns (entry: Option<ModuleEntry>)
    ensures entry == ModuleOf(file)
  {
    var (root, ext) := SplitExt(file);
    ModuleOfSplit(file, root, ext);
    if ext != ".py" {
      return None;
    }
    if StartsWith(root, "cogs/") {
      return Some((CountChar(root, '/') - 1, ReplaceChar(root, '/', '.')));
    }
    return None;
  }

  /** An entry is among the modules exactly when some file yields it. */
  lemma ModulesMembers(files: seq<string>, e: ModuleEntry)
    ensures e in Modules(files) <==> exists f :: f in files && ModuleOf(f) == Some(e)
  {
    FilterMapMembers(files, ModuleOf, e);
    if exists f :: f in files && ModuleOf(f) == Some(e) {
      var f :| f in files && ModuleOf(f) == Some(e);
      var k :| 0 <= k < |files| && files[k] == f;
    }
  }

  /** `find_modules_from_git`: the loop, then `ret.sort(reverse=True)`. The result holds
      exactly the modules of the kept captures, each as often as it was captured, deepest
      first. */
  method FindModulesFromGit(output: string) returns (ret: seq<ModuleEntry>)
    ensures SortedDescending(ret)
    ensures multiset(ret) == multiset(Modules(Captures(output)))
    ensures |ret| <= |Captures(output)|
    ensures forall e :: e in ret <==> exists f :: f in Captures(output) && ModuleOf(f) == Some(e)
  {
    var files := Captures(output);
    ret := CollectModules(files);
    ghost var unsorted := ret;
    ret := SortDescending(ret);
    SortDescendingSorted(unsorted);
    forall e ensures e in ret <==> exists f :: f in files && ModuleOf(f) == Some(e) {
      assert e in ret <==> e in multiset(unsorted);
      ModulesMembers(files, e);
    }
  }
}
