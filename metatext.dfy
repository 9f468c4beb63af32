/** The parser for legacy `meta.txt` curation meta files (curation_validator.py:201-207 and
    415-445). A text-mode file hands its lines over with their line terminators; for
    `Key: Value` lines only spaces are stripped, so values keep their final newline. */
module MetaText {
  import opened Common
  import opened PyStrings

  /** The meta properties a `.txt` file yields: every key and value is a string. */
  type Props = map<string, string>

  const Space: set<char> := {' '}
  const SpaceTab: set<char> := {' ', '\t'}

  // ---------------------------------------------------------------------------------------
  // parse_lines_until_multiline

  /** A line that is read as `Key: Value`: it has no `|` and is not blank. */
  predicate IsSimpleLine(line: string)
  {
    '|' !in line && Strip(line) != ""
  }

  /** The entry one simple line adds: the first two parts of `line.split(":")`, each
      stripped of spaces. A line without a colon has no second part and the parse raises
      (an engine fault). */
  function SimpleEntry(line: string): (r: Result<(string, string)>)
    ensures r.Fault? <==> ':' !in line
  {
    var parts := Split(line, ':');
    SplitFirst(line, ':');
    if |parts| < 2 then Fault else Ok((StripChars(parts[0], Space), StripChars(parts[1], Space)))
  }

  /** The key is the text before the first colon and the value the text between the first
      and the second colon (or the end of the line), each stripped of spaces. */
  lemma SimpleEntryFields(line: string)
    requires ':' in line
    ensures SimpleEntry(line).Ok?
    ensures SimpleEntry(line).value.0 == StripChars(FirstField(line, ':'), Space)
    ensures SimpleEntry(line).value.1 == StripChars(FirstField(line[IndexOf(line, ':') + 1..], ':'), Space)
  {
    var parts := Split(line, ':');
    SplitFirst(line, ':');
    var tail := line[IndexOf(line, ':') + 1..];
    SplitFirst(tail, ':');
    assert parts[1] == Split(tail, ':')[0] by { assert parts[1] == parts[1..][0]; }
  }

  /** The index of the first line of `rest`, from `from` on, that is not simple (`|rest|` if
      there is none). */
  function SimpleRun(rest: seq<string>, from: nat): (end: nat)
    requires from <= |rest|
    ensures from <= end <= |rest|
    ensures forall i :: from <= i < end ==> IsSimpleLine(rest[i])
    ensures end < |rest| ==> !IsSimpleLine(rest[end])
    decreases |rest| - from
  {
    if from == |rest| || !IsSimpleLine(rest[from]) then from else SimpleRun(rest, from + 1)
  }

  /** `d.update({key: value})` for the first `n` lines of `rest`, in order. */
  function ApplyEntries(d: Props, rest: seq<string>, n: nat): Result<Props>
    requires n <= |rest|
  {
    if n == 0 then Ok(d)
    else
      match ApplyEntries(d, rest, n - 1)
      case Fault => Fault
      case Ok(m) =>
        match SimpleEntry(rest[n - 1])
        case Fault => Fault
        case Ok(kv) => Ok(m[kv.0 := kv.1])
  }

  /** What `parse_lines_until_multiline(lines, d, start)` returns: `d` updated with the
      entries of the simple lines that open `lines[start:]`, and the index of the first other
      line, counted from `start` (-1 when every line is simple). */
  function SimpleLines(lines: seq<string>, d: Props, start: int): Result<(Props, int)>
  {
    var rest := SliceFrom(lines, start);
    var end := SimpleRun(rest, 0);
    match ApplyEntries(d, rest, end)
    case Fault => Fault
    case Ok(m) => Ok((m, if end == |rest| then -1 else end))
  }

  /** One more line: its entry is added, or the parse faults. */
  lemma ApplyEntriesStep(d: Props, rest: seq<string>, n: nat, m: Props)
    requires n < |rest| && ApplyEntries(d, rest, n) == Ok(m)
    ensures var parts := Split(rest[n], ':');
      ApplyEntries(d, rest, n + 1)
      == if |parts| < 2 then Fault else Ok(m[StripChars(parts[0], Space) := StripChars(parts[1], Space)])
  {
    SplitFirst(rest[n], ':');
  }

  /** curation_validator.py:415-425, proved against `SimpleLines`. */
  method ParseLinesUntilMultiline(lines: seq<string>, d: Props, start: int) returns (r: Result<(Props, int)>)
    ensures r == SimpleLines(lines, d, start)
  {
    var rest := SliceFrom(lines, start);
    ghost var end := SimpleRun(rest, 0);
    var props := d;
    var idx := 0;
    while idx < |rest|
      invariant 0 <= idx <= |rest|
      invariant forall i :: 0 <= i < idx ==> IsSimpleLine(rest[i])
      invariant ApplyEntries(d, rest, idx) == Ok(props)
    {
      var line := rest[idx];
      if IsSimpleLine(line) {
        var split := Split(line, ':');
        ApplyEntriesStep(d, rest, idx, props);
        if |split| < 2 {
          assert idx < end;
          ApplyEntriesFaultStays(d, rest, idx + 1, end);
          return Fault;
        }
        props := props[StripChars(split[0], Space) := StripChars(split[1], Space)];
      } else {
        assert end == idx;
        return Ok((props, idx));
      }
      idx := idx + 1;
    }
    assert end == |rest|;
    return Ok((props, -1));
  }

  /** Once a line has faulted, the later lines do not undo it. */
  lemma {:induction false} ApplyEntriesFaultStays(d: Props, rest: seq<string>, n: nat, m: nat)
    requires n <= m <= |rest|
    requires ApplyEntries(d, rest, n).Fault?
    ensures ApplyEntries(d, rest, m).Fault?
    decreases m
  {
    if m > n {
      ApplyEntriesFaultStays(d, rest, n, m - 1);
    }
  }

  /** The entries fault exactly when one of the lines has no colon. */
  lemma {:induction false} ApplyEntriesFault(d: Props, rest: seq<string>, n: nat)
    requires n <= |rest|
    ensures ApplyEntries(d, rest, n).Fault? <==> exists i :: 0 <= i < n && ':' !in rest[i]
  {
    if n > 0 {
      ApplyEntriesFault(d, rest, n - 1);
    }
  }

  /** The key a line with a colon contributes. */
  function EntryKey(line: string): string
  {
    StripChars(Split(line, ':')[0], Space)
  }

  /** The keys of a successful parse are the caller's keys plus one key per line. */
  lemma {:induction false} ApplyEntriesKeys(d: Props, rest: seq<string>, n: nat)
    requires n <= |rest| && ApplyEntries(d, rest, n).Ok?
    ensures ApplyEntries(d, rest, n).value.Keys == d.Keys + set i | 0 <= i < n :: EntryKey(rest[i])
  {
    if n > 0 {
      ApplyEntriesKeys(d, rest, n - 1);
      var before := set i | 0 <= i < n - 1 :: EntryKey(rest[i]);
      var after := set i | 0 <= i < n :: EntryKey(rest[i]);
      assert after == before + {EntryKey(rest[n - 1])};
    }
  }

  /** A key takes the value of the last line that sets it. */
  lemma {:induction false} LaterLineWins(d: Props, rest: seq<string>, n: nat, i: nat)
    requires i < n <= |rest| && ApplyEntries(d, rest, n).Ok?
    requires forall j :: i < j < n ==> EntryKey(rest[j]) != EntryKey(rest[i])
    ensures SimpleEntry(rest[i]).Ok?
    ensures EntryKey(rest[i]) in ApplyEntries(d, rest, n).value
    ensures ApplyEntries(d, rest, n).value[EntryKey(rest[i])] == SimpleEntry(rest[i]).value.1
  {
    if i < n - 1 {
      LaterLineWins(d, rest, n - 1, i);
    }
  }

  /** Keys no line sets keep the caller's value. */
  lemma {:induction false} UnsetKeysUnchanged(d: Props, rest: seq<string>, n: nat, k: string)
    requires n <= |rest| && ApplyEntries(d, rest, n).Ok?
    requires k in d && forall j :: 0 <= j < n ==> EntryKey(rest[j]) != k
    ensures k in ApplyEntries(d, rest, n).value && ApplyEntries(d, rest, n).value[k] == d[k]
  {
    if n > 0 {
      UnsetKeysUnchanged(d, rest, n - 1, k);
    }
  }

  /** The entries depend only on the lines they read. */
  lemma {:induction false} ApplyEntriesPrefix(d: Props, a: seq<string>, b: seq<string>, n: nat)
    requires n <= |a| && n <= |b| && a[..n] == b[..n]
    ensures ApplyEntries(d, a, n) == ApplyEntries(d, b, n)
  {
    if n > 0 {
      assert a[..n - 1] == b[..n - 1] by {
        assert a[..n - 1] == a[..n][..n - 1];
        assert b[..n - 1] == b[..n][..n - 1];
      }
      assert a[n - 1] == a[..n][n - 1] == b[..n][n - 1] == b[n - 1];
      ApplyEntriesPrefix(d, a, b, n - 1);
    }
  }

  /** A colon inside a value cuts it off: `Launch Command: http://host/game.swf` yields
      the value `http`. */
  lemma ColonEndsValue(k: string, v: string, w: string)
    requires ':' !in k && ':' !in v
    ensures SimpleEntry(k + ":" + v + ":" + w) == Ok((StripChars(k, Space), StripChars(v, Space)))
  {
    var line := k + ":" + v + ":" + w;
    assert line == k + [':'] + (v + ":" + w);
    SplitAfterSep(k, v + ":" + w, ':');
    assert v + ":" + w == v + [':'] + w;
    SplitAfterSep(v, w, ':');
  }

  /** Only spaces are stripped from a value, so the line's newline stays on it. */
  lemma ValueKeepsNewline(k: string, v: string)
    requires ':' !in k && ':' !in v
    ensures SimpleEntry(k + ":" + v + "\n").Ok?
    ensures EndsWith(SimpleEntry(k + ":" + v + "\n").value.1, "\n")
  {
    var line := k + ":" + v + "\n";
    assert line == k + [':'] + (v + "\n");
    SplitAfterSep(k, v + "\n", ':');
    assert ':' !in v + "\n";
    SplitNoSep(v + "\n", ':');
    var l := LStrip(v + "\n", Space);
    var s := v + "\n";
    LStripFacts(s, Space);
    RStripFacts(l, Space);
    assert s[|s| - 1] == '\n';
    assert l != [];
    assert l[|l| - 1] == s[|s| - |l|..][|l| - 1] == s[|s| - 1];
    assert RStrip(l, Space) == l;
  }

  // ---------------------------------------------------------------------------------------
  // parse_multiline

  /** Python's `a is b` on two ints: CPython shares one object per value only for -5..256,
      so equal ints outside that range built separately (an `enumerate` counter and an
      argument) are different objects. */
  predicate SameIntObject(a: int, b: int)
  {
    a == b && -5 <= a <= 256
  }

  /** The line at index `i` of the slice stops a multiline block: it is not the key line and
      is not indented with a tab. */
  predicate IsMultilineBreak(rest: seq<string>, start: int, i: nat)
    requires i < |rest|
  {
    !SameIntObject(i, start) && !StartsWith(rest[i], "\t")
  }

  /** The index of the first break from `from` on (`|rest|` if there is none). */
  function MultilineRun(rest: seq<string>, start: int, from: nat): (end: nat)
    requires from <= |rest|
    ensures from <= end <= |rest|
    ensures forall i :: from <= i < end ==> !IsMultilineBreak(rest, start, i)
    ensures end < |rest| ==> IsMultilineBreak(rest, start, end)
    decreases |rest| - from
  {
    if from == |rest| || IsMultilineBreak(rest, start, from) then from
    else MultilineRun(rest, start, from + 1)
  }

  /** The key: the text before the first colon of the key line, when the scan reaches it
      (the line at index `start` of the slice, which is `lines[2 * start]` for a
      non-negative `start`); the empty string otherwise. */
  function MultilineKey(rest: seq<string>, start: int, end: nat): string
    requires end <= |rest|
  {
    if 0 <= start < end && SameIntObject(start, start)
    then StripChars(FirstField(rest[start], ':'), Space) else ""
  }

  /** The value: the indented lines among the first `n`, each stripped of spaces and tabs,
      concatenated; the key line contributes nothing. */
  function MultilineValue(rest: seq<string>, start: int, n: nat): string
    requires n <= |rest|
  {
    if n == 0 then ""
    else
      MultilineValue(rest, start, n - 1)
      + (if SameIntObject(n - 1, start) then "" else StripChars(rest[n - 1], SpaceTab))
  }

  /** What `parse_multiline(lines, d, start)` returns. */
  function Multiline(lines: seq<string>, d: Props, start: int): (Props, int)
  {
    var rest := SliceFrom(lines, start);
    var end := MultilineRun(rest, start, 0);
    (d[MultilineKey(rest, start, end) := MultilineValue(rest, start, end)],
     if end == |rest| then -1 else end)
  }

  /** curation_validator.py:428-445, proved against `Multiline`. */
  method ParseMultiline(lines: seq<string>, d: Props, start: int) returns (props: Props, breakNumber: int)
    ensures (props, breakNumber) == Multiline(lines, d, start)
  {
    var rest := SliceFrom(lines, start);
    breakNumber := -1;
    var key := "";
    var val := "";
    var idx := 0;
    while idx < |rest|
      invariant 0 <= idx <= |rest|
      invariant forall i :: 0 <= i < idx ==> !IsMultilineBreak(rest, start, i)
      invariant key == MultilineKey(rest, start, idx)
      invariant val == MultilineValue(rest, start, idx)
      invariant breakNumber == -1
    {
      var line := rest[idx];
      if SameIntObject(idx, start) {
        var split := Split(line, ':');
        SplitFirst(line, ':');
        key := StripChars(split[0], Space);
      } else if StartsWith(line, "\t") {
        val := val + StripChars(line, SpaceTab);
      } else {
        breakNumber := idx;
        break;
      }
      idx := idx + 1;
    }
    assert breakNumber == -1 ==> idx == |rest|;
    assert breakNumber != -1 ==> breakNumber == idx < |rest| && IsMultilineBreak(rest, start, idx);
    assert MultilineRun(rest, start, 0) == idx;
    props := d[key := val];
  }

  /** On an exhausted file `parse_multiline` adds the entry `"": ""` and reports no break. */
  lemma MultilineOnNoLines(d: Props, start: int)
    ensures Multiline([], d, start) == (d["" := ""], -1)
  {
  }

  /** A block read from its start: the key line followed by indented value lines gives
      the key before the key line's first colon and the stripped value lines joined. */
  lemma MultilineFromStart(key: string, values: seq<string>, d: Props)
    requires forall i :: 0 <= i < |values| ==> StartsWith(values[i], "\t")
    ensures Multiline([key] + values, d, 0).0
      == d[StripChars(FirstField(key, ':'), Space) := Concat(StripAll(values))]
    ensures Multiline([key] + values, d, 0).1 == -1
  {
    var rest := [key] + values;
    assert SliceFrom(rest, 0) == rest;
    forall i | 0 <= i < |rest| ensures !IsMultilineBreak(rest, 0, i) {
      if i > 0 {
        assert rest[i] == values[i - 1];
      }
    }
    MultilineRunAll(rest, 0, 0);
    var end := MultilineRun(rest, 0, 0);
    assert end == |rest| && rest[0] == key;
    assert MultilineKey(rest, 0, end) == StripChars(FirstField(key, ':'), Space);
    MultilineValueTail(key, values);
    assert MultilineValue(rest, 0, end) == Concat(StripAll(values));
    assert Multiline(rest, d, 0) == (d[MultilineKey(rest, 0, end) := MultilineValue(rest, 0, end)], -1);
  }

  /** Each value line stripped of spaces and tabs. */
  function StripAll(lines: seq<string>): (r: seq<string>)
    ensures |r| == |lines|
    ensures forall i :: 0 <= i < |r| ==> r[i] == StripChars(lines[i], SpaceTab)
  {
    if |lines| == 0 then [] else StripAll(lines[..|lines| - 1]) + [StripChars(lines[|lines| - 1], SpaceTab)]
  }

  lemma {:induction false} MultilineRunAll(rest: seq<string>, start: int, from: nat)
    requires from <= |rest|
    requires forall i :: from <= i < |rest| ==> !IsMultilineBreak(rest, start, i)
    ensures MultilineRun(rest, start, from) == |rest|
    decreases |rest| - from
  {
    if from < |rest| {
      MultilineRunAll(rest, start, from + 1);
    }
  }

  lemma MultilineValueTail(key: string, values: seq<string>)
    ensures MultilineValue([key] + values, 0, |values| + 1) == Concat(StripAll(values))
  {
    MultilineValuePrefix(key, values, |values|);
    assert values[..|values|] == values;
  }

  lemma {:induction false} MultilineValuePrefix(key: string, values: seq<string>, n: nat)
    requires n <= |values|
    ensures MultilineValue([key] + values, 0, n + 1) == Concat(StripAll(values[..n]))
  {
    var rest := [key] + values;
    if n == 0 {
      assert MultilineValue(rest, 0, 0) == "";
    } else {
      MultilineValuePrefix(key, values, n - 1);
      assert rest[n] == values[n - 1];
      var s := StripAll(values[..n]);
      assert values[..n][..n - 1] == values[..n - 1];
      assert s[..n - 1] == StripAll(values[..n - 1]);
    }
  }

  // ---------------------------------------------------------------------------------------
  // The driver loop of curation_validator.py:201-207

  /** `if props.get("Genre") is not None: props["Tags"] = props["Genre"]`. */
  function GenreAsTags(m: Props): Props
  {
    if "Genre" in m then m["Tags" := m["Genre"]] else m
  }

  /** The properties the driver loop builds from the lines of a `.txt` meta file. Both
      parsers call `readlines()`, so the first one reads the whole file and the second one
      gets no lines: the loop runs once and nothing after the first non-simple line is
      read. */
  function TxtMeta(lines: seq<string>): Result<Props>
  {
    match SimpleLines(lines, map[], 0)
    case Fault => Fault
    case Ok(sb) => Ok(GenreAsTags(Multiline([], sb.0, sb.1).0))
  }

  /** An open text-mode file: `readlines()` returns the lines not yet read and leaves the
      file at its end. */
  class MetaFile {
    var unread: seq<string>

    constructor (lines: seq<string>)
      ensures unread == lines
    {
      unread := lines;
    }

    method ReadLines() returns (lines: seq<string>)
      modifies this
      ensures lines == old(unread) && unread == []
    {
      lines := unread;
      unread := [];
    }
  }

  /** The driver loop, proved against `TxtMeta`. */
  method ParseTxtMeta(file: MetaFile) returns (r: Result<Props>)
    modifies file
    ensures r == TxtMeta(old(file.unread))
    ensures file.unread == []
  {
    ghost var all := file.unread;
    var props: Props := map[];
    var breakIndex := 0;
    while breakIndex != -1
      invariant breakIndex == 0 || breakIndex == -1
      invariant breakIndex == 0 ==> props == map[] && file.unread == all
      invariant breakIndex == -1 ==> file.unread == [] && TxtMeta(all) == Ok(props)
      decreases breakIndex + 1
    {
      var lines := file.ReadLines();
      var first := ParseLinesUntilMultiline(lines, props, breakIndex);
      if first.Fault? {
        return Fault;
      }
      props, breakIndex := first.value.0, first.value.1;
      lines := file.ReadLines();
      props, breakIndex := ParseMultiline(lines, props, breakIndex);
      if "Genre" in props {
        props := props["Tags" := props["Genre"]];
      }
    }
    return Ok(props);
  }

  /** The number of lines the parse reads: the simple lines that open the file. */
  function ReadCount(lines: seq<string>): (n: nat)
    ensures n <= |lines|
    ensures forall i :: 0 <= i < n ==> IsSimpleLine(lines[i])
    ensures n < |lines| ==> !IsSimpleLine(lines[n])
  {
    SimpleRun(lines, 0)
  }

  /** The parse faults exactly when one of the lines it reads has no colon. */
  lemma TxtMetaFault(lines: seq<string>)
    ensures TxtMeta(lines).Fault? <==> exists i :: 0 <= i < ReadCount(lines) && ':' !in lines[i]
  {
    assert SliceFrom(lines, 0) == lines;
    ApplyEntriesFault(map[], lines, ReadCount(lines));
  }

  /** The keys of a parsed file: one per line read, the empty key that `parse_multiline`
      adds, and `Tags` when there is a `Genre`. */
  lemma TxtMetaKeys(lines: seq<string>)
    requires TxtMeta(lines).Ok?
    ensures var m := TxtMeta(lines).value;
      m.Keys == (set i | 0 <= i < ReadCount(lines) :: EntryKey(lines[i])) + {""}
        + (if "Genre" in m then {"Tags"} else {})
  {
    assert SliceFrom(lines, 0) == lines;
    ApplyEntriesKeys(map[], lines, ReadCount(lines));
  }

  /** The empty key always maps to the empty string, and `Tags` copies `Genre`. */
  lemma TxtMetaEntries(lines: seq<string>)
    requires TxtMeta(lines).Ok?
    ensures "" in TxtMeta(lines).value && TxtMeta(lines).value[""] == ""
    ensures "Genre" in TxtMeta(lines).value ==> TxtMeta(lines).value["Tags"] == TxtMeta(lines).value["Genre"]
  {
  }

  /** Everything from the first non-simple line on (a multiline `Notes` block, say) is
      ignored: the parse of the whole file equals the parse of the lines before it. */
  lemma TxtMetaIgnoresRest(lines: seq<string>, k: nat)
    requires k == ReadCount(lines)
    ensures TxtMeta(lines) == TxtMeta(lines[..k])
  {
    var pre := lines[..k];
    assert SliceFrom(lines, 0) == lines;
    assert SliceFrom(pre, 0) == pre;
    assert SimpleRun(pre, 0) == k by {
      assert forall i :: 0 <= i < k ==> pre[i] == lines[i];
    }
    assert pre[..k] == lines[..k];
    ApplyEntriesPrefix(map[], lines, pre, k);
    if k == |lines| {
      assert pre == lines;
    }
  }
}
