/** The rules the validator applies to the meta properties of a curation
    (curation_validator.py:220-329): release-date shape, ISO 639-1 languages, mandatory
    fields, the launch command, tags, the extreme rule and the curation type. */
module Rules {
  import opened Common
  import opened PyStrings

  /** A scalar of the meta file as the YAML loader or the `.txt` parser hands it over: a
      string, a boolean, null, or anything else (numbers, dates), kept as its `str()` text
      and its truth value. */
  datatype Value = Str(s: string) | Bool(b: bool) | Null | Other(text: string, truthy: bool)

  type Props = map<string, Value>

  /** `props.get(k)`: a missing key reads as `None`. */
  function Get(p: Props, k: string): Value
  {
    if k in p then p[k] else Null
  }

  /** `bool(v)`. */
  predicate Truthy(v: Value)
  {
    match v
    case Str(s) => s != ""
    case Bool(b) => b
    case Null => false
    case Other(_, t) => t
  }

  /** `str(v)`. */
  function PyStr(v: Value): string
  {
    match v
    case Str(s) => s
    case Bool(b) => if b then "True" else "False"
    case Null => "None"
    case Other(t, _) => t
  }

  /** The reference data the validator consults: the ISO 639-1 table, the replacement map,
      the three tag sources, the extreme tags, the launch commands already in the master
      database, the deny-listed system file names and the overused localflash folder names. */
  datatype RefData = RefData(
    languages: seq<Language>,
    replacements: map<string, string>,
    tagFile: seq<string>,
    tagWiki: seq<string>,
    tagBluebot: seq<string>,
    extremeTags: set<string>,
    launchCommands: set<string>,
    systemFiles: seq<string>,
    commonLocalflash: set<string>)

  // ---------------------------------------------------------------------------------------
  // Release date

  /** `\d` at every position, with `\d` any Unicode decimal digit. */
  predicate AllDigits(s: string)
  {
    forall i :: 0 <= i < |s| ==> IsDecimal(s[i])
  }

  /** `(-\d{2}){0,k}` matching all of `t`. */
  predicate DashGroups(t: string, k: nat)
  {
    t == "" || (k > 0 && |t| >= 3 && t[0] == '-' && IsDecimal(t[1]) && IsDecimal(t[2]) && DashGroups(t[3..], k - 1))
  }

  /** `\d{4}(-\d{2}){0,2}` matching all of `s`. */
  predicate DateBody(s: string)
  {
    |s| >= 4 && AllDigits(s[..4]) && DashGroups(s[4..], 2)
  }

  /** `re.match(r"^\d{4}(-\d{2}){0,2}$", s)`, with `$` accepting one final newline. */
  predicate DateMatches(s: string)
  {
    DateBody(s) || (|s| > 0 && s[|s| - 1] == '\n' && DateBody(s[..|s| - 1]))
  }

  /** `YYYY`, `YYYY-MM` or `YYYY-MM-DD`, position by position: decimal digits of any script,
      no range check. */
  predicate IsDateShape(s: string)
  {
    (|s| == 4 || |s| == 7 || |s| == 10)
    && forall i :: 0 <= i < |s| ==> if i == 4 || i == 7 then s[i] == '-' else IsDecimal(s[i])
  }

  /** The pattern accepts exactly the three positional shapes. */
  lemma DateBodyShape(s: string)
    ensures DateBody(s) <==> IsDateShape(s)
  {
    if |s| >= 4 {
      var t := s[4..];
      assert AllDigits(s[..4]) <==> forall i :: 0 <= i < 4 ==> IsDecimal(s[i]) by {
        assert forall i :: 0 <= i < 4 ==> s[..4][i] == s[i];
      }
      if |t| >= 3 {
        var u := t[3..];
        assert t[0] == s[4] && t[1] == s[5] && t[2] == s[6];
        if |u| >= 3 {
          assert u[0] == s[7] && u[1] == s[8] && u[2] == s[9];
          assert DashGroups(u[3..], 0) <==> |s| == 10;
          assert DashGroups(u, 1) <==> (u[0] == '-' && IsDecimal(u[1]) && IsDecimal(u[2]) && |s| == 10);
        } else {
          assert DashGroups(u, 1) <==> |s| == 7;
        }
      } else {
        assert DashGroups(t, 2) <==> |s| == 4;
      }
    }
  }

  function ReleaseDateMsg(d: string): string
  {
    "Release date " + d + " is incorrect. Release dates should always be in `YYYY-MM-DD` format."
  }

  /** The release-date check: a truthy value is printed and stripped, and when something
      remains it must match the date pattern. */
  function ReleaseDateErrors(p: Props): seq<string>
  {
    var v := Get(p, "Release Date");
    if !Truthy(v) then []
    else
      var d := Strip(PyStr(v));
      if |d| > 0 && !DateMatches(d) then [ReleaseDateMsg(d)] else []
  }

  /** There is a date error exactly when the stripped value is non-empty and not of the
      form `YYYY`, `YYYY-MM` or `YYYY-MM-DD`. */
  lemma ReleaseDateErrorsIff(p: Props)
    ensures var v := Get(p, "Release Date"); var d := Strip(PyStr(v));
      ReleaseDateErrors(p) != [] <==> Truthy(v) && d != "" && !IsDateShape(d)
    ensures |ReleaseDateErrors(p)| <= 1
  {
    var v := Get(p, "Release Date");
    var d := Strip(PyStr(v));
    var _ := StripCharsSlice(PyStr(v), Whitespace);
    assert d != [] ==> d[|d| - 1] != '\n';
    DateBodyShape(d);
  }

  /** A year in Arabic-Indic digits (U+0662 U+0660 U+0662 U+0660) matches the date pattern,
      because `\d` accepts decimal digits of every script; so does its ASCII form. */
  lemma ArabicIndicYearMatches()
    ensures DateMatches("\U{662}\U{660}\U{662}\U{660}")
    ensures DateMatches("2020")
  {
    var s := "\U{662}\U{660}\U{662}\U{660}";
    assert forall i :: 0 <= i < 4 ==> IsDecimal(s[..4][i]);
    AsciiDigitIsDecimal('2');
    AsciiDigitIsDecimal('0');
    assert forall i :: 0 <= i < 4 ==> IsDecimal("2020"[..4][i]);
  }

  // ---------------------------------------------------------------------------------------
  // Languages

  /** One row of the ISO 639-1 table. */
  datatype Language = Language(alpha2: string, english: string)

  /** `t in valid_language_codes`. */
  predicate IsCode(t: string, codes: seq<Language>)
  {
    exists i | 0 <= i < |codes| :: codes[i].alpha2 == t
  }

  /** `t in [x["English"] for x in list_of_language_codes]`. */
  predicate IsEnglishName(t: string, codes: seq<Language>)
  {
    exists i | 0 <= i < |codes| :: codes[i].english == t
  }

  const CommaMsg: string := "Languages should be separated with semicolons, not commas."

  function IsoFormatMsg(code: string, t: string): string
  {
    "Languages must be in ISO 639-1 format, so please use `" + code + "` instead of `" + t + "`"
  }

  function ReplacementMsg(name: string, code: string, t: string): string
  {
    "The correct ISO 639-1 language code for " + name + " is `" + code + "`, not `" + t + "`."
  }

  function InvalidCodeMsg(t: string): string
  {
    "Code `" + t + "` is not a valid ISO 639-1 language code."
  }

  /** One error per table row whose English name contains `t`, in table order. */
  function IsoFormatErrors(t: string, codes: seq<Language>): seq<string>
  {
    if |codes| == 0 then []
    else
      var x := codes[|codes| - 1];
      IsoFormatErrors(t, codes[..|codes| - 1])
      + (if Contains(x.english, t) then [IsoFormatMsg(x.alpha2, t)] else [])
  }

  /** The English name of the last row whose code is `code`, or the empty string. */
  function NameOf(code: string, codes: seq<Language>): string
  {
    if |codes| == 0 then ""
    else if codes[|codes| - 1].alpha2 == code then codes[|codes| - 1].english
    else NameOf(code, codes[..|codes| - 1])
  }

  /** The errors for one stripped language token, by the source's cases in order. */
  function TokenErrors(t: string, codes: seq<Language>, repl: map<string, string>): seq<string>
  {
    if IsCode(t, codes) then []
    else if t == "" then []
    else if ',' in t then [CommaMsg]
    else if IsEnglishName(t, codes) then IsoFormatErrors(t, codes)
    else if t in repl then [ReplacementMsg(NameOf(repl[t], codes), repl[t], t)]
    else [InvalidCodeMsg(t)]
  }

  /** The errors of all tokens, in token order. */
  function TokensErrors(ts: seq<string>, codes: seq<Language>, repl: map<string, string>): seq<string>
  {
    if |ts| == 0 then []
    else TokensErrors(ts[..|ts| - 1], codes, repl) + TokenErrors(ts[|ts| - 1], codes, repl)
  }

  /** `[x.strip() for x in s.split(";")]`. */
  function LanguageTokens(s: string): seq<string>
  {
    StripEach(Split(s, ';'))
  }

  /** The language check: a truthy value that is not a string cannot be split (an engine
      fault). */
  function LanguageErrors(p: Props, codes: seq<Language>, repl: map<string, string>): Result<seq<string>>
  {
    var v := Get(p, "Languages");
    if !Truthy(v) then Ok([])
    else if !v.Str? then Fault
    else Ok(TokensErrors(LanguageTokens(v.s), codes, repl))
  }

  /** The tokens are the `;`-separated parts, stripped: one more than there are semicolons,
      none of them containing one. */
  lemma LanguageTokensShape(s: string)
    ensures |LanguageTokens(s)| == CountChar(s, ';') + 1
    ensures forall i :: 0 <= i < |LanguageTokens(s)| ==> ';' !in LanguageTokens(s)[i]
  {
    SplitCount(s, ';');
    var parts := Split(s, ';');
    forall i | 0 <= i < |parts| ensures ';' !in Strip(parts[i]) {
      var j := StripCharsSlice(parts[i], Whitespace);
      var r := Strip(parts[i]);
      forall k | 0 <= k < |r| ensures r[k] != ';' {
        assert r[k] == parts[i][j + k];
      }
    }
  }

  /** An error is in the ISO-format list exactly when it names a row whose English name
      contains the token. */
  lemma {:induction false} IsoFormatErrorsMention(t: string, codes: seq<Language>, e: string)
    ensures e in IsoFormatErrors(t, codes)
      <==> exists i | 0 <= i < |codes| :: Contains(codes[i].english, t) && e == IsoFormatMsg(codes[i].alpha2, t)
  {
    if |codes| > 0 {
      var pre := codes[..|codes| - 1];
      IsoFormatErrorsMention(t, pre, e);
      assert forall i :: 0 <= i < |pre| ==> pre[i] == codes[i];
    }
  }

  /** An exact English name always yields at least one ISO-format error: its own row. */
  lemma EnglishNameGivesIsoError(t: string, codes: seq<Language>)
    requires IsEnglishName(t, codes)
    ensures exists i | 0 <= i < |codes| :: codes[i].english == t && IsoFormatMsg(codes[i].alpha2, t) in IsoFormatErrors(t, codes)
  {
    var i :| 0 <= i < |codes| && codes[i].english == t;
    ContainsSelf(t);
    IsoFormatErrorsMention(t, codes, IsoFormatMsg(codes[i].alpha2, t));
  }

  /** The name in the corrective message is the English name of a row with that code, or
      empty when the table has none. */
  lemma {:induction false} NameOfIsAName(code: string, codes: seq<Language>)
    ensures IsCode(code, codes) ==> exists i | 0 <= i < |codes| :: codes[i].alpha2 == code && codes[i].english == NameOf(code, codes)
    ensures !IsCode(code, codes) ==> NameOf(code, codes) == ""
  {
    if |codes| > 0 {
      var pre := codes[..|codes| - 1];
      NameOfIsAName(code, pre);
      assert forall i :: 0 <= i < |pre| ==> pre[i] == codes[i];
      if !IsCode(code, codes) {
        assert !IsCode(code, pre);
      }
    }
  }

  /** The five outcomes for one token, in the order the source tests them. */
  lemma TokenErrorsCases(t: string, codes: seq<Language>, repl: map<string, string>)
    ensures IsCode(t, codes) || t == "" ==> TokenErrors(t, codes, repl) == []
    ensures !IsCode(t, codes) && t != "" && ',' in t ==> TokenErrors(t, codes, repl) == [CommaMsg]
    ensures !IsCode(t, codes) && t != "" && ',' !in t && IsEnglishName(t, codes)
      ==> (TokenErrors(t, codes, repl) != []
          && forall e :: e in TokenErrors(t, codes, repl) ==> exists i | 0 <= i < |codes| :: e == IsoFormatMsg(codes[i].alpha2, t))
    ensures !IsCode(t, codes) && t != "" && ',' !in t && !IsEnglishName(t, codes) && t in repl
      ==> TokenErrors(t, codes, repl) == [ReplacementMsg(NameOf(repl[t], codes), repl[t], t)]
    ensures !IsCode(t, codes) && t != "" && ',' !in t && !IsEnglishName(t, codes) && t !in repl
      ==> TokenErrors(t, codes, repl) == [InvalidCodeMsg(t)]
  {
    if !IsCode(t, codes) && t != "" && ',' !in t && IsEnglishName(t, codes) {
      assert TokenErrors(t, codes, repl) == IsoFormatErrors(t, codes);
      EnglishNameGivesIsoError(t, codes);
      forall e | e in IsoFormatErrors(t, codes)
        ensures exists i | 0 <= i < |codes| :: e == IsoFormatMsg(codes[i].alpha2, t)
      {
        IsoFormatErrorsMention(t, codes, e);
      }
    }
  }

  /** Valid codes joined with semicolons (and any spacing the strip removes) pass. */
  lemma {:induction false} CodesListPasses(ts: seq<string>, codes: seq<Language>, repl: map<string, string>)
    requires forall i :: 0 <= i < |ts| ==> IsCode(ts[i], codes)
    ensures TokensErrors(ts, codes, repl) == []
  {
    if |ts| > 0 {
      CodesListPasses(ts[..|ts| - 1], codes, repl);
    }
  }

  /** The errors of a token list are the errors of its tokens, concatenated. */
  lemma {:induction false} TokensErrorsAppend(a: seq<string>, b: seq<string>, codes: seq<Language>, repl: map<string, string>)
    ensures TokensErrors(a + b, codes, repl) == TokensErrors(a, codes, repl) + TokensErrors(b, codes, repl)
    decreases |b|
  {
    if |b| > 0 {
      TokensErrorsAppend(a, b[..|b| - 1], codes, repl);
      assert (a + b)[..|a + b| - 1] == a + b[..|b| - 1];
    } else {
      assert a + b == a;
    }
  }

  /** The loop of curation_validator.py:251-254, proved against `IsoFormatErrors`. */
  method CollectIsoFormatErrors(t: string, codes: seq<Language>) returns (errs: seq<string>)
    ensures errs == IsoFormatErrors(t, codes)
  {
    errs := [];
    var j := 0;
    while j < |codes|
      invariant 0 <= j <= |codes|
      invariant errs == IsoFormatErrors(t, codes[..j])
    {
      if Contains(codes[j].english, t) {
        errs := errs + [IsoFormatMsg(codes[j].alpha2, t)];
      }
      assert codes[..j + 1][..j] == codes[..j];
      j := j + 1;
    }
    assert codes[..|codes|] == codes;
  }

  /** The loop of curation_validator.py:256-259, proved against `NameOf`. */
  method FindLanguageName(code: string, codes: seq<Language>) returns (name: string)
    ensures name == NameOf(code, codes)
  {
    name := "";
    var j := 0;
    while j < |codes|
      invariant 0 <= j <= |codes|
      invariant name == NameOf(code, codes[..j])
    {
      if code == codes[j].alpha2 {
        name := codes[j].english;
      }
      assert codes[..j + 1][..j] == codes[..j];
      j := j + 1;
    }
    assert codes[..|codes|] == codes;
  }

  /** curation_validator.py:237-263, proved against `TokensErrors`. */
  method CheckLanguages(languageStr: string, codes: seq<Language>, repl: map<string, string>) returns (errs: seq<string>)
    ensures errs == TokensErrors(LanguageTokens(languageStr), codes, repl)
  {
    var ts := LanguageTokens(languageStr);
    errs := [];
    var n := 0;
    while n < |ts|
      invariant 0 <= n <= |ts|
      invariant errs == TokensErrors(ts[..n], codes, repl)
    {
      var tokenErrs := CheckToken(ts[n], codes, repl);
      errs := errs + tokenErrs;
      assert ts[..n + 1][..n] == ts[..n];
      n := n + 1;
    }
    assert ts[..|ts|] == ts;
  }

  /** The body of the loop at curation_validator.py:243-263 for one token, proved against
      `TokenErrors`. */
  method CheckToken(t: string, codes: seq<Language>, repl: map<string, string>) returns (tokenErrs: seq<string>)
    ensures tokenErrs == TokenErrors(t, codes, repl)
  {
    if IsCode(t, codes) {
      tokenErrs := [];
    } else if t == "" {
      tokenErrs := [];
    } else if ',' in t {
      tokenErrs := [CommaMsg];
    } else if IsEnglishName(t, codes) {
      tokenErrs := CollectIsoFormatErrors(t, codes);
    } else if t in repl {
      var name := FindLanguageName(repl[t], codes);
      tokenErrs := [ReplacementMsg(name, repl[t], t)];
    } else {
      tokenErrs := [InvalidCodeMsg(t)];
    }
  }

  // ---------------------------------------------------------------------------------------
  // Mandatory fields and the launch command

  /** The mandatory fields, in the order their errors are reported. */
  const MandatoryFields: seq<string> :=
    ["Title", "Languages", "Source", "Launch Command", "Status", "Application Path"]

  function MandatoryMsg(k: string): string
  {
    "The `" + k + "` property in the meta file is mandatory."
  }

  /** One message per falsy field of `fields`, in order. */
  function PresenceErrors(p: Props, fields: seq<string>): seq<string>
  {
    if |fields| == 0 then []
    else
      var k := fields[|fields| - 1];
      PresenceErrors(p, fields[..|fields| - 1]) + (if Truthy(Get(p, k)) then [] else [MandatoryMsg(k)])
  }

  function MandatoryErrors(p: Props): seq<string>
  {
    PresenceErrors(p, MandatoryFields)
  }

  /** The mandatory-field message names its field. */
  lemma MandatoryMsgInjective(a: string, b: string)
    requires MandatoryMsg(a) == MandatoryMsg(b)
    ensures a == b
  {
    WrapInjective("The `", a, b, "` property in the meta file is mandatory.");
  }

  /** There is a message for `k` exactly when `k` is one of the fields and falsy, and there
      are at most as many messages as fields. */
  lemma {:induction false} PresenceErrorsMention(p: Props, fields: seq<string>, k: string)
    ensures MandatoryMsg(k) in PresenceErrors(p, fields) <==> k in fields && !Truthy(Get(p, k))
    ensures |PresenceErrors(p, fields)| <= |fields|
  {
    if |fields| > 0 {
      var init, last := fields[..|fields| - 1], fields[|fields| - 1];
      PresenceErrorsMention(p, init, k);
      assert fields == init + [last];
      if MandatoryMsg(k) == MandatoryMsg(last) {
        MandatoryMsgInjective(k, last);
      }
    }
  }

  /** There is a mandatory-field error for `k` exactly when `k` is mandatory and falsy, and
      no error when every mandatory field is truthy. */
  lemma MandatoryErrorsMention(p: Props, k: string)
    ensures MandatoryMsg(k) in MandatoryErrors(p) <==> k in MandatoryFields && !Truthy(Get(p, k))
    ensures MandatoryErrors(p) == [] <==> forall f :: f in MandatoryFields ==> Truthy(Get(p, f))
  {
    PresenceErrorsMention(p, MandatoryFields, k);
    var e := MandatoryErrors(p);
    if e != [] {
      assert e[0] in e;
      var f := MessageFieldOf(p, MandatoryFields, 0);
      PresenceErrorsMention(p, MandatoryFields, f);
    } else {
      forall f | f in MandatoryFields ensures Truthy(Get(p, f)) {
        PresenceErrorsMention(p, MandatoryFields, f);
      }
    }
  }

  /** The field that message `i` is about. */
  lemma {:induction false} MessageFieldOf(p: Props, fields: seq<string>, i: nat) returns (f: string)
    requires i < |PresenceErrors(p, fields)|
    ensures PresenceErrors(p, fields)[i] == MandatoryMsg(f)
  {
    var init, last := fields[..|fields| - 1], fields[|fields| - 1];
    if i < |PresenceErrors(p, init)| {
      f := MessageFieldOf(p, init, i);
    } else {
      f := last;
    }
  }

  /** The mandatory-field check (curation_validator.py:277-282), proved against
      `MandatoryErrors`. */
  method CheckMandatory(p: Props) returns (errs: seq<string>)
    ensures errs == MandatoryErrors(p)
  {
    errs := CheckPresent(p, MandatoryFields);
  }

  /** The loop over the fields: a message for each falsy one. */
  method CheckPresent(p: Props, fields: seq<string>) returns (errs: seq<string>)
    ensures errs == PresenceErrors(p, fields)
  {
    errs := [];
    var n := 0;
    while n < |fields|
      invariant 0 <= n <= |fields|
      invariant errs == PresenceErrors(p, fields[..n])
    {
      var k := fields[n];
      assert fields[..n + 1][..n] == fields[..n];
      if !Truthy(Get(p, k)) {
        errs := errs + [MandatoryMsg(k)];
      }
      n := n + 1;
    }
    assert fields[..|fields|] == fields;
  }

  const HttpsMsg: string := "Found `https` in launch command. All launch commands must use `http` instead of `https`."
  const DuplicateMsg: string := "Identical launch command already present in the master database. Is your curation a duplicate?"

  /** The launch-command checks: a truthy value that is not a string cannot be searched (an
      engine fault). */
  function LaunchCommandErrors(p: Props, registry: set<string>): Result<seq<string>>
  {
    var v := Get(p, "Launch Command");
    if !Truthy(v) then Ok([])
    else if !v.Str? then Fault
    else Ok((if Contains(v.s, "https") then [HttpsMsg] else []) + (if v.s in registry then [DuplicateMsg] else []))
  }

  /** A string launch command gets the `https` error exactly when it contains `https`, the
      duplicate error exactly when it is in the master database, each at most once. */
  lemma LaunchCommandErrorsIff(p: Props, registry: set<string>, s: string)
    requires Get(p, "Launch Command") == Str(s) && s != ""
    ensures LaunchCommandErrors(p, registry).Ok?
    ensures HttpsMsg in LaunchCommandErrors(p, registry).value <==> Contains(s, "https")
    ensures DuplicateMsg in LaunchCommandErrors(p, registry).value <==> s in registry
    ensures |LaunchCommandErrors(p, registry).value| <= 2
  {
    assert |HttpsMsg| != |DuplicateMsg|;
  }

  /** An `https://` address always trips the `https` rule. */
  lemma HttpsUrlIsRejected(rest: string)
    ensures Contains("https://" + rest, "https")
  {
    var s := "https://" + rest;
    assert s[0..5] == "https";
    assert OccursAt(s, "https", 0);
  }

  // ---------------------------------------------------------------------------------------
  // Tags

  /** `get_tag_list()`: the union of the three tag sources. */
  function MasterTags(fileTags: seq<string>, wikiTags: seq<string>, bluebotTags: seq<string>): (r: set<string>)
    ensures forall t :: t in r <==> t in fileTags || t in wikiTags || t in bluebotTags
  {
    set t | t in fileTags + wikiTags + bluebotTags
  }

  /** `[x for x in ts if len(x) > 0]`. */
  function NonEmpty(ts: seq<string>): (r: seq<string>)
    ensures |r| <= |ts|
    ensures forall x :: x in r <==> x in ts && x != ""
  {
    if |ts| == 0 then []
    else
      var t := ts[|ts| - 1];
      assert ts == ts[..|ts| - 1] + [t];
      NonEmpty(ts[..|ts| - 1]) + (if t == "" then [] else [t])
  }

  /** The tags: a missing or null value gives none, a string is split on `;` with each
      part stripped and the empty ones dropped, anything else cannot be split (an engine
      fault). */
  function TagsOf(p: Props): Result<seq<string>>
  {
    match Get(p, "Tags")
    case Null => Ok([])
    case Str(s) => Ok(NonEmpty(StripEach(Split(s, ';'))))
    case _ => Fault
  }

  /** Tags that are already trimmed, non-empty and free of `;` survive being joined with
      `;` and parsed again. */
  lemma {:induction false} TagsRoundTrip(tags: seq<string>, p: Props)
    requires |tags| >= 1
    requires forall i :: 0 <= i < |tags| ==> tags[i] != "" && ';' !in tags[i] && Strip(tags[i]) == tags[i]
    requires Get(p, "Tags") == Str(Join(tags, ';'))
    ensures TagsOf(p) == Ok(tags)
  {
    SplitJoin(tags, ';');
    assert StripEach(tags) == tags;
    NonEmptyKeepsAll(tags);
  }

  lemma {:induction false} NonEmptyKeepsAll(ts: seq<string>)
    requires forall i :: 0 <= i < |ts| ==> ts[i] != ""
    ensures NonEmpty(ts) == ts
  {
    if |ts| > 0 {
      NonEmptyKeepsAll(ts[..|ts| - 1]);
      assert ts == ts[..|ts| - 1] + [ts[|ts| - 1]];
    }
  }

  const MissingTagsMsg: string := "Missing tags. At least one tag must be specified."

  function UnknownTagMsg(t: string): string
  {
    "Tag `" + t + "` is not a known tag, please verify (did you write it correctly?)."
  }

  /** One warning per tag outside the master set, in tag order. */
  function UnknownTagWarnings(tags: seq<string>, master: set<string>): seq<string>
  {
    if |tags| == 0 then []
    else
      var t := tags[|tags| - 1];
      UnknownTagWarnings(tags[..|tags| - 1], master) + (if t in master then [] else [UnknownTagMsg(t)])
  }

  /** There is a warning for `t` exactly when `t` is a tag outside the master set. */
  lemma {:induction false} UnknownTagWarningsMention(tags: seq<string>, master: set<string>, t: string)
    ensures UnknownTagMsg(t) in UnknownTagWarnings(tags, master) <==> t in tags && t !in master
  {
    if |tags| > 0 {
      var pre := tags[..|tags| - 1];
      var last := tags[|tags| - 1];
      UnknownTagWarningsMention(pre, master, t);
      assert tags == pre + [last];
      if UnknownTagMsg(t) == UnknownTagMsg(last) {
        WrapInjective("Tag `", t, last, "` is not a known tag, please verify (did you write it correctly?).");
      }
    }
  }

  /** Known tags give no warnings. */
  lemma {:induction false} KnownTagsNoWarnings(tags: seq<string>, master: set<string>)
    requires forall i :: 0 <= i < |tags| ==> tags[i] in master
    ensures UnknownTagWarnings(tags, master) == []
  {
    if |tags| > 0 {
      KnownTagsNoWarnings(tags[..|tags| - 1], master);
    }
  }

  /** The tag errors: none tags give the one "missing" error. */
  function TagErrors(tags: seq<string>): seq<string>
  {
    if tags == [] then [MissingTagsMsg] else []
  }

  /** The tag warnings: only when there are tags. */
  function TagWarnings(tags: seq<string>, master: set<string>): seq<string>
  {
    if tags == [] then [] else UnknownTagWarnings(tags, master)
  }

  /** curation_validator.py:302-308, proved against `TagErrors` and `TagWarnings`. */
  method CheckTags(tags: seq<string>, master: set<string>) returns (errs: seq<string>, warns: seq<string>)
    ensures errs == TagErrors(tags) && warns == TagWarnings(tags, master)
  {
    errs, warns := [], [];
    if |tags| == 0 {
      errs := [MissingTagsMsg];
    } else {
      var n := 0;
      while n < |tags|
        invariant 0 <= n <= |tags|
        invariant warns == UnknownTagWarnings(tags[..n], master)
      {
        if tags[n] !in master {
          warns := warns + [UnknownTagMsg(tags[n])];
        }
        assert tags[..n + 1][..n] == tags[..n];
        n := n + 1;
      }
      assert tags[..|tags|] == tags;
    }
  }

  // ---------------------------------------------------------------------------------------
  // Extreme

  /** `extreme[1] and (props["Extreme"] == "Yes" or props["Extreme"] is True)`. */
  predicate ExtremeFlag(p: Props)
  {
    var v := Get(p, "Extreme");
    Truthy(v) && (v == Str("Yes") || v == Bool(true))
  }

  /** `bool([tag for tag in tags if tag in extreme_tags])`. */
  predicate HasExtremeTags(tags: seq<string>, extremeTags: set<string>)
  {
    exists i | 0 <= i < |tags| :: tags[i] in extremeTags
  }

  /** `is_extreme` as the source computes it: the flag, or (when there are tags) an
      extreme tag or the legacy extreme tag. */
  function IsExtreme(p: Props, tags: seq<string>, extremeTags: set<string>): bool
  {
    ExtremeFlag(p) || (tags != [] && (HasExtremeTags(tags, extremeTags) || "LEGACY-Extreme" in tags))
  }

  const LacksExtremeMsg: string := "Curation is extreme but lacks extreme tags."

  function ExtremeErrors(p: Props, tags: seq<string>, extremeTags: set<string>): seq<string>
  {
    if tags != [] && IsExtreme(p, tags, extremeTags) && !HasExtremeTags(tags, extremeTags)
    then [LacksExtremeMsg] else []
  }

  /** A curation is extreme exactly when `Extreme` is `"Yes"` or `True`, or a tag is
      extreme, or `LEGACY-Extreme` is a tag; it lacks extreme tags exactly when it is
      extreme, has tags and none of them is in the extreme set. */
  lemma ExtremeIff(p: Props, tags: seq<string>, extremeTags: set<string>)
    ensures IsExtreme(p, tags, extremeTags) <==>
      Get(p, "Extreme") == Str("Yes") || Get(p, "Extreme") == Bool(true)
      || (exists t :: t in tags && t in extremeTags) || "LEGACY-Extreme" in tags
    ensures ExtremeErrors(p, tags, extremeTags) != [] <==>
      tags != [] && IsExtreme(p, tags, extremeTags) && forall t :: t in tags ==> t !in extremeTags
  {
    if exists t :: t in tags && t in extremeTags {
      var t :| t in tags && t in extremeTags;
      var i :| 0 <= i < |tags| && tags[i] == t;
      assert HasExtremeTags(tags, extremeTags);
    }
    if HasExtremeTags(tags, extremeTags) {
      var i :| 0 <= i < |tags| && tags[i] in extremeTags;
      assert tags[i] in tags;
    }
  }

  /** A curation tagged only with `LEGACY-Extreme` is extreme and lacks extreme tags. */
  lemma LegacyTagAloneIsReported(p: Props, extremeTags: set<string>)
    requires "LEGACY-Extreme" !in extremeTags
    ensures IsExtreme(p, ["LEGACY-Extreme"], extremeTags)
    ensures ExtremeErrors(p, ["LEGACY-Extreme"], extremeTags) == [LacksExtremeMsg]
  {
    assert !HasExtremeTags(["LEGACY-Extreme"], extremeTags);
  }

  // ---------------------------------------------------------------------------------------
  // Curation type

  /** `CurationType` (curation_validator.py:22-25). */
  datatype CurationType = FlashGame | OtherGame | Animation

  /** The type: a `Library` containing `theatre` is an animation; otherwise a missing
      `Platform` or one containing `Flash` is a Flash game, and anything else another game.
      A non-string `Library` or `Platform` cannot be searched (an engine fault). */
  function CurationTypeOf(p: Props): Result<CurationType>
  {
    var lib := Get(p, "Library");
    if !lib.Null? && !lib.Str? then Fault
    else if lib.Str? && Contains(lib.s, "theatre") then Ok(Animation)
    else
      var platform := Get(p, "Platform");
      if platform.Null? then Ok(FlashGame)
      else if !platform.Str? then Fault
      else if Contains(platform.s, "Flash") then Ok(FlashGame)
      else Ok(OtherGame)
  }

  /** The classification by cases, for string-valued properties. */
  lemma CurationTypeCases(p: Props)
    requires forall k :: k in p ==> p[k].Str?
    ensures CurationTypeOf(p).Ok?
    ensures CurationTypeOf(p).value == Animation <==> "Library" in p && Contains(p["Library"].s, "theatre")
    ensures CurationTypeOf(p).value == FlashGame <==>
      !("Library" in p && Contains(p["Library"].s, "theatre"))
      && ("Platform" !in p || Contains(p["Platform"].s, "Flash"))
  {
  }

  // ---------------------------------------------------------------------------------------
  // All field rules together

  /** The outcome of the field rules: errors and warnings in the order the source appends
      them, the extreme flag and the curation type. */
  datatype FieldReport = FieldReport(
    errors: seq<string>,
    warnings: seq<string>,
    isExtreme: bool,
    curationType: CurationType)

  /** curation_validator.py:220-329 as a function of the properties and the reference data. */
  function CheckedFields(p: Props, refs: RefData): Result<FieldReport>
  {
    match LanguageErrors(p, refs.languages, refs.replacements)
    case Fault => Fault
    case Ok(langErrs) =>
      match LaunchCommandErrors(p, refs.launchCommands)
      case Fault => Fault
      case Ok(lcErrs) =>
        match TagsOf(p)
        case Fault => Fault
        case Ok(tags) =>
          match CurationTypeOf(p)
          case Fault => Fault
          case Ok(ct) =>
            var master := MasterTags(refs.tagFile, refs.tagWiki, refs.tagBluebot);
            Ok(FieldReport(
              ReleaseDateErrors(p) + langErrs + MandatoryErrors(p) + lcErrs
                + TagErrors(tags) + ExtremeErrors(p, tags, refs.extremeTags),
              TagWarnings(tags, master),
              IsExtreme(p, tags, refs.extremeTags),
              ct))
  }

  /** Properties read from a `.txt` meta file are all strings, and the field rules never
      fault on them. */
  lemma StringPropsNeverFault(p: Props, refs: RefData)
    requires forall k :: k in p ==> p[k].Str?
    ensures CheckedFields(p, refs).Ok?
  {
    CurationTypeCases(p);
  }

  /** With no tags the report has the "missing tags" error and no warnings; with tags it has
      exactly one warning per unknown tag. */
  lemma CheckedFieldsTags(p: Props, refs: RefData)
    requires CheckedFields(p, refs).Ok? && TagsOf(p).Ok?
    ensures TagsOf(p).value == [] ==>
      MissingTagsMsg in CheckedFields(p, refs).value.errors && CheckedFields(p, refs).value.warnings == []
    ensures forall t :: UnknownTagMsg(t) in CheckedFields(p, refs).value.warnings <==>
      t in TagsOf(p).value && t !in MasterTags(refs.tagFile, refs.tagWiki, refs.tagBluebot)
  {
    var tags := TagsOf(p).value;
    var master := MasterTags(refs.tagFile, refs.tagWiki, refs.tagBluebot);
    forall t ensures UnknownTagMsg(t) in CheckedFields(p, refs).value.warnings <==> t in tags && t !in master {
      if tags != [] {
        UnknownTagWarningsMention(tags, master, t);
      }
    }
  }

  /** curation_validator.py:220-329 step by step, proved against `CheckedFields`. */
  method CheckFields(p: Props, refs: RefData) returns (r: Result<FieldReport>)
    ensures r == CheckedFields(p, refs)
  {
    var errors := ReleaseDateErrors(p);
    var langErrs := [];
    var languages := Get(p, "Languages");
    if Truthy(languages) {
      if !languages.Str? {
        return Fault;
      }
      langErrs := CheckLanguages(languages.s, refs.languages, refs.replacements);
    }
    assert LanguageErrors(p, refs.languages, refs.replacements) == Ok(langErrs);
    errors := errors + langErrs;
    var mandatory := CheckMandatory(p);
    errors := errors + mandatory;
    var lc := LaunchCommandErrors(p, refs.launchCommands);
    if lc.Fault? {
      return Fault;
    }
    errors := errors + lc.value;
    var tagsOf := TagsOf(p);
    if tagsOf.Fault? {
      return Fault;
    }
    var tags := tagsOf.value;
    var tagErrs, warnings := CheckTags(tags, MasterTags(refs.tagFile, refs.tagWiki, refs.tagBluebot));
    errors := errors + tagErrs;
    errors := errors + ExtremeErrors(p, tags, refs.extremeTags);
    var ct := CurationTypeOf(p);
    if ct.Fault? {
      return Fault;
    }
    r := Ok(FieldReport(errors, warnings, IsExtreme(p, tags, refs.extremeTags), ct.value));
  }
}
