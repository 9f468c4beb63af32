/** `validate_curation` (curation_validator.py:28-343): opening the archive, the layout
    checks, the content and `localflash` checks, the deny list, the meta file and the field
    rules, and the images. The archive, the file system and the YAML loader are replaced by
    the facts they report (`ArchiveFacts`); the reference data by `RefData`. */
module Validator {
  import opened Common
  import opened PyStrings
  import opened Layout
  import opened MetaText
  import opened Rules

  /** `50 * 1000 * 1000 * 1000` bytes. */
  const MaxUncompressedSize: nat := 50 * 1000 * 1000 * 1000

  /** The archive format, by the file name's ending, checked in the same order as the source. */
  datatype Format = SevenZip | Zip | Rar | Unsupported

  function FormatOf(filename: string): (f: Format)
    ensures f == SevenZip <==> EndsWith(filename, ".7z")
    ensures f == Zip <==> !EndsWith(filename, ".7z") && EndsWith(filename, ".zip")
    ensures f == Rar <==> !EndsWith(filename, ".7z") && !EndsWith(filename, ".zip") && EndsWith(filename, ".rar")
  {
    if EndsWith(filename, ".7z") then SevenZip
    else if EndsWith(filename, ".zip") then Zip
    else if EndsWith(filename, ".rar") then Rar
    else Unsupported
  }

  /** One entry of the `localflash` folder and whether it is a plain file. */
  datatype Entry = Entry(name: string, isFile: bool)

  /** What `os.listdir` finds under the content folder: no `localflash`, a `localflash`
      that is not a directory (listing it raises), or its entries. */
  datatype Localflash = NoLocalflash | LocalflashNotDirectory | LocalflashDir(entries: seq<Entry>)

  /** The four outcomes of loading a YAML meta file, and a document that is not a mapping
      (the later `props.get` raises). */
  datatype YamlOutcome = YamlMapping(props: Rules.Props) | YamlEmpty | YamlError | YamlValueError | YamlNotMapping

  /** What the archive libraries and the file system report about one archive. */
  datatype ArchiveFacts = ArchiveFacts(
    filename: string,
    opens: bool,                 // the archive opens and its size can be read
    uncompressedSize: nat,
    members: seq<string>,        // `getnames()` / `namelist()`
    listsMembers: bool,          // `getnames()` / `namelist()` succeeds
    makesScratch: bool,          // `tempfile.mkdtemp` succeeds
    extracts: bool,              // `extractall` and `close` succeed
    contentIsDirectory: bool,    // the first content-folder match is a directory
    contentFileCount: nat,       // files anywhere under it
    localflash: Localflash,
    metaLines: seq<string>,      // a `.txt` meta file's lines
    metaYaml: YamlOutcome)       // a `.yaml`/`.yml` meta file's load outcome

  // ---------------------------------------------------------------------------------------
  // Messages

  const SevenZipProblemMsg: string := "There seems to a problem with your 7z file."
  const ZipProblemMsg: string := "There seems to a problem with your zip file."
  const RarMsg: string := "Curations must be either .zip or .7z, not .rar."
  const StructureMsg: string := "Logo, screenshot, content folder and meta not found. Is your curation structured properly?"
  const LogoCaseMsg: string := "Logo file extension must be lowercase."
  const LogoMissingMsg: string := "Logo file is either missing or its filename is incorrect."
  const ScreenshotCaseMsg: string := "Screenshot file extension must be lowercase."
  const ScreenshotMissingMsg: string := "Screenshot file is either missing or its filename is incorrect."
  const ContentNotFoundMsg: string := "Content folder not found."
  const NoContentFilesMsg: string := "No files found in content folder."
  const LocalflashDirectMsg: string := "Content must be in additional folder in localflash rather than in localflash directly."
  const LocalflashCommonMsg: string := "Extremely common localflash containing folder name, please change."
  const MissingMetaMsg: string := "Meta file is either missing or its filename is incorrect. Are you using Flashpoint Core for curating?"
  const EmptyMetaMsg: string := "The meta file seems to be empty."
  const YamlErrorMsg: string := "Unable to load meta YAML file"
  const InvalidDateMsg: string := "Invalid release date. Ensure entered date is valid."

  function UnsupportedMsg(filename: string): string
  {
    "file type of file '" + filename + "' not supported"
  }

  function TooLargeMsg(size: nat): string
  {
    "The archive is too large to be validated (`" + NatToDecimal(size / 1000000) + "MB/"
      + NatToDecimal(MaxUncompressedSize / 1000000) + "MB`)."
  }

  function SystemFileMsg(name: string): string
  {
    name + " file found in curation, please remove."
  }

  // ---------------------------------------------------------------------------------------
  // Results

  /** An image to show: the logo or a screenshot, identified by its member path (the
      base64 data read from the extracted file is not modelled). */
  datatype ImageKind = LogoImage | ScreenshotImage
  datatype Image = Image(kind: ImageKind, member: string)

  /** The six values `validate_curation` returns. */
  datatype ValidationResult = ValidationResult(
    errors: seq<string>,
    warnings: seq<string>,
    isExtreme: Option<bool>,
    curationType: Option<CurationType>,
    props: Option<Rules.Props>,
    images: Option<seq<Image>>)

  /** A return, and whether a scratch directory from `mkdtemp` is left on disk; or an
      exception that escapes (an engine fault). */
  datatype Outcome = Returned(result: ValidationResult, scratchLeft: bool) | Crashed

  /** An early return: only errors and warnings, the other four values `None`. */
  function Early(errors: seq<string>, warnings: seq<string>): ValidationResult
  {
    ValidationResult(errors, warnings, None, None, None, None)
  }

  // ---------------------------------------------------------------------------------------
  // Opening the archive (curation_validator.py:44-90)

  /** Either the validation stops here, or the archive is extracted into a scratch
      directory and the checks go on. */
  datatype Opened = Stop(result: ValidationResult, scratchLeft: bool) | Extracted

  /** The opening stage as the source has it: when `extractall` or `close` fails after
      `mkdtemp`, the `except` returns without removing the scratch directory; a failure of
      the member list or of `mkdtemp` itself comes before any directory exists. */
  function OpeningAsWritten(a: ArchiveFacts): Opened
  {
    match FormatOf(a.filename)
    case Rar => Stop(Early([RarMsg], []), false)
    case Unsupported => Stop(Early([UnsupportedMsg(a.filename)], []), false)
    case _ =>
      var problem := if FormatOf(a.filename) == SevenZip then SevenZipProblemMsg else ZipProblemMsg;
      if !a.opens then Stop(Early([problem], []), false)
      else if a.uncompressedSize > MaxUncompressedSize then Stop(Early([], [TooLargeMsg(a.uncompressedSize)]), false)
      else if !a.listsMembers || !a.makesScratch then Stop(Early([problem], []), false)
      else if !a.extracts then Stop(Early([problem], []), true)
      else Extracted
  }

  /** The opening stage with the scratch directory removed on that path too. */
  function Opening(a: ArchiveFacts): Opened
  {
    match OpeningAsWritten(a)
    case Stop(r, _) => Stop(r, false)
    case Extracted => Extracted
  }

  // ---------------------------------------------------------------------------------------
  // Layout, content, localflash, deny list (curation_validator.py:132-178)

  /** Nothing the validator looks for is there. */
  predicate NothingFound(l: Located)
  {
    |l.logo| == 0 && |l.ss| == 0 && |l.content| == 0 && |l.meta| == 0
  }

  /** `set(xs)`. */
  function Members(xs: seq<string>): set<string>
  {
    set m | m in xs
  }

  /** The logo or screenshot check: the case-insensitive matches must be the exact ones,
      and there must be one. */
  function ImageErrors(exact: seq<string>, folded: seq<string>, caseMsg: string, missingMsg: string): seq<string>
  {
    if Members(exact) != Members(folded) then [caseMsg]
    else if |exact| == 0 then [missingMsg]
    else []
  }

  /** When the exact matches are among the case-insensitive ones, the check reports an
      upper-case name exactly when some case-insensitive match is not exact, a missing file
      exactly when there is no match at all, and nothing otherwise. */
  lemma ImageErrorsCases(exact: seq<string>, folded: seq<string>, caseMsg: string, missingMsg: string)
    requires caseMsg != missingMsg
    requires forall m :: m in exact ==> m in folded
    ensures |ImageErrors(exact, folded, caseMsg, missingMsg)| <= 1
    ensures ImageErrors(exact, folded, caseMsg, missingMsg) == [caseMsg] <==> exists m :: m in folded && m !in exact
    ensures ImageErrors(exact, folded, caseMsg, missingMsg) == [missingMsg] <==> folded == []
    ensures ImageErrors(exact, folded, caseMsg, missingMsg) == [] <==> exact != [] && forall m :: m in folded ==> m in exact
  {
    assert [caseMsg][0] == caseMsg && [missingMsg][0] == missingMsg;
    if exists m :: m in folded && m !in exact {
      var w :| w in folded && w !in exact;
      assert w in Members(folded) && w !in Members(exact);
      assert folded != [];
    } else {
      assert Members(exact) == Members(folded);
      if exact != [] {
        assert exact[0] in exact;
      }
      if folded != [] {
        assert folded[0] in folded;
      }
    }
  }

  /** The located exact logo and screenshot matches are among the case-insensitive ones. */
  lemma LocatedExactAmongFolded(ms: seq<string>)
    ensures forall m :: m in Locate(ms).logo ==> m in Locate(ms).logoCase
    ensures forall m :: m in Locate(ms).ss ==> m in Locate(ms).ssCase
  {
    var l := Locate(ms);
    forall m | m in l.logo ensures m in l.logoCase {
      ExactImpliesFolded(m, l.grammar, LogoFile);
    }
    forall m | m in l.ss ensures m in l.ssCase {
      ExactImpliesFolded(m, l.grammar, ScreenshotFile);
    }
  }

  function LogoErrors(l: Located): seq<string>
  {
    ImageErrors(l.logo, l.logoCase, LogoCaseMsg, LogoMissingMsg)
  }

  function ScreenshotErrors(l: Located): seq<string>
  {
    ImageErrors(l.ss, l.ssCase, ScreenshotCaseMsg, ScreenshotMissingMsg)
  }

  /** The loop over the `localflash` entries: a plain file gives the "directly" error and
      stops the loop; a folder with an overused name gives the "common name" error. */
  function LocalflashScan(entries: seq<Entry>, common: set<string>): seq<string>
  {
    if |entries| == 0 then []
    else if entries[0].isFile then [LocalflashDirectMsg]
    else (if entries[0].name in common then [LocalflashCommonMsg] else []) + LocalflashScan(entries[1..], common)
  }

  /** The `localflash` check: more than one entry is an error by itself. */
  function LocalflashErrors(lf: Localflash, common: set<string>): Result<seq<string>>
  {
    match lf
    case NoLocalflash => Ok([])
    case LocalflashNotDirectory => Fault
    case LocalflashDir(entries) => Ok(if |entries| > 1 then [LocalflashDirectMsg] else LocalflashScan(entries, common))
  }

  /** The four `localflash` cases: none, too many, a bare file, a folder with an overused
      name (or any other folder). */
  lemma LocalflashCases(entries: seq<Entry>, common: set<string>)
    ensures LocalflashErrors(LocalflashDir([]), common) == Ok([])
    ensures |entries| > 1 ==> LocalflashErrors(LocalflashDir(entries), common) == Ok([LocalflashDirectMsg])
    ensures |entries| == 1 && entries[0].isFile ==> LocalflashErrors(LocalflashDir(entries), common) == Ok([LocalflashDirectMsg])
    ensures |entries| == 1 && !entries[0].isFile ==>
      LocalflashErrors(LocalflashDir(entries), common) == Ok(if entries[0].name in common then [LocalflashCommonMsg] else [])
  {
    if |entries| == 1 && !entries[0].isFile {
      assert LocalflashScan(entries[1..], common) == [];
      var head: seq<string> := if entries[0].name in common then [LocalflashCommonMsg] else [];
      assert LocalflashScan(entries, common) == head + [];
      assert head + [] == head;
    }
  }

  /** The loop stops at the first plain file: a scan reports at most one "directly" error,
      and it is the last one. */
  lemma {:induction false} LocalflashScanStopsAtFile(entries: seq<Entry>, common: set<string>)
    ensures forall i :: 0 <= i < |LocalflashScan(entries, common)| - 1 ==> LocalflashScan(entries, common)[i] == LocalflashCommonMsg
  {
    if |entries| > 0 && !entries[0].isFile {
      LocalflashScanStopsAtFile(entries[1..], common);
    }
  }

  /** The content check (curation_validator.py:150-171). */
  function ContentErrors(a: ArchiveFacts, l: Located, common: set<string>): Result<seq<string>>
  {
    if |l.content| == 0 then Ok([ContentNotFoundMsg])
    else
      var empty := if a.contentFileCount == 0 then [NoContentFilesMsg] else [];
      if !a.contentIsDirectory then Fault
      else
        match LocalflashErrors(a.localflash, common)
        case Fault => Fault
        case Ok(lf) => Ok(empty + lf)
  }

  /** The content errors start with "not found" when there is no content folder, or with
      "no files" exactly when the folder is present and empty. */
  lemma ContentErrorsCases(a: ArchiveFacts, l: Located, common: set<string>)
    ensures |l.content| == 0 ==> ContentErrors(a, l, common) == Ok([ContentNotFoundMsg])
    ensures |l.content| > 0 && ContentErrors(a, l, common).Ok? ==>
      ContentNotFoundMsg !in ContentErrors(a, l, common).value
      && (NoContentFilesMsg in ContentErrors(a, l, common).value <==> a.contentFileCount == 0)
  {
    if |l.content| > 0 && ContentErrors(a, l, common).Ok? {
      var lf := LocalflashErrors(a.localflash, common).value;
      LocalflashScanMessages(a.localflash, common);
      assert |NoContentFilesMsg| != |LocalflashDirectMsg| && |NoContentFilesMsg| != |LocalflashCommonMsg|;
      assert |ContentNotFoundMsg| != |LocalflashDirectMsg| && |ContentNotFoundMsg| != |LocalflashCommonMsg|;
    }
  }

  /** The `localflash` check only ever reports its two messages. */
  lemma LocalflashScanMessages(lf: Localflash, common: set<string>)
    requires LocalflashErrors(lf, common).Ok?
    ensures forall e :: e in LocalflashErrors(lf, common).value ==> e == LocalflashDirectMsg || e == LocalflashCommonMsg
  {
    if lf.LocalflashDir? && |lf.entries| <= 1 {
      ScanMessages(lf.entries, common);
    }
  }

  lemma {:induction false} ScanMessages(entries: seq<Entry>, common: set<string>)
    ensures forall e :: e in LocalflashScan(entries, common) ==> e == LocalflashDirectMsg || e == LocalflashCommonMsg
  {
    if |entries| > 0 && !entries[0].isFile {
      ScanMessages(entries[1..], common);
    }
  }

  /** `any(name in s for s in filenames)`. */
  predicate Mentioned(name: string, members: seq<string>)
  {
    exists i | 0 <= i < |members| :: Contains(members[i], name)
  }

  /** One error per deny-listed name that occurs in some member path, in list order. */
  function DenyListErrors(names: seq<string>, members: seq<string>): seq<string>
  {
    if |names| == 0 then []
    else
      var n := names[|names| - 1];
      DenyListErrors(names[..|names| - 1], members) + (if Mentioned(n, members) then [SystemFileMsg(n)] else [])
  }

  /** The error for `n` is there exactly when `n` is deny-listed and occurs in a member
      path; there is at most one error per name. */
  lemma {:induction false} DenyListErrorsMention(names: seq<string>, members: seq<string>, n: string)
    ensures SystemFileMsg(n) in DenyListErrors(names, members) <==> n in names && Mentioned(n, members)
    ensures |DenyListErrors(names, members)| <= |names|
  {
    if |names| > 0 {
      var pre := names[..|names| - 1];
      var last := names[|names| - 1];
      DenyListErrorsMention(pre, members, n);
      assert names == pre + [last];
      if SystemFileMsg(n) == SystemFileMsg(last) {
        assert "" + n == n && "" + last == last;
        WrapInjective("", n, last, " file found in curation, please remove.");
      }
    }
  }

  /** The logo image when exactly one logo matched, then one image per screenshot match. */
  function Images(l: Located): seq<Image>
  {
    (if |l.logo| == 1 then [Image(LogoImage, l.logo[0])] else [])
    + seq(|l.ss|, i requires 0 <= i < |l.ss| => Image(ScreenshotImage, l.ss[i]))
  }

  /** The images: a logo image exactly when one logo matched, and the screenshots in
      match order. */
  lemma ImagesShape(l: Located)
    ensures var imgs := Images(l); var k := if |l.logo| == 1 then 1 else 0;
      |imgs| == k + |l.ss|
      && (k == 1 ==> imgs[0] == Image(LogoImage, l.logo[0]))
      && (forall i :: 0 <= i < |l.ss| ==> imgs[k + i] == Image(ScreenshotImage, l.ss[i]))
      && (forall i :: k <= i < |imgs| ==> imgs[i].kind == ScreenshotImage)
  {
  }

  // ---------------------------------------------------------------------------------------
  // The meta file (curation_validator.py:180-218)

  /** The meta stage: it faults, stops early with an error, or yields its errors, warnings,
      extreme flag, curation type and properties. */
  datatype MetaOutcome =
    | MetaFault
    | MetaStop(errors: seq<string>)
    | MetaDone(errors: seq<string>, warnings: seq<string>, isExtreme: bool, curationType: Option<CurationType>, props: Rules.Props)

  /** The `.txt` properties as meta values: all strings. */
  function StrProps(m: map<string, string>): (p: Rules.Props)
    ensures p.Keys == m.Keys
    ensures forall k :: k in p ==> p[k] == Str(m[k])
  {
    map k | k in m :: Str(m[k])
  }

  function FieldsOutcome(p: Rules.Props, refs: RefData): MetaOutcome
  {
    match CheckedFields(p, refs)
    case Fault => MetaFault
    case Ok(r) => MetaDone(r.errors, r.warnings, r.isExtreme, Some(r.curationType), p)
  }

  function MetaStage(a: ArchiveFacts, l: Located, refs: RefData): MetaOutcome
  {
    if |l.meta| == 0 then MetaDone([MissingMetaMsg], [], false, None, map[])
    else
      var name := l.meta[0];
      if EndsWith(name, ".yml") || EndsWith(name, ".yaml") then
        match a.metaYaml
        case YamlEmpty => MetaStop([EmptyMetaMsg])
        case YamlError => MetaStop([YamlErrorMsg])
        case YamlValueError => MetaStop([InvalidDateMsg])
        case YamlNotMapping => MetaFault
        case YamlMapping(m) => FieldsOutcome(m, refs)
      else if EndsWith(name, ".txt") then
        match TxtMeta(a.metaLines)
        case Fault => MetaFault
        case Ok(m) => FieldsOutcome(StrProps(m), refs)
      else MetaStop([MissingMetaMsg])
  }

  /** A `.txt` meta file whose lines all have a colon never faults, and its properties
      hold the empty key that `parse_multiline` adds. */
  lemma TxtMetaStage(a: ArchiveFacts, l: Located, refs: RefData)
    requires |l.meta| > 0 && EndsWith(l.meta[0], ".txt")
    requires !EndsWith(l.meta[0], ".yml") && !EndsWith(l.meta[0], ".yaml")
    requires forall i :: 0 <= i < |a.metaLines| ==> ':' in a.metaLines[i]
    ensures MetaStage(a, l, refs).MetaDone?
    ensures "" in MetaStage(a, l, refs).props && MetaStage(a, l, refs).props[""] == Str("")
  {
    TxtMetaFault(a.metaLines);
    var m := TxtMeta(a.metaLines).value;
    TxtMetaEntries(a.metaLines);
    StringPropsNeverFault(StrProps(m), refs);
  }

  // ---------------------------------------------------------------------------------------
  // The whole validation

  /** The return after the meta stage, given the errors found before it. */
  function Finish(errs: seq<string>, m: MetaOutcome, images: seq<Image>): Outcome
  {
    match m
    case MetaFault => Crashed
    case MetaStop(e) => Returned(Early(errs + e, []), false)
    case MetaDone(e, w, ext, ct, props) =>
      Returned(ValidationResult(errs + e, w, Some(ext), ct, Some(props), Some(images)), false)
  }

  /** The checks after extraction, given the located members and the outcomes of the
      content check, the deny list and the meta stage. */
  function AfterChecks(l: Located, content: Result<seq<string>>, deny: seq<string>, m: MetaOutcome): Outcome
  {
    if NothingFound(l) then Returned(Early([StructureMsg], []), false)
    else
      match content
      case Fault => Crashed
      case Ok(c) => Finish(LogoErrors(l) + ScreenshotErrors(l) + c + deny, m, Images(l))
  }

  /** Everything after a successful extraction; each return removes the scratch directory. */
  function AfterExtraction(a: ArchiveFacts, refs: RefData): Outcome
  {
    var l := Locate(a.members);
    AfterChecks(l, ContentErrors(a, l, refs.commonLocalflash), DenyListErrors(refs.systemFiles, a.members), MetaStage(a, l, refs))
  }

  /** No return after extraction leaves the scratch directory. This holds by construction:
      `AfterChecks` and `Finish` return `false` for it on every path. The step-by-step
      tracking of the directory through the source's control flow is in `ValidateCuration`,
      which is proved equal to `Validate`. */
  lemma AfterChecksNoScratch(l: Located, content: Result<seq<string>>, deny: seq<string>, m: MetaOutcome)
    ensures AfterChecks(l, content, deny, m).Returned? ==> !AfterChecks(l, content, deny, m).scratchLeft
  {
  }

  /** `validate_curation` with the scratch directory removed when extraction fails. */
  function Validate(a: ArchiveFacts, refs: RefData): Outcome
  {
    match Opening(a)
    case Stop(r, left) => Returned(r, left)
    case Extracted => AfterExtraction(a, refs)
  }

  /** `validate_curation` as written. */
  function ValidateAsWritten(a: ArchiveFacts, refs: RefData): Outcome
  {
    match OpeningAsWritten(a)
    case Stop(r, left) => Returned(r, left)
    case Extracted => AfterExtraction(a, refs)
  }

  /** A `.rar` file gets exactly the `.rar` error. */
  lemma RarRejected(a: ArchiveFacts, refs: RefData)
    requires FormatOf(a.filename) == Rar
    ensures Validate(a, refs) == Returned(Early([RarMsg], []), false)
  {
  }

  /** Anything but `.7z` and `.zip` gets exactly one error and no warning, and nothing else. */
  lemma OtherFormatsOneError(a: ArchiveFacts, refs: RefData)
    requires !EndsWith(a.filename, ".7z") && !EndsWith(a.filename, ".zip")
    ensures Validate(a, refs).Returned?
    ensures var r := Validate(a, refs).result;
      |r.errors| == 1 && r.warnings == [] && r == Early(r.errors, [])
  {
  }

  /** An archive that opens and is strictly larger than 50 GB gets no error and exactly
      the size warning; one of exactly 50 GB goes on. */
  lemma OversizeWarned(a: ArchiveFacts, refs: RefData)
    requires FormatOf(a.filename) == SevenZip || FormatOf(a.filename) == Zip
    requires a.opens
    ensures a.uncompressedSize > MaxUncompressedSize ==>
      Validate(a, refs) == Returned(Early([], [TooLargeMsg(a.uncompressedSize)]), false)
    ensures a.uncompressedSize == MaxUncompressedSize && a.listsMembers && a.makesScratch && a.extracts ==>
      Validate(a, refs) == AfterExtraction(a, refs)
  {
  }

  /** An archive with none of logo, screenshot, content folder and meta gets exactly the
      structure error. */
  lemma NothingFoundRejected(a: ArchiveFacts, refs: RefData)
    requires Opening(a).Extracted?
    requires NothingFound(Locate(a.members))
    ensures Validate(a, refs) == Returned(Early([StructureMsg], []), false)
  {
  }

  /** Without a meta file the curation is not extreme, has no type and empty properties,
      and the missing-meta error is reported. */
  lemma NoMetaDefaults(a: ArchiveFacts, refs: RefData)
    requires Opening(a).Extracted?
    requires |Locate(a.members).meta| == 0 && !NothingFound(Locate(a.members))
    requires Validate(a, refs).Returned?
    ensures var r := Validate(a, refs).result;
      r.isExtreme == Some(false) && r.curationType == None && r.props == Some(map[])
      && MissingMetaMsg in r.errors
  {
    var l := Locate(a.members);
    assert MetaStage(a, l, refs) == MetaDone([MissingMetaMsg], [], false, None, map[]);
    var errs := LogoErrors(l) + ScreenshotErrors(l) + ContentErrors(a, l, refs.commonLocalflash).value
      + DenyListErrors(refs.systemFiles, a.members);
    assert Validate(a, refs).result.errors == errs + [MissingMetaMsg];
  }

  /** A normal return never leaves the scratch directory behind. For the specification
      function this holds by construction (`Opening` and `AfterChecks` return `false` for it
      on every path); what it says about the program is carried by `OpenArchive` and
      `ValidateCuration`, which set and clear the directory where the corrected source
      creates and removes it, and are proved equal to `Opening` and `Validate`. */
  lemma ValidateLeavesNoScratch(a: ArchiveFacts, refs: RefData)
    requires Validate(a, refs).Returned?
    ensures !Validate(a, refs).scratchLeft
  {
    if Opening(a).Extracted? {
      var l := Locate(a.members);
      AfterChecksNoScratch(l, ContentErrors(a, l, refs.commonLocalflash), DenyListErrors(refs.systemFiles, a.members), MetaStage(a, l, refs));
    }
  }

  /** As written, an archive that opens, fits and is listed, but fails to extract after
      `mkdtemp`, returns the archive error and leaves the scratch directory behind. */
  lemma ExtractionFailureLeaksScratch(a: ArchiveFacts, refs: RefData)
    requires FormatOf(a.filename) == Zip
    requires a.opens && a.uncompressedSize <= MaxUncompressedSize
    requires a.listsMembers && a.makesScratch && !a.extracts
    ensures ValidateAsWritten(a, refs) == Returned(Early([ZipProblemMsg], []), true)
    ensures Validate(a, refs) == Returned(Early([ZipProblemMsg], []), false)
  {
  }

  /** A failure of the member list or of `mkdtemp` comes before any scratch directory
      exists: even as written, the archive error is returned and nothing is left. */
  lemma FailureBeforeScratchLeavesNothing(a: ArchiveFacts, refs: RefData)
    requires FormatOf(a.filename) == SevenZip || FormatOf(a.filename) == Zip
    requires a.opens && a.uncompressedSize <= MaxUncompressedSize
    requires !a.listsMembers || !a.makesScratch
    ensures var problem := if FormatOf(a.filename) == SevenZip then SevenZipProblemMsg else ZipProblemMsg;
      ValidateAsWritten(a, refs) == Returned(Early([problem], []), false)
      && Validate(a, refs) == ValidateAsWritten(a, refs)
  {
  }

  // ---------------------------------------------------------------------------------------
  // The imperative validation

  /** The `localflash` loop (curation_validator.py:166-171), proved against `LocalflashScan`. */
  method ScanLocalflash(entries: seq<Entry>, common: set<string>) returns (errs: seq<string>)
    ensures errs == LocalflashScan(entries, common)
  {
    errs := [];
    var i := 0;
    while i < |entries|
      invariant 0 <= i <= |entries|
      invariant errs + LocalflashScan(entries[i..], common) == LocalflashScan(entries, common)
    {
      if entries[i].isFile {
        errs := errs + [LocalflashDirectMsg];
        break;
      } else if entries[i].name in common {
        errs := errs + [LocalflashCommonMsg];
      }
      assert entries[i..][1..] == entries[i + 1..];
      i := i + 1;
    }
  }

  /** The content check (curation_validator.py:150-171), proved against `ContentErrors`. */
  method CheckContent(a: ArchiveFacts, l: Located, common: set<string>) returns (r: Result<seq<string>>)
    ensures r == ContentErrors(a, l, common)
  {
    if |l.content| == 0 {
      return Ok([ContentNotFoundMsg]);
    }
    var errs: seq<string> := [];
    if a.contentFileCount == 0 {
      errs := errs + [NoContentFilesMsg];
    }
    assert errs == if a.contentFileCount == 0 then [NoContentFilesMsg] else [];
    if !a.contentIsDirectory {
      return Fault;
    }
    match a.localflash {
      case NoLocalflash =>
        assert errs + [] == errs;
      case LocalflashNotDirectory =>
        return Fault;
      case LocalflashDir(entries) =>
        ghost var lf := if |entries| > 1 then [LocalflashDirectMsg] else LocalflashScan(entries, common);
        assert LocalflashErrors(a.localflash, common) == Ok(lf);
        if |entries| > 1 {
          errs := errs + [LocalflashDirectMsg];
        } else {
          var scan := ScanLocalflash(entries, common);
          errs := errs + scan;
        }
        assert errs == (if a.contentFileCount == 0 then [NoContentFilesMsg] else []) + lf;
    }
    return Ok(errs);
  }

  /** The deny-list loop (curation_validator.py:173-178), proved against `DenyListErrors`. */
  method CheckDenyList(names: seq<string>, members: seq<string>) returns (errs: seq<string>)
    ensures errs == DenyListErrors(names, members)
  {
    errs := [];
    var n := 0;
    while n < |names|
      invariant 0 <= n <= |names|
      invariant errs == DenyListErrors(names[..n], members)
    {
      var name := names[n];
      var found := false;
      var j := 0;
      while j < |members| && !found
        invariant 0 <= j <= |members|
        invariant found <==> exists i | 0 <= i < j :: Contains(members[i], name)
      {
        found := Contains(members[j], name);
        j := j + 1;
      }
      assert found <==> Mentioned(name, members);
      if found {
        errs := errs + [SystemFileMsg(name)];
      }
      assert names[..n + 1][..n] == names[..n];
      n := n + 1;
    }
    assert names[..|names|] == names;
  }

  /** The image list (curation_validator.py:333-340), proved against `Images`. */
  method CollectImages(l: Located) returns (images: seq<Image>)
    ensures images == Images(l)
  {
    images := [];
    if |l.logo| == 1 {
      images := images + [Image(LogoImage, l.logo[0])];
    }
    ghost var k := |images|;
    var i := 0;
    while i < |l.ss|
      invariant 0 <= i <= |l.ss|
      invariant |images| == k + i
      invariant k == (if |l.logo| == 1 then 1 else 0)
      invariant k == 1 ==> images[0] == Image(LogoImage, l.logo[0])
      invariant forall j :: 0 <= j < i ==> images[k + j] == Image(ScreenshotImage, l.ss[j])
    {
      images := images + [Image(ScreenshotImage, l.ss[i])];
      i := i + 1;
    }
  }

  /** The meta stage (curation_validator.py:180-218), proved against `MetaStage`. */
  method ProcessMeta(a: ArchiveFacts, l: Located, refs: RefData) returns (r: MetaOutcome)
    ensures r == MetaStage(a, l, refs)
  {
    if |l.meta| == 0 {
      return MetaDone([MissingMetaMsg], [], false, None, map[]);
    }
    var name := l.meta[0];
    var props: Rules.Props;
    if EndsWith(name, ".yml") || EndsWith(name, ".yaml") {
      match a.metaYaml
      case YamlEmpty =>
        return MetaStop([EmptyMetaMsg]);
      case YamlError =>
        return MetaStop([YamlErrorMsg]);
      case YamlValueError =>
        return MetaStop([InvalidDateMsg]);
      case YamlNotMapping =>
        return MetaFault;
      case YamlMapping(m) =>
        props := m;
    } else if EndsWith(name, ".txt") {
      var file := new MetaFile(a.metaLines);
      var parsed := ParseTxtMeta(file);
      if parsed.Fault? {
        return MetaFault;
      }
      props := StrProps(parsed.value);
    } else {
      return MetaStop([MissingMetaMsg]);
    }
    var report := CheckFields(props, refs);
    if report.Fault? {
      return MetaFault;
    }
    var rep := report.value;
    return MetaDone(rep.errors, rep.warnings, rep.isExtreme, Some(rep.curationType), props);
  }

  /** Opening and extracting the archive (curation_validator.py:44-90), with the scratch
      directory tracked: `mkdtemp` creates it, and the `except` branch removes it. Proved
      against `Opening`. */
  method OpenArchive(a: ArchiveFacts) returns (r: Opened)
    ensures r == Opening(a)
  {
    var errors: seq<string> := [];
    var warnings: seq<string> := [];
    var scratchLive := false;
    var format := FormatOf(a.filename);
    if format == SevenZip || format == Zip {
      var problem := if format == SevenZip then SevenZipProblemMsg else ZipProblemMsg;
      if !a.opens {
        errors := errors + [problem];
        return Stop(Early(errors, warnings), scratchLive);
      }
      if a.uncompressedSize > MaxUncompressedSize {
        warnings := warnings + [TooLargeMsg(a.uncompressedSize)];
        return Stop(Early(errors, warnings), scratchLive);
      }
      if !a.listsMembers {
        errors := errors + [problem];
        return Stop(Early(errors, warnings), scratchLive);
      }
      if !a.makesScratch {
        errors := errors + [problem];
        return Stop(Early(errors, warnings), scratchLive);
      }
      scratchLive := true;
      if !a.extracts {
        errors := errors + [problem];
        scratchLive := false;
        return Stop(Early(errors, warnings), scratchLive);
      }
      return Extracted;
    } else if format == Rar {
      errors := errors + [RarMsg];
      return Stop(Early(errors, warnings), scratchLive);
    } else {
      errors := errors + [UnsupportedMsg(a.filename)];
      return Stop(Early(errors, warnings), scratchLive);
    }
  }

  /** `validate_curation`, step by step: after extraction the scratch directory is live
      until `archive_cleanup` removes it on each return. Proved against `Validate`. */
  method ValidateCuration(a: ArchiveFacts, refs: RefData) returns (o: Outcome)
    ensures o == Validate(a, refs)
  {
    var start := OpenArchive(a);
    if start.Stop? {
      return Returned(start.result, start.scratchLeft);
    }
    var errors: seq<string> := [];
    var warnings: seq<string> := [];
    var scratchLive := true;

    var l := Locate(a.members);
    if NothingFound(l) {
      errors := errors + [StructureMsg];
      assert errors == [StructureMsg];
      scratchLive := false;
      return Returned(Early(errors, warnings), scratchLive);
    }
    errors := errors + LogoErrors(l);
    assert errors == LogoErrors(l);
    errors := errors + ScreenshotErrors(l);
    var content := CheckContent(a, l, refs.commonLocalflash);
    if content.Fault? {
      return Crashed;
    }
    errors := errors + content.value;
    var deny := CheckDenyList(refs.systemFiles, a.members);
    errors := errors + deny;
    assert errors == LogoErrors(l) + ScreenshotErrors(l) + content.value + deny;

    var meta := ProcessMeta(a, l, refs);
    match meta {
      case MetaFault =>
        o := Crashed;
      case MetaStop(e) =>
        errors := errors + e;
        scratchLive := false;
        o := Returned(Early(errors, warnings), scratchLive);
      case MetaDone(e, w, ext, ct, props) =>
        errors := errors + e;
        warnings := warnings + w;
        assert warnings == w;
        var images := CollectImages(l);
        scratchLive := false;
        o := Returned(ValidationResult(errors, warnings, Some(ext), ct, Some(props), Some(images)), scratchLive);
    }
    assert o == AfterChecks(l, content, deny, meta);
  }
}
