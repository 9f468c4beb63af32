# Curation Validation Bot, modelled in Dafny

The Flashpoint curation validation bot watches Discord channels for curation archives. It
checks each archive (`validate_curation`) and posts the problems it finds. This project
models that core in Dafny and proves properties of the model. Dafny 4.11 verifies it.

- **Validator** (`validator.dfy`) models `validate_curation`:
  - choosing the archive format and the 50 GB size limit;
  - the UUID-rooted and legacy folder layouts;
  - the logo, screenshot and content-folder checks, the `localflash` rules and the deny
    list of system files;
  - the YAML or legacy `.txt` meta file, the field rules and the collected images.
  
  The archive libraries, the file system and the YAML loader are replaced by the facts they
  report (`ArchiveFacts`). `ValidateCuration` is the imperative driver. It is proved equal
  to the specification function `Validate`.
- **Layout** (`layout.dfy`) models the path regular expressions as predicates. This covers
  the UUID-v4 folder name, the `(?i)` variants and the `/?$` endings.
- **MetaText** (`metatext.dfy`) models the legacy `.txt` meta parser:
  - `parse_lines_until_multiline` and `parse_multiline` as loop methods over a map;
  - the meta file's `readlines()` as a `MetaFile` class whose unread lines are consumed.
- **Rules** (`rules.dfy`) models the field rules: release date, languages (ISO 639-1),
  mandatory fields, launch command, tags, the extreme flag and the curation type.
- **Bot** (`bot.dfy`) models the Discord front end:
  - the attachment gate;
  - the reply text, the reactions and the reply channel;
  - `check-lc` and its normalisation;
  - the `batch-validate` window and limit.
- **Admin** (`admin.dfy`) models `find_modules_from_git`: the diffstat pattern, `splitext`,
  and the descending sort that makes deeper submodules reload first.
- **PyStrings** (`pystrings.dfy`) holds the Python `str` operations the source relies on:
  `strip`, `split`, `in`, `startswith`, `endswith`, `replace`, `count` and integer
  formatting.
- **Common** (`common.dfy`) holds the `Option` and `Result` types. `Result.Fault` stands for
  a Python exception the source does not catch.

Reference data is a parameter (`Rules.RefData`). It covers the language table, the
replacements, the three tag sources, the extreme tags, the master launch commands, the
system-file deny list and the common `localflash` names. The source reads these from JSON
files and web services.

## Model

| member | source | states |
|---|---|---|
| Validator.ValidateCuration | curation_validator.py:28-343 | The imperative driver returns exactly `Validate(a, refs)`: an outcome that lists every error, warning, extreme flag, curation type, props and image list the source returns, or a crash. |
| Validator.FormatOf | curation_validator.py:44-90 | The format is chosen by the file ending in the source's order: `.7z` first, then `.zip`, then `.rar`, otherwise unsupported. Each case is an iff. |
| Validator.OpenArchive | curation_validator.py:44-90 | Opening the archive equals the corrected `Opening` stage: the format, the size limit, the member list and extraction, with scratch tracking. |
| Validator.RarRejected | curation_validator.py:84-86 | A `.rar` archive yields only the `.rar` error, with no other fields and no scratch directory. |
| Validator.OtherFormatsOneError | curation_validator.py:84-90 | Any name not ending in `.7z` or `.zip` yields exactly one error, no warnings and no other fields. |
| Validator.OversizeWarned | curation_validator.py:49-54 | A size strictly above 50·10⁹ bytes yields only the "too large" warning. A size exactly at the limit goes on to extraction. |
| Validator.ExtractionFailureLeaksScratch | curation_validator.py:76-83 | As written, a zip that opens, fits and is listed, but whose `extractall` fails after `mkdtemp`, returns the zip error with its scratch directory left behind. The corrected model returns the same error without it. |
| Validator.FailureBeforeScratchLeavesNothing | curation_validator.py:56-83 | When the member list or `mkdtemp` itself fails, the archive error is returned and no scratch directory is left, even as written. |
| Validator.ValidateLeavesNoScratch | curation_validator.py:57-63 | In the corrected model, every returning path has cleaned up its scratch directory. |
| Validator.NothingFoundRejected | curation_validator.py:132-135 | When no logo, screenshot, content folder or meta matches, the result is only the structure error. |
| Validator.LocatedExactAmongFolded | curation_validator.py:103-130 | Every exact-case logo or screenshot match is also a case-insensitive match. |
| Validator.ImageErrorsCases | curation_validator.py:137-147 | The logo/screenshot check gives the case error iff some case-insensitive match is not an exact match. It gives the missing error iff there is no match at all, and no error iff there is an exact match and every folded match is exact. There is never more than one error. |
| Validator.ContentErrorsCases | curation_validator.py:150-156 | No content folder gives exactly "Content folder not found". Otherwise that message is absent, and the "no files" error appears iff the file count is zero. |
| Validator.LocalflashCases | curation_validator.py:158-172 | For `localflash`: more than one entry gives the "directly" error. A single file gives it too. A single folder gives the "common name" error iff its name is on the list. An empty folder gives nothing. |
| Validator.LocalflashScanStopsAtFile | curation_validator.py:165-172 | The scan stops at the first plain file: every message before the last is the common-name message. |
| Validator.LocalflashScanMessages | curation_validator.py:158-172 | The `localflash` rules only ever produce their two messages. |
| Validator.ScanLocalflash | curation_validator.py:165-172 | The loop with its `break` computes `LocalflashScan`. |
| Validator.CheckContent | curation_validator.py:150-172 | The content and `localflash` block computes `ContentErrors`. |
| Validator.DenyListErrorsMention | curation_validator.py:174-178 | The error for system file `n` is present iff `n` is deny-listed and is a substring of some member name. There is at most one error per deny-listed name. |
| Validator.CheckDenyList | curation_validator.py:174-178 | The nested loop computes `DenyListErrors`. |
| Validator.NoMetaDefaults | curation_validator.py:180-186 | With no meta file, the result carries the missing-meta error, `is_extreme` False, no curation type and empty props. |
| Validator.TxtMetaStage | curation_validator.py:206-213 | A `.txt` meta whose lines all contain a colon parses. Its props hold the empty key with an empty value. |
| Validator.StrProps | curation_validator.py:206-213 | Lifting parsed text props keeps exactly the same keys, each holding its string. |
| Validator.ProcessMeta | curation_validator.py:180-329 | The meta stage equals `MetaStage`: a YAML load outcome or a parse of the `.txt` file, then the field rules. |
| Validator.ImagesShape | curation_validator.py:331-340 | The images are the logo, when exactly one matches, followed by every screenshot in order. |
| Validator.CollectImages | curation_validator.py:331-340 | The loop computes `Images`. |
| Validator.AfterChecksNoScratch | curation_validator.py:132-343 | Every return after extraction cleans up. |
| Layout.Matching | curation_validator.py:107-130 | A list comprehension over a pattern keeps exactly the members that match, and never adds any. |
| Layout.UuidFolders | curation_validator.py:94-95 | It keeps exactly the members that are UUID-v4 folder names, with an optional trailing slash. |
| Layout.GrammarChoice | curation_validator.py:100-113 | UUID-rooted patterns are used iff some member is a UUID folder. |
| Layout.UuidHasNoSlash | curation_validator.py:94 | A UUID-v4 name contains no `/`. |
| Layout.UuidIgnoreCase | curation_validator.py:119-123 | A lower-case UUID also matches under `(?i)`. |
| Layout.ComposedPathMatches | curation_validator.py:101-130 | A matching root, a `/` and a matching tail match the pattern, also with the final newline `$` allows. |
| Layout.ExactImpliesFolded | curation_validator.py:103-123 | An exact logo or screenshot match is also a case-insensitive match. |
| Layout.UpperCaseUuidRootOnlyFolded | curation_validator.py:118-120 | A logo under an upper-case UUID folder matches only the `(?i)` pattern, so it draws the case error. |
| MetaText.SimpleEntry | curation_validator.py:419-421 | A simple line fails (`split[1]` raises) iff it has no colon. |
| MetaText.SimpleEntryFields | curation_validator.py:419-421 | The key is the space-stripped text before the first colon. The value is the space-stripped text between the first and second colon. |
| MetaText.SimpleRun | curation_validator.py:417-424 | The run of simple lines stops at the first line that is blank or contains `\|`. |
| MetaText.ParseLinesUntilMultiline | curation_validator.py:415-425 | The loop computes `SimpleLines`: the map updated line by line and the relative break index, or −1. |
| MetaText.ApplyEntriesStep | curation_validator.py:417-421 | One more line either fails the parse (no `:`) or adds its stripped key with its stripped value to the map built so far. |
| MetaText.ApplyEntriesFault | curation_validator.py:419-421 | Parsing the first `n` simple lines fails iff one of them has no colon. |
| MetaText.ApplyEntriesFaultStays | curation_validator.py:417-424 | A failure is never undone by later lines. |
| MetaText.ApplyEntriesKeys | curation_validator.py:421 | The keys are the old keys plus each parsed line's key. |
| MetaText.LaterLineWins | curation_validator.py:421 | A key holds the value of the last line that sets it. |
| MetaText.UnsetKeysUnchanged | curation_validator.py:421 | A key no line sets keeps its old value. |
| MetaText.ApplyEntriesPrefix | curation_validator.py:417-424 | The result depends only on the lines read so far. |
| MetaText.ColonEndsValue | curation_validator.py:419-421 | In `k:v:w`, everything after the second colon is dropped. |
| MetaText.ValueKeepsNewline | curation_validator.py:420 | `strip(' ')` keeps the line's trailing newline in the value. |
| MetaText.MultilineRun | curation_validator.py:432-443 | The multiline run stops at the first later line that does not start with a tab. |
| MetaText.ParseMultiline | curation_validator.py:428-445 | The loop computes `Multiline`: the key from the start line, then the tab-stripped continuation lines concatenated. |
| MetaText.MultilineOnNoLines | curation_validator.py:428-445 | With nothing left to read, the parser stores `"" ↦ ""` and returns −1. |
| MetaText.MultilineFromStart | curation_validator.py:433-444 | A key line followed by tab-indented lines stores the concatenated stripped lines under the key and returns −1. |
| MetaText.StripAll | curation_validator.py:439 | Each continuation line is stripped of spaces and tabs. |
| MetaText.MultilineRunAll | curation_validator.py:438-443 | With no break, the run reaches the end. |
| MetaText.MultilineValueTail | curation_validator.py:440 | The value is the concatenation of all stripped continuation lines. |
| MetaText.MultilineValuePrefix | curation_validator.py:440 | After `n` lines, the value is the concatenation of the first `n`. |
| MetaText.MetaFile.constructor | curation_validator.py:189 | An opened file has all its lines unread. |
| MetaText.MetaFile.ReadLines | curation_validator.py:209-211 | `readlines()` returns the unread lines and leaves nothing unread. |
| MetaText.ParseTxtMeta | curation_validator.py:206-213 | The `.txt` loop over the file equals `TxtMeta` of the file's lines, and consumes the file. |
| MetaText.ReadCount | curation_validator.py:209 | The first read consumes the leading run of simple lines. |
| MetaText.TxtMetaFault | curation_validator.py:206-213 | A `.txt` meta fails iff a line in its leading simple run has no colon. |
| MetaText.TxtMetaKeys | curation_validator.py:206-213 | The keys are those of the leading simple lines, the empty key, and `Tags` when `Genre` is present. |
| MetaText.TxtMetaEntries | curation_validator.py:211-213 | The empty key maps to `""`, and `Tags` is a copy of `Genre`. |
| MetaText.TxtMetaIgnoresRest | curation_validator.py:209-211 | Only the leading simple run matters, because the second `readlines()` call gets nothing. |
| Rules.DateBodyShape | curation_validator.py:226-227 | The date pattern accepts exactly `YYYY`, `YYYY-MM` and `YYYY-MM-DD`, where each `Y`, `M`, `D` is any Unicode decimal digit (category Nd), as `\d` is in a `str` pattern. |
| Rules.ArabicIndicYearMatches | curation_validator.py:226-227 | A year written in Arabic-Indic digits matches the date pattern, as its ASCII form does. |
| Rules.ReleaseDateErrorsIff | curation_validator.py:222-229 | The date error appears iff the value is truthy, its stripped text is non-empty, and it is not one of those shapes (in decimal digits of any script). It appears at most once. |
| Rules.LanguageTokensShape | curation_validator.py:238-239 | The language field splits into one more token than it has semicolons, none containing `;`. |
| Rules.IsoFormatErrorsMention | curation_validator.py:250-254 | An English name gives one "use the code" error for every table row whose name contains it. |
| Rules.EnglishNameGivesIsoError | curation_validator.py:250-254 | An exact English name always gets the error suggesting its own code. |
| Rules.NameOfIsAName | curation_validator.py:256-259 | The replacement's name is the table's English name for that code, or `""` when the code is unknown. |
| Rules.TokenErrorsCases | curation_validator.py:243-263 | Each token gets exactly the branch the source takes: valid or empty, comma, English name, replacement, or invalid code. |
| Rules.CodesListPasses | curation_validator.py:243-245 | A list of valid codes gives no language errors. |
| Rules.TokensErrorsAppend | curation_validator.py:243 | The errors for a list are the errors for its parts, in order. |
| Rules.CollectIsoFormatErrors | curation_validator.py:251-254 | The loop computes `IsoFormatErrors`. |
| Rules.FindLanguageName | curation_validator.py:256-259 | The loop keeps the last name whose code matches, as `NameOf` states. |
| Rules.CheckLanguages | curation_validator.py:237-263 | The language block computes the token errors of the split, stripped field. |
| Rules.CheckToken | curation_validator.py:243-263 | The branch chain for one token computes `TokenErrors`: a code or an empty token passes, a comma, an English name, a known replacement and any other text each draw their own message. |
| Rules.PresenceErrorsMention | curation_validator.py:277-282 | For any field list, a field's message appears iff the field is in the list and falsy. There are never more messages than fields. |
| Rules.MessageFieldOf | curation_validator.py:282 | Every message is a mandatory-field message for some field. |
| Rules.MandatoryMsgInjective | curation_validator.py:282 | Distinct fields get distinct messages. |
| Rules.MandatoryErrorsMention | curation_validator.py:277-282 | A field's mandatory error appears iff that field is mandatory and falsy. There is no error iff all are truthy. |
| Rules.CheckMandatory | curation_validator.py:277-282 | The check of the six mandatory fields computes `MandatoryErrors`. |
| Rules.CheckPresent | curation_validator.py:279-282 | The loop over the fields computes `PresenceErrors`. |
| Rules.LaunchCommandErrorsIff | curation_validator.py:284-289 | For a string launch command, the `https` error appears iff it contains `https`, and the duplicate error iff it is in the master list. |
| Rules.HttpsUrlIsRejected | curation_validator.py:284-285 | Every `https://` address trips the rule. |
| Rules.MasterTags | curation_validator.py:408-412 | The master tag list is the union of the three sources. |
| Rules.NonEmpty | curation_validator.py:298 | Filtering keeps exactly the non-empty tags. |
| Rules.TagsRoundTrip | curation_validator.py:296-298 | Joining clean tags with `;` and parsing them gives the same tags back. |
| Rules.NonEmptyKeepsAll | curation_validator.py:298 | Filtering changes nothing when no tag is empty. |
| Rules.UnknownTagWarningsMention | curation_validator.py:305-307 | A tag is warned about iff it is present and unknown. |
| Rules.KnownTagsNoWarnings | curation_validator.py:305-307 | Known tags give no warnings. |
| Rules.CheckTags | curation_validator.py:302-307 | The loop yields `TagErrors` and `TagWarnings`. |
| Rules.ExtremeIff | curation_validator.py:309-320 | A curation is extreme iff `Extreme` is `"Yes"` or `True`, some tag is an extreme tag, or `LEGACY-Extreme` is tagged. The "lacks extreme tags" error appears iff there are tags, the curation is extreme, and none of its tags is an extreme tag. |
| Rules.LegacyTagAloneIsReported | curation_validator.py:316-320 | The legacy tag alone marks the curation extreme and draws the error. |
| Rules.CurationTypeCases | curation_validator.py:322-329 | The type is animation iff the library contains `theatre`. Otherwise it is a Flash game iff the platform is missing or contains `Flash`. |
| Rules.StringPropsNeverFault | curation_validator.py:220-329 | Props whose values are all strings never make the field rules raise. |
| Rules.CheckedFieldsTags | curation_validator.py:296-307 | Within the combined rules, no tags means the missing-tags error and no warnings. An unknown-tag warning appears iff the tag is present and not a master tag. |
| Rules.CheckFields | curation_validator.py:220-329 | The rule block computes `CheckedFields`. |
| Bot.NormalizeLaunchCommand | bot.py:641-642 | The normal form is never longer and contains exactly the input's characters other than `"`, `'`, space and backtick. |
| Bot.NormalizeAppend | bot.py:641-642 | Normalisation distributes over concatenation. |
| Bot.NormalizeIsKeepUndropped | bot.py:641-642 | The four chained `replace` calls equal a single filter. |
| Bot.NormalizeIdempotent | bot.py:641-642 | Normalising twice equals normalising once. |
| Bot.ArgumentSplitIrrelevant | bot.py:644-648 | How the user's words were split into arguments does not matter: the joined and the concatenated forms normalise alike. |
| Bot.CheckLc | bot.py:644-654 | The reply is one of the two messages. It says "found" iff some master command normalises to the normalised concatenated arguments. |
| Bot.GateMatchesFormats | bot.py:77-94 | A message is validated iff it has exactly one attachment, in a watched channel, whose name the validator recognises as `.7z`, `.zip` or `.rar`. |
| Bot.LinesLength | bot.py:133-142 | Each message adds at least its prefix and newline. |
| Bot.LinesAppend | bot.py:133-142 | The error lines are followed by the warning lines. |
| Bot.ReplyShape | bot.py:121-142 | The reply is empty iff there are no errors and no warnings. Errors give the "invalid" header and every error and warning line. Warnings alone give the "might have some problems" header and the warning lines. |
| Bot.ComposeReply | bot.py:121-142 | The imperative composition computes `Reply`. |
| Bot.AppendLines | bot.py:133-142 | Appending a list of messages to a reply adds exactly one line per message, in order. |
| Bot.ReplyDestinationCases | bot.py:154-160 | Extreme curations go to the NSFW lounge, auditions to audition chat, everything else to bot alerts, and nothing to bot testing. |
| Bot.RespondMarks | bot.py:129-170 | A dry run does nothing. Otherwise 🤖 means no errors and no warnings, 🚫 means some, the reply is posted iff 🚫 is added, :extreme: means extreme, and the post goes to the routed channel with the composed reply. |
| Bot.CleanCurationReportedAsCrash | bot.py:101-114 | As written, even a clean curation takes the crash path. The corrected handler marks it 🤖. |
| Bot.HandleCases | bot.py:77-170 | The corrected handler ignores exactly the gated-out messages, answers every returned result by `Respond`, and crashes iff the validator crashed. |
| Bot.SliceTo | bot.py:296 | This is Python slicing `xs[start:stop]`, including negative and out-of-range ends. |
| Bot.Reverse | bot.py:293 | `reverse()` reverses in place, element by element. |
| Bot.BatchWindowShape | bot.py:291-296 | The window skips the oldest (hammer) message and holds the next `min(limit, n−1)` messages, oldest first. |
| Bot.AliasChannel | bot.py:361-369 | Only `flash`, `other` and `animation` name a channel, and never auditions. |
| Bot.StartBatchBounds | bot.py:360-373 | A batch starts iff the alias is known and `1 ≤ limit ≤ 500`. The window then holds at most 500 messages. |
| Admin.DigitRun | cogs/admin.py:65 | This is the `[0-9]+` run: the longest prefix of digits. |
| Admin.LineCapture | cogs/admin.py:65 | A captured file name is never empty and never contains `\|`. |
| Admin.FilterMapMembers | cogs/admin.py:68-78 | The kept results are exactly the images of inputs that map to something. |
| Admin.DiffstatLineCaptured | cogs/admin.py:65-68 | A diffstat line ` name \| n +-` captures exactly `name`. |
| Admin.PaddedStrip | cogs/admin.py:65 | The lazy group with `\s*` on both sides yields the stripped name. |
| Admin.CountAndSignsFollow | cogs/admin.py:65 | A count followed by `+`/`-` signs satisfies the pattern's tail. |
| Admin.DigitRunPrefix | cogs/admin.py:65 | The digit run ends at the first non-digit. |
| Admin.NoBarNoCapture | cogs/admin.py:65 | A line without `\|` captures nothing. |
| Admin.SplitExt | cogs/admin.py:71 | `splitext` splits the path into a root and an extension that concatenate back to the path. The extension is empty or is a final dot suffix with no `/`. A non-empty extension starts at the last dot, and some character other than a dot lies between the last `/` and it: leading dots of the last component stay in the root. |
| Admin.HiddenPyFileIsNoModule | cogs/admin.py:71-78 | `cogs/.py` splits into itself and an empty extension, so it yields no module. |
| Admin.SplitPyFile | cogs/admin.py:71-72 | `root.py` splits into `root` and `.py`. |
| Admin.ModuleOf | cogs/admin.py:71-78 | Only `.py` files whose root starts with `cogs/` give an entry. |
| Admin.ModuleOfShape | cogs/admin.py:75-78 | The entry's depth is not negative, and its name is the root with `/` replaced by `.`, so it starts with `cogs.`. |
| Admin.StrLessTransitive | cogs/admin.py:81 | The string order used by the tuple sort is transitive. |
| Admin.StrLessTotal | cogs/admin.py:81 | The string order is total on distinct strings. |
| Admin.StrLessIrreflexive | cogs/admin.py:81 | The string order is irreflexive. |
| Admin.AtLeastTransitive | cogs/admin.py:81 | The descending tuple order is transitive. |
| Admin.AtLeastTotal | cogs/admin.py:81 | The descending tuple order is total and antisymmetric. |
| Admin.Insert | cogs/admin.py:81 | Insertion adds exactly one element. |
| Admin.InsertSorted | cogs/admin.py:81 | Insertion keeps the sequence sorted in descending order. |
| Admin.SortDescending | cogs/admin.py:81 | `sort(reverse=True)` permutes its input. |
| Admin.SortDescendingSorted | cogs/admin.py:81 | The sorted result is in descending order. |
| Admin.SortedDeeperFirst | cogs/admin.py:80-81 | In the sorted list, deeper submodules come first. |
| Admin.SortedUnique | cogs/admin.py:81 | Two descending permutations of the same multiset are equal, so the sort's result is determined. |
| Admin.CollectModules | cogs/admin.py:69-78 | The loop computes `Modules`. |
| Admin.ModuleFor | cogs/admin.py:71-78 | For one changed file: a file whose extension is not `.py`, or whose root is not under `cogs/`, gives nothing; otherwise it gives the pair (slash count of the root minus one, the root with `/` replaced by `.`). |
| Admin.ModulesMembers | cogs/admin.py:68-78 | A module is collected exactly when some changed file maps to it. |
| Admin.FindModulesFromGit | cogs/admin.py:67-82 | The result is sorted in descending order and is a permutation of the modules of the captured files. An entry is present iff some captured file yields it. |
| PyStrings.StripIdempotent | curation_validator.py:239 | Stripping twice equals stripping once. |
| PyStrings.JoinSplit | curation_validator.py:238 | Splitting on a separator and joining with it gives the string back. |
| PyStrings.SplitJoin | curation_validator.py:296 | Joining separator-free parts and splitting gives the parts back. |
| PyStrings.DecimalRoundTrip | curation_validator.py:52 | The decimal text of a number reads back as that number. |
| PyStrings.LastIndexOf | cogs/admin.py:71 | This is the last occurrence of a character, or −1 when there is none. |

## Left out

- The archive libraries (`py7zr`, `zipfile`), `tempfile`, `os.walk`, `os.listdir` and `shutil` are out of scope: they are I/O. `ArchiveFacts` records what they report. Listing the members, `mkdtemp` and extraction (with `close`) are three flags, and whether the content match is a directory is another. A `close` that raises in the too-large branch is not modelled.
- The YAML loader is out of scope: it is a library. It becomes `YamlOutcome`. YAML sequences and mappings as field values are not modelled; scalars become `Str`, `Bool`, `Null` or `Other`.
- The network, the JSON data files and the `TTLCache` caching are out of scope: they are I/O. Their contents are the `RefData` parameter. The HTML parsing in `get_tag_list_wiki` is not modelled; its tags are one of the three parameters.
- `encode_image` (base64 of the file) is I/O. An image is modelled by its kind and member name.
- A UTF-8 decode error while reading a `.txt` meta is not modelled. It would raise.
- Admin.LineCapture: it captures at most one name per line, at the first `|`. The source's `findall` can match across a line break, retry at a later `|`, or match several times on one line. Those captures are not modelled.
- Layout.IsUuid4: for `(?i)`, only ASCII letters and `ſ`/`s` are folded; the other Unicode case folds of Python's `re` are not modelled.
- Rules.DateMatches (and so Rules.DateBodyShape, Rules.ReleaseDateErrorsIff): `\d` is the Nd table of Unicode 15.0, the one Python 3.12 ships. A Python built on another Unicode version accepts a slightly different set of digits.
- MetaText.SameIntObject: the `idx is starting_number` test holds when the two integers are equal and lie in CPython's small-integer cache [−5, 256]; equal values outside the cache are modelled as distinct objects, as CPython creates them. This rests on CPython's caching, which the language does not promise.
- The map `d` that the parse functions update in place is modelled by value. The caller always rebinds it, so aliasing is not observable.
- The Discord client is out of scope: it is external. Fetching history, saving attachments, sending, reacting, emoji lookup and `traceback` are replaced by values (`Response`, `Post`, `Handling`). The history scan behind `get_messages_without_bot_reaction_until_blue` is not modelled; its list is an input to `BatchWindow`.
- Removing the downloaded archive (`os.remove`) in the bot is not modelled. It is file-system I/O.
- Bot.Handle: it does not model a crash inside the reply code itself (after validation).
- The rest of `cogs/admin.py` is not part of this model: `run_process`, the reload commands, and the `is_submodule` reload loop in `_reload_all`. They call external processes and the bot's extension loader.
- The other files of the repository are not part of this model: `batch_validate.py`, `curation.py`, the JSON fetch scripts, and the other bot commands and cogs.
- `curation_validator_test.py` is not modelled. It calls `validate_curation` with an older signature.

## Findings

| source | as written | input that shows it | evidently intended | confidence | as-written member | corrected member |
|---|---|---|---|---|---|---|
| curation_validator.py:57-63, 77-83 | The scratch directory from `mkdtemp` is created before `extractall`. If extraction raises, the `except` branch returns without `archive_cleanup`, so the directory stays behind. | A `.zip` (or `.7z`) that opens and whose size is within the limit, but whose extraction raises (a corrupt member). | Every return after `mkdtemp` removes the scratch directory, as the later returns do. | not executed | Validator.ValidateAsWritten, Validator.ExtractionFailureLeaksScratch | Validator.Validate, Validator.ValidateLeavesNoScratch |
| bot.py:102 | `validate_curation` returns six values (curation_validator.py:343), but three names unpack them. That raises `ValueError`, so every validated message takes the crash branch: 💥 and an exception report to bot testing. | Any message that passes the gate, for example a clean `.zip` in the flash games channel. | Take the first three values (errors, warnings, `is_extreme`) and build the reply. | not executed | Bot.HandleAsWritten, Bot.CleanCurationReportedAsCrash | Bot.Handle, Bot.HandleCases |
