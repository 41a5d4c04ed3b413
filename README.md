# State SNAP data-collection scripts, modelled in Dafny

The repository collects data on the administrative burden of applying for
SNAP in each U.S. state. There are four scripts:

- `setup.py` checks the list of states. It lays out one data folder per
  state, holding a placeholder `agent_output.md` and a skeleton
  `metadata.json`.
- `generate_prompts.py` renders one browsing prompt per state from a
  template.
- `download_assets.py` reads each state's filled-in agent report. It pulls
  out the pages and downloadable forms the report lists, names and places
  each file, and tallies the download statuses.
- `parse_outputs.py` turns each agent report into a structured metadata
  record with warnings and errors. Its batch loop folds the outcomes into
  totals and a parse log.

This project models the text-processing core of those scripts in Dafny
and proves properties of it. The modules are:

| module | file | models |
|---|---|---|
| `StrOps` | strops.dfy | Python `str` operations the scripts rely on (strip, lower/upper, split/join, find, `splitlines`), over ASCII |
| `Normalizer` | normalizer.dfy | `normalize`, `to_bool`, and the first-integer rule `re.search(r'\d+')` |
| `Sections` | sections.dfy | `split_sections`: the line loop, its specification, and which dictionary it builds |
| `Locators` | locators.dfy | `get_subsection`, `extract_field`, `parse_urls_section` |
| `Extractors` | extractors.dfy | `extract_list_items`, `extract_numbered_steps` |
| `Forms` | forms.dfy | `extract_form_table` |
| `Assembler` | assembler.dfy | `parse_state`: required sections, warnings, interview types, `split_langs`, counts, the record |
| `Batch` | batch.dfy | the loop of `parse_outputs.main`: counters, parse log, `--strict` exit code |
| `Downloads` | downloads.dfy | `is_placeholder` and the line scan of `parse_agent_output` |
| `Filenames` | filenames.dfy | `sanitize_filename`, `get_destination`, the page `.html` rule, the two target loops of `process_state` |
| `Statuses` | statuses.dfy | the statuses `download_url` records, and the three counts `process_state` prints |
| `Setup` | setup.dfy | `validate_state`, the placeholder report, the skeleton metadata, `create_state_structure` |
| `Prompts` | prompts.dfy | `render_prompt` with its three notes and the insertion before `DATA TO COLLECT` |

Where the source loops over its input and updates variables, the model
has a `method` with a loop. Examples are `Sections.SplitSections`,
`Downloads.ParseAgentOutput`, `Filenames.Targets`,
`Statuses.CountStatuses`, `Setup.ValidateState` and `Batch.RunBatch`. Each
such method is proved equal to a specification function, and the
properties are lemmas about that function. Pure helpers are functions.
The file system, the network, the clock and `urllib.parse` appear only as
inputs:

- whether a file exists;
- the file's content;
- the number of files on disk;
- a timestamp;
- the status each download ended with;
- the path part of a URL.

## Model

| member | source | states |
|---|---|---|
| `Normalizer.Normalize` | scripts/parse_outputs.py:52-59 | absent stays absent; the result is stripped, and absent exactly when the trimmed lower-cased value is one of the five sentinels |
| `Normalizer.NormalizeIdempotent` | scripts/parse_outputs.py:52-59 | normalising twice is normalising once |
| `Normalizer.NormalizeOfTrimmed` | scripts/parse_outputs.py:56-59 | for a trimmed value, the verdict depends only on its lower-case form |
| `Normalizer.NormalizePaddedSentinel` | scripts/parse_outputs.py:56-58 | a padded sentinel in capitals becomes absent |
| `Normalizer.NormalizeKeepsWords` | scripts/parse_outputs.py:56-59 | an ordinary word is kept, trimmed |
| `Normalizer.ToBool` | scripts/parse_outputs.py:62-71 | "yes"/"true"/"1" give true and "no"/"false"/"0" give false, after trimming and ignoring case; anything else gives unknown |
| `Normalizer.ToBoolAfterNormalize` | scripts/parse_outputs.py:62-71 | reading a normalised field as a boolean gives the same answer as reading the raw capture |
| `Normalizer.SentinelIsNotBoolean` | scripts/parse_outputs.py:57-71 | no sentinel reads as true or false |
| `Normalizer.FirstInteger` | scripts/parse_outputs.py:292-338 | absent exactly when the text has no digit; otherwise the leftmost run of digits (`re.search(r'\d+')`) read as a number |
| `Normalizer.FirstIntegerOfDecimal` | scripts/parse_outputs.py:292-330 | a number printed between digit-free text and a non-digit is read back exactly |
| `Sections.HeaderKey` | scripts/parse_outputs.py:81-84 | the key of a `## ` header line has no lower-case letter and is never "_preamble", so a header cannot overwrite the preamble |
| `Sections.SubheadingIsNotHeader` | scripts/parse_outputs.py:81 | a `### ` line is a body line, not a header |
| `Sections.SplitSections` | scripts/parse_outputs.py:74-90 | the loop builds exactly the dictionary of the block specification |
| `Sections.PreambleValue` | scripts/parse_outputs.py:76-90 | "_preamble" is always a key, and holds the lines before the first header, joined |
| `Sections.HeaderValueSlice` | scripts/parse_outputs.py:80-90 | a header that no later header repeats maps to the lines between it and the next header |
| `Sections.LastHeaderWins` | scripts/parse_outputs.py:82-84 | when a header name repeats, the later block replaces the earlier one |
| `Sections.SectionKeys` | scripts/parse_outputs.py:76-90 | the keys are "_preamble" plus one key per header line |
| `Sections.BlocksPartitionLines` | scripts/parse_outputs.py:80-87 | the blocks, read in order, hold exactly the non-header lines: none lost, none repeated |
| `Locators.GetSubsection` | scripts/parse_outputs.py:93-100 | "" when no `### name` heading matches; the result is always stripped |
| `Locators.SubsectionHasNoMarker` | scripts/parse_outputs.py:96 | a subsection never contains `###`: the next marker ends it, even in the middle of a line |
| `Locators.SubsectionOfHeading` | scripts/parse_outputs.py:93-100 | a `### name` heading line followed by a body without `###` yields the stripped body |
| `Locators.ExtractField` | scripts/parse_outputs.py:103-110 | a field found is non-empty, stripped and not a sentinel |
| `Locators.FieldNeedsMatch` | scripts/parse_outputs.py:103-110 | a text without a match of the tag pattern has no such field |
| `Locators.FieldOfFirstLabel` | scripts/parse_outputs.py:105-110 | the first tag decides; the value is the rest of its line after any whitespace, line breaks included, normalised |
| `Locators.FieldOfTrailingLabel` | scripts/parse_outputs.py:105-110 | a first tag followed only by whitespace up to the end of a text that does not end in a line break yields nothing, since the captured whitespace normalises away |
| `Locators.NoSchemeNoUrl` | scripts/parse_outputs.py:189-190 | a text without "http" has no URL |
| `Locators.OneUrl` | scripts/parse_outputs.py:189-190 | a single `http(s)://` token counts as one URL |
| `Locators.ParseUrlsSection` | scripts/parse_outputs.py:184-191 | each count is the number of whitespace-separated words of its subsection ("Pages Visited" or "Downloadable Assets") that hold a URL; each is also at most an eighth of that subsection's length |
| `Locators.UrlCountByWords` | scripts/parse_outputs.py:189-190 | for every text, the matches of `https?://\S+` are one per word that holds `http://` or `https://` followed by at least one character, the words being the pieces between whitespace |
| `Locators.UrlCountSplit` | scripts/parse_outputs.py:189-190 | the URLs of a text split at a whitespace character are those of the part before it plus those of the part after it |
| `Locators.WordUrlCount` | scripts/parse_outputs.py:189-190 | a word without whitespace counts one URL when it holds one anywhere, else none, since a match runs to the end of the word |
| `Extractors.ExtractListItems` | scripts/parse_outputs.py:113-122 | the loop yields the items of the bullet lines, in order |
| `Extractors.ListItemsAreEntries` | scripts/parse_outputs.py:118-121 | every item is non-empty, stripped, and not the "not specified on website" phrase |
| `Extractors.BulletIsItem` | scripts/parse_outputs.py:117-121 | a `- ` or `* ` bullet whose text is an entry contributes exactly that text |
| `Extractors.ListKeepsOtherSentinels` | scripts/parse_outputs.py:120 | only the "not specified" phrase is dropped; "N/A" stays an item |
| `Extractors.ExtractNumberedSteps` | scripts/parse_outputs.py:125-134 | the loop yields the steps of the numbered lines, in order |
| `Extractors.StepsAreEntries` | scripts/parse_outputs.py:129-133 | every step is non-empty and stripped, although the source tests neither |
| `Extractors.NumberedLineIsStep` | scripts/parse_outputs.py:129-133 | a line `n. text` contributes its text |
| `Forms.ExtractFormTable` | scripts/parse_outputs.py:137-171 | the two loops yield exactly the rows of the table specification, at most one form per pipe line |
| `Forms.FormsLineByLine` | scripts/parse_outputs.py:140-171 | each line contributes at most one form, independently of the other lines |
| `Forms.FormsAreNormal` | scripts/parse_outputs.py:163-170 | every field of every form is normalised |
| `Forms.SentinelNameKept` | scripts/parse_outputs.py:161-164 | the name test looks at the raw cell, so a form named "N/A" is kept with its name absent |
| `Assembler.MissingSections` | scripts/parse_outputs.py:224-304 | at most one "<NAME> section missing" error per required section |
| `Assembler.NoMissingIff` | scripts/parse_outputs.py:224-409 | there is no error exactly when every required section is present and non-empty |
| `Assembler.MissingNamesASection` | scripts/parse_outputs.py:224-304 | each error names one of the sections checked |
| `Assembler.InterviewTypesCanonical` | scripts/parse_outputs.py:255-260 | every recorded interview type is "phone", "in-person" or "both" |
| `Assembler.InPersonSpelling` | scripts/parse_outputs.py:258-260 | a piece is recorded as "in-person" exactly when, stripped and lower-cased, it is "in person" or "in-person" |
| `Assembler.CollectInterviewTypes` | scripts/parse_outputs.py:255-260 | the loop keeps, in order, each piece of the field that names a kind |
| `Assembler.SplitLangs` | scripts/parse_outputs.py:311-316 | absent exactly when the raw value is absent or empty |
| `Assembler.EnglishOnly` | scripts/parse_outputs.py:313-314 | "English only" gives the one language "English" |
| `Assembler.LanguagesAreClean` | scripts/parse_outputs.py:316 | every language listed is non-empty and stripped |
| `Assembler.WarningsMeaning` | scripts/parse_outputs.py:218-324 | each warning is raised exactly when its condition holds; there are at most five |
| `Assembler.WarningsDistinct` | scripts/parse_outputs.py:219-324 | the five warning texts differ, so counting warnings counts conditions |
| `Assembler.Record` | scripts/parse_outputs.py:351-415 | the record names the state and abbreviation it was built for |
| `Assembler.RecordErrors` | scripts/parse_outputs.py:224-412 | the record's errors are one per absent or empty required section, in the order checked |
| `Assembler.RecordParsed` | scripts/parse_outputs.py:408-410 | `parsed` holds exactly when every required section is present and non-empty; the timestamp is the one given |
| `Assembler.RecordWarnings` | scripts/parse_outputs.py:218-411 | each warning is present exactly when the record shows the gap it reports; there are at most five |
| `Assembler.RecordStepCount` | scripts/parse_outputs.py:233-332 | both step counts are the same: the declared count when there is one, else the number of steps found, absent when there are none |
| `Assembler.RecordFormCount` | scripts/parse_outputs.py:245-299 | the form count is the declared one, else the table's row count; without either the table is empty; documents are "specified" exactly when some were listed |
| `Assembler.Assemble` | scripts/parse_outputs.py:212-415 | the statement sequence of `parse_state` after the split builds exactly the specified record, with its warnings and errors |
| `Assembler.ParseState` | scripts/parse_outputs.py:195-420 | a missing file gives no record and "agent_output.md not found"; a placeholder gives no record and the placeholder note; otherwise the record of the report's sections |
| `Batch.RunBatch` | scripts/parse_outputs.py:436-480 | the loop appends exactly the logged entries and ends with the specified counters |
| `Batch.EveryStateCounted` | scripts/parse_outputs.py:444-478 | each state is either parsed or skipped, and each parsed state has one log entry |
| `Batch.TotalsAreLogged` | scripts/parse_outputs.py:457-478 | the warning and error totals are the sums of the logged entries' counts |
| `Batch.NoErrorsIff` | scripts/parse_outputs.py:459-487 | the total error count is zero exactly when no parsed state had an error; skipped states never count |
| `Batch.TallyAppend` | scripts/parse_outputs.py:436-478 | the counters and log of a run over `a + b` are those of `a` followed by those of `b` |
| `Batch.ExitCode` | scripts/parse_outputs.py:486-487 | `--strict` fails the run exactly when the total error count is positive |
| `Downloads.ParseAgentOutput` | scripts/download_assets.py:71-129 | a placeholder report gives nothing; any other report gives the two lists of the line scan |
| `Downloads.ScanIsValid` | scripts/download_assets.py:44-126 | the scan keeps valid entries valid: every URL recorded is an absolute `http(s)://` address without whitespace, and every description is stripped |
| `Downloads.FlagsMeaning` | scripts/download_assets.py:91-110 | after any prefix of the report, the flags record the last `##` heading and, inside a URL section, the last `###` heading read |
| `Downloads.StepContribution` | scripts/download_assets.py:95-126 | a line adds a page only under "Pages Visited" and a download only under "Downloadable Assets", inside a URL section, and only when it matches the pattern |
| `Downloads.SubheadingChoosesList` | scripts/download_assets.py:100-110 | inside a URL section, a `###` heading chooses the list (downloads, pages or neither); it adds nothing and leaves the section open |
| `Downloads.FlagsExclusive` | scripts/download_assets.py:101-110 | at most one of the two subsection flags is set |
| `Downloads.EntriesAppended` | scripts/download_assets.py:112-126 | later lines append after earlier entries, whatever those are, so entries keep the order of their lines |
| `Downloads.OutsideChangesNothing` | scripts/download_assets.py:95-99 | outside a URL section, lines change nothing until the next `## URLS REFERENCED` heading |
| `Downloads.NoUrlSectionNoEntries` | scripts/download_assets.py:95-126 | a report without a `## URLS REFERENCED` heading references nothing |
| `Downloads.SectionEndsAtNextHeading` | scripts/download_assets.py:97-99 | the next `## ` heading ends a URL section, and nothing is added until another one opens |
| `Downloads.DownloadsFromAssets` | scripts/download_assets.py:112-119 | every download comes from a matching line under `### Downloadable Assets` inside a URL section |
| `Downloads.PagesFromPagesVisited` | scripts/download_assets.py:120-126 | every page comes from a matching line under `### Pages Visited` inside a URL section |
| `Downloads.PageLineRoundTrip` | scripts/download_assets.py:45-126 | reading a written `- URL: description` bullet gives back its URL and description |
| `Downloads.AssetLineRoundTrip` | scripts/download_assets.py:44-119 | reading a written `- URL: name — description` bullet gives back its URL, file name and description |
| `Downloads.FlagsOutliveSection` | scripts/download_assets.py:97-126 | a second URL section goes on reading into the list the first one was reading when it ended |
| `Filenames.SanitizeFilename` | scripts/download_assets.py:132-153 | the name is non-empty, holds only word characters, '.' and '-', has no '/' or '?', and is at most `max_len` long unless it is the fallback "download" |
| `Filenames.SuggestedNameKept` | scripts/download_assets.py:135-153 | a safe suggested name with a dot, not starting with "http" and without '/' or '?', is used as it is |
| `Filenames.SuggestedNameCut` | scripts/download_assets.py:138-148 | a suggested name is cut at its first '?' and reduced to its last path segment |
| `Filenames.SuggestionIgnored` | scripts/download_assets.py:138-146 | a suggestion without a dot, or one starting with "http", gives the same name as no suggestion |
| `Filenames.PathSegmentKept` | scripts/download_assets.py:140-146 | without a suggestion, the last segment of the URL path is used when it is safe and has a dot |
| `Filenames.PathSegmentWithoutDot` | scripts/download_assets.py:143-146 | a safe last path segment without a dot gets ".html" appended |
| `Filenames.EmptyPathIsPage` | scripts/download_assets.py:143 | a path that is empty, or is only slashes, gives "page.html" |
| `Filenames.SanitizeIdempotent` | scripts/download_assets.py:132-153 | a sanitised name, offered back as the suggestion, is kept unchanged |
| `Filenames.Extension` | scripts/download_assets.py:157 | `os.path.splitext`: either empty, or a suffix starting with the last '.' of the last path segment, with no further '.' or '/' |
| `Filenames.ExtensionOf` | scripts/download_assets.py:157 | a stem with a character other than a dot, followed by an extension, has exactly that extension |
| `Filenames.LeadingDotsNoExtension` | scripts/download_assets.py:157 | a name made of dots and then an extension-like tail has no extension (leading dots are part of the stem) |
| `Filenames.Destination` | scripts/download_assets.py:156-160 | the file goes under "forms" exactly when its lower-cased extension is one of the seven form extensions of `FORM_EXTENSIONS` (line 41), else under "pages" |
| `Filenames.DestinationOf` | scripts/download_assets.py:156-160 | for a name built from a stem and an extension, the folder follows that extension |
| `Filenames.HtmlName` | scripts/download_assets.py:276-277 | the result ends with ".html"; a name already ending so is kept; otherwise trailing dots are dropped before ".html" is appended |
| `Filenames.HtmlNameOfDotted` | scripts/download_assets.py:277 | a name ending in dots, with the dots dropped, gets ".html" |
| `Filenames.HtmlNameIdempotent` | scripts/download_assets.py:276-277 | the page rule applied twice is applied once |
| `Filenames.PageFilename` | scripts/download_assets.py:275-277 | a page file name ends with ".html", is safe, has no '/', and is at most 85 characters long |
| `Filenames.PageTarget` | scripts/download_assets.py:274-283 | a page always goes to `<folder>/pages/<page file name>`, whatever its extension |
| `Filenames.AssetTargets` | scripts/download_assets.py:264-272 | the asset loop yields one target per download, in order |
| `Filenames.PageTargets` | scripts/download_assets.py:274-283 | the page loop yields one target per page, in order |
| `Filenames.Targets` | scripts/download_assets.py:251-286 | a placeholder report gives no targets; otherwise asset targets come first, then page targets |
| `Filenames.TargetsCount` | scripts/download_assets.py:264-286 | there are as many targets as downloads and pages together |
| `Filenames.TargetsAssetsFirst` | scripts/download_assets.py:264-272 | target i, for i below the number of downloads, is download i, named and placed as the asset rule says |
| `Filenames.TargetsPagesAfter` | scripts/download_assets.py:274-283 | the targets after the downloads are the pages, in order |
| `Statuses.CountStatuses` | scripts/download_assets.py:288-290 | the loop counts the statuses containing "success", those equal to "error" and those containing "skipped" |
| `Statuses.KnownStatusClass` | scripts/download_assets.py:173-290 | each status `download_url` records falls into exactly one class; "success" and "success (after 429 retry)" count as successes; the two "skipped" texts count as skipped |
| `Statuses.StatusesPartition` | scripts/download_assets.py:173-290 | over recorded statuses, successes + skipped + errors + dry runs equals the number of results |
| `Statuses.CountsBounded` | scripts/download_assets.py:288-290 | each count is at most the number of results, and so are errors and skipped together |
| `Setup.ValidateState` | scripts/setup.py:58-75 | the issues are the missing required fields, in list order, then the folder and URL issues |
| `Setup.CheckFields` | scripts/setup.py:60-62 | the loop reports one missing-field issue per absent required field, in order |
| `Setup.CheckValues` | scripts/setup.py:63-70 | the three value checks on folder_name and snap_url, in order |
| `Setup.MissingIssues` | scripts/setup.py:22-62 | at most one issue per field; all are missing-field issues; a field is reported exactly when it is listed and absent |
| `Setup.MissingIssuesAppend` | scripts/setup.py:60-62 | the check over `a + b` reports the issues for `a`, then those for `b` |
| `Setup.AllMissingCount` | scripts/setup.py:60-62 | an empty entry gets one issue per listed field |
| `Setup.AllMissingAt` | scripts/setup.py:60-62 | for an empty entry, issue i names field i |
| `Setup.NoneMissing` | scripts/setup.py:60-62 | an entry holding every listed field gets no missing-field issue |
| `Setup.SpaceGivesBothIssues` | scripts/setup.py:64-67 | a folder name with a space draws both the "spaces" and the "special characters" issues |
| `Setup.EmptyFolderAccepted` | scripts/setup.py:63-67 | an absent or empty folder name draws no folder issue |
| `Setup.FolderAccepted` | scripts/setup.py:64-67 | a non-empty folder name without spaces is accepted exactly when it holds only ASCII letters, digits and '_', with at least one letter or digit |
| `Setup.UnderscoresOnlyRejected` | scripts/setup.py:66-67 | a folder name made only of underscores has special characters |
| `Setup.UrlIssue` | scripts/setup.py:68-70 | the URL is flagged exactly when it is non-empty and does not start with "http" |
| `Setup.ValidIff` | scripts/setup.py:58-75 | an entry draws no issue exactly when every field is present, the folder name passes both checks, and the URL is empty or starts with "http" |
| `Setup.PlaceholderText` | scripts/setup.py:28-32 | the placeholder report written for a state (line 96 fills in its name) contains "Not yet collected." |
| `Setup.PlaceholderRecognised` | scripts/setup.py:28-96 | the placeholder is recognised as one by both the downloader and the parser |
| `Setup.Skeleton` | scripts/setup.py:34-39 | the skeleton metadata is pending and unparsed, and copies the state's name and abbreviation (lines 101-103) |
| `Setup.StateFiles` | scripts/setup.py:82-105 | the run fails with `KeyError` exactly when "folder_name" is absent, or "name" is absent and a file must be written, or "abbreviation" is absent and the metadata must be written; the key named is an absent one; a missing folder name stops it before anything is written; given a folder name, the report is written exactly when it does not exist yet; a written report is the placeholder of the entry's name, or, when "name" is absent, the empty file opened before the lookup failed; without a failure the metadata is written exactly when it does not exist yet, and it is the skeleton |
| `Setup.RerunWritesNothing` | scripts/setup.py:82-105 | once both files exist, setting up again writes nothing, and fails only when the folder name is absent |
| `Setup.MissingNameLeavesEmptyReport` | scripts/setup.py:94-96 | a new folder for an entry with no name gets an empty report, which is no placeholder, and no metadata |
| `Setup.MissingAbbreviationStopsAfterReport` | scripts/setup.py:94-103 | a new folder for an entry with no abbreviation gets its placeholder report, then the metadata lookup fails with `KeyError` |
| `Prompts.FirstMatch` | scripts/generate_prompts.py:77 | the position of the first occurrence of the pattern from a given index; absent when there is none |
| `Prompts.ReplaceFirst` | scripts/generate_prompts.py:77 | `str.replace(.., 1)`: unchanged without an occurrence; otherwise the text around the first occurrence, with the replacement in between |
| `Prompts.StartUrl` | scripts/generate_prompts.py:47-51 | the stripped recorded URL, or the USDA state directory when that is empty |
| `Prompts.BlankUrlUsesFallback` | scripts/generate_prompts.py:47-52 | a blank or whitespace-only URL gives the USDA directory and the fallback note naming the state |
| `Prompts.RecordedUrlUsed` | scripts/generate_prompts.py:47-54 | a URL with a non-whitespace character is used stripped, and no fallback note is added |
| `Prompts.CountyNoteIff` | scripts/generate_prompts.py:57-63 | the county note is present exactly when `county_administered` is truthy |
| `Prompts.LoginNoteNeedsBoth` | scripts/generate_prompts.py:66-68 | without login notes, or without `requires_login`, the prompt is as if the state needed no login |
| `Prompts.RenderPrompt` | scripts/generate_prompts.py:46-79 | without notes, or without the `DATA TO COLLECT` anchor, the prompt is the filled template; otherwise the notes block is inserted right before the first anchor |
| `Prompts.RenderStatePrompt` | scripts/generate_prompts.py:46-48 | there is no prompt (`KeyError`) exactly when the state has no name; otherwise it is the prompt of the state with that name |
| `Prompts.InsertBefore` | scripts/generate_prompts.py:74-77 | replacing the first anchor by block + anchor inserts the block right before the first anchor |
| `Prompts.NoNotesIsSubstitution` | scripts/generate_prompts.py:70-74 | a state with a URL, not county-administered and without login notes gets the plain substitution of both placeholders |
| `Prompts.NotesDroppedWithoutAnchor` | scripts/generate_prompts.py:74-77 | a template without the anchor loses the notes silently |
| `Prompts.NoMatchLeft` | scripts/generate_prompts.py:70 | replacing every occurrence leaves none, when neither end of the pattern occurs in the replacement and the replacement has a character outside the pattern |
| `Prompts.NoNamePatternLeft` | scripts/generate_prompts.py:70 | no `{STATE_NAME}` remains after substitution when the name has no brace and has some character outside the pattern |

## Left out

- File and folder I/O, `os.path.exists`, `os.makedirs`, reading and writing JSON, and the logs: whether a file exists and what it holds are inputs to the model.
- `count_assets` (scripts/parse_outputs.py:174-181) lists directories. The two counts it returns are inputs to `Assembler.Record`.
- `download_url` needs the network. Its Content-Disposition rerouting, size limits, 429 retry and sleeps are not modelled. Each download's status is an input, and `Statuses` models only the texts the function records.
- `urllib.parse.urlparse`: `sanitize_filename` uses only the URL's path, which is the parameter `pathOf` of `Filenames.SanitizeFilename` and of `Filenames.Targets`.
- The clock: timestamps are inputs.
- Printing, `argparse` and `sys.exit`. Only the `--strict` exit decision is modelled, in `Batch.ExitCode`. The counters of `setup.main` and `generate_prompts.main` are not modelled, and neither is the warning when the state count differs from 51.
- A `KeyError` raised inside the loop of `setup.main` ends the whole run. The loop is not modelled: it reads `state["folder_name"]` before calling `create_state_structure`, and the entries after the failing one get no folder. `Setup.StateFiles` models one entry, and how far its own writes got before the failure. `generate_prompts.main`, which calls `render_prompt`, is left out in the same way.
- The other `state[key]` lookups are assumed to succeed: `state["folder_name"]` (scripts/parse_outputs.py:196), `state["name"]` and `state["abbreviation"]` (scripts/parse_outputs.py:352-353), the reads in the loop of `parse_outputs.main` (scripts/parse_outputs.py:464-474), and those of `process_state` (scripts/download_assets.py:248-259 and 294-295). In the source a `KeyError` at any of them ends the run before `save_log` (scripts/parse_outputs.py:480), so no log entry of that run is saved. `Batch.StateEntry` and `Assembler.ParseState` take the name and abbreviation as given strings, and the report of the folder as an input, and `Batch.RunBatch`, which always appends `LogOf(outcomes)` to the log, does not capture that abort.
- The `idx` parameter of `validate_state` is used only to print a name, so the model drops it.
- An entry's values are strings in the model. A JSON `null` or another non-string value is not modelled. The source does not treat such values alike: a `.get` read of `null` gives `None`, which its truth tests read as false, so `"snap_url": null` draws no issue from `validate_state` (scripts/setup.py:68-70) but makes `render_prompt` raise `AttributeError` on `None.strip()` (scripts/generate_prompts.py:47), and a `null` folder name makes `validate_state` raise `TypeError` (scripts/setup.py:66). Python truthiness on `county_administered` and `requires_login` is a `bool`. A field read with `.get(key, "")` or `.get(key)` reads as the empty string, or as false, when it is absent. A field read with `state[key]` raises `KeyError` when it is absent; `Setup.StateFiles` and `Prompts.RenderStatePrompt` model that failure.
- Characters are ASCII. The model leaves out case folding beyond ASCII (`re.IGNORECASE`, `lower`, `upper`), the Unicode classes of `\s` and `\w`, `isalnum` on non-ASCII letters, and the extra line separators of `splitlines`. Only '\n' ends a line.
- `Prompts.NoNamePatternLeft`: this is weaker than "no `{STATE_NAME}` remains unless the name contains one", which fails in general. For example, the template `{STATE` + `{STATE_NAME}` + `_NAME}` with the name "" leaves one. The lemma is stated for names without braces and with a character outside the pattern.
- `str.replace` with an empty pattern is not modelled: the replacement helpers of `Prompts` require a non-empty pattern, and the source replaces only the literals `{STATE_NAME}`, `{SNAP_URL}` and the anchor.
- `Assembler.Record`: its contract states only the state and abbreviation. Its other parts are stated by the `Record*` lemmas.
