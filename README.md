# LU section parser and LUIS / QnA Maker build bookkeeping

This project models three parts of the `lu` package of the Bot Framework CLI
and proves properties of them.

- **The LU section parser** (`LUParser.parse`, `packages/lu/src/parser/lufile/luParser.js`).
  It takes the paragraphs the grammar engine found in an `.lu` file and runs
  seven extraction passes over them: model information, nested intents,
  simple intents, entities, new entities, imports and QnA pairs. A pass whose
  section constructor throws adds one diagnostic and contributes no
  sections. The `@enableSections = true` model-info directive decides
  whether nested intents are kept or replaced by empty simple intents.
  Finally `extractSectionBody` sorts the sections by start line and gives
  every block section (simple intent, nested intent, QnA) the lines of text
  up to the next section. QnA sections are numbered in order, and nested
  intents have their children resolved against the text that precedes
  their end.
- **The LUIS build bookkeeping** (`packages/lu/src/parser/lubuild/builder.ts`).
  This covers:
  - the file name and culture derived from each path;
  - one multi-language recognizer per file name and one settings asset per folder;
  - the duplicate-name check;
  - the defaults filled in for the application (culture, description, name, version);
  - the removal of intents with neither utterances nor patterns, with its warning;
  - the lookup of an existing application by name;
  - the multi-language recognizer entries, including the fallback `""` entry;
  - the settings key (`.` and `-` become `_`);
  - the cross-trained `.lu.qna.dialog` recognizer lists.
- **The QnA Maker build bookkeeping** (`packages/lu/src/parser/qnabuild/builder.ts`).
  This covers:
  - the merging of contents that share a name, joined by a blank line, in first-appearance order;
  - the default knowledge-base name;
  - the lookup of an existing knowledge base and its host name, which gets `/qnamaker` appended;
  - the knowledge-base id taken from an operation's resource location;
  - the polling of a long-running operation until it succeeds or fails;
  - the recognizer, settings and cross-trained dialog updates.

Modules:

| module | file | content |
|---|---|---|
| `Wrappers` | `wrappers.dfy` | `Option`, `Result` |
| `Text` | `text.dfy` | the JavaScript string operations the code relies on (`slice`, `substring`, `split`, `join`, `trim`, `toLowerCase`, `split(/\r?\n/)`) with their laws |
| `LuSections` | `lu_sections.dfy` | sections, diagnostics, paragraphs |
| `LuParser` | `lu_parser.dfy` | the parser |
| `BuildAssets` | `build_assets.dfy` | what both builders share: file identity, settings key, multi-language recognizer, cross-trained dialogs, first match, first-appearance order |
| `LuBuild` | `lu_build.dfy` | LUIS side |
| `QnaBuild` | `qna_build.dfy` | QnA Maker side |

The parser is pure code: its passes and section bodies are functions, and
`Parse`, `ExtractSectionBody` and `IsSectionEnabled` are methods whose loops
are proved equal to those functions. In the builders, an object whose fields
the code assigns becomes a class with `modifies` clauses. This applies to the
application, the recognizer, the settings, the multi-language recognizer and
the folder of cross-trained dialogs. The loading loops, the duplicate check,
the name lookups and the operation poll are methods with loop invariants,
proved against specification functions.

Behaviour taken from the code that a reader might not expect:

- `extractSectionBody` runs outside any `try` in `parse`. So a section
  range it rejects makes the whole parse fail with `"index out of range."`,
  rather than adding one diagnostic. `Parse` returns that error.
- The range check in `extractSectionBody` reads `originList.Length`,
  which is undefined, so its comparison is always false. The upper bound of a
  body is therefore never checked. `BadRange` tests only the lower bound and
  the order of start lines, and `Slice` clamps as JavaScript's `slice` does.
- `isSectionEnabled` splits the directive on the regular expression
  `/@(enableSections).(.*)=/g`. Exactly one character must follow
  `enableSections`, and the last `=` on the line ends the match. So
  `@enableSections=true` does not enable sections (`DirectiveWithoutSpaceDisables`).

## Model

| member | source | states |
|---|---|---|
| LuParser.BuildAll | packages/lu/src/parser/lufile/luParser.js:167-173 | a pass yields one section per grammar node, in order, exactly when no constructor throws; otherwise it fails with the message of the first one that throws |
| LuParser.IntentEntityPartition | packages/lu/src/parser/lufile/luParser.js:186-206 | every simple-intent paragraph goes either to the intent pass (it has an intent definition) or to the entity passes (it has none), never both |
| LuParser.ModelInfoSectionsOf | packages/lu/src/parser/lufile/luParser.js:346 | keeps exactly the model-info sections |
| LuParser.IsSectionEnabled | packages/lu/src/parser/lufile/luParser.js:345-362 | true exactly when some model-info line splits into four trimmed parts whose second is `enableSections` and whose fourth is `true` |
| LuParser.NoDirectiveDisables | packages/lu/src/parser/lufile/luParser.js:345-362 | without an `@enableSections` directive on any model-info line, sections stay disabled |
| LuParser.DirectiveTrueEnables | packages/lu/src/parser/lufile/luParser.js:351-356 | the documented line `> !# @enableSections = true` enables sections |
| LuParser.DirectiveAtLiteral | packages/lu/src/parser/lufile/luParser.js:351 | the character-by-character test for the directive holds exactly when the text at that position equals `@enableSections` |
| LuParser.SplitOneDirective | packages/lu/src/parser/lufile/luParser.js:351 | a line with one directive, no line break after it and no `=` after its last `=` splits into the text before, the name, the text between and the text after |
| LuParser.DocumentedDirectiveSplits | packages/lu/src/parser/lufile/luParser.js:351 | that line splits into `"> !# "`, `"enableSections"`, `""` and `" true"` |
| LuParser.DirectiveWithoutSpaceDisables | packages/lu/src/parser/lufile/luParser.js:351-352 | `@enableSections=true` leaves sections disabled, because the pattern needs one character between the name and the last `=` |
| LuParser.SortByStart | packages/lu/src/parser/lufile/luParser.js:304 | the result is a permutation of the sections, ordered by start line |
| LuParser.SortByStartStable | packages/lu/src/parser/lufile/luParser.js:304 | sections on the same start line keep their relative order (the sort is stable) |
| LuParser.SortByStartIsStableSort | packages/lu/src/parser/lufile/luParser.js:304 | any ordering by start line that keeps the order within each line equals the sort, so the stable sort is unique |
| LuParser.ResolveAtSucceeds | packages/lu/src/parser/lufile/luParser.js:308-317 | resolving one section fails, with "index out of range.", exactly when it is a block section that is not last and starts at line 0 or not before the next one's body |
| LuParser.ResolveFromSucceeds | packages/lu/src/parser/lufile/luParser.js:307-342 | resolving the sorted sections from an index on succeeds exactly when every one of them is well placed |
| LuParser.ResolveFromFailure | packages/lu/src/parser/lufile/luParser.js:313-317 | the only error the resolution reports is "index out of range." |
| LuParser.ResolveFromAt | packages/lu/src/parser/lufile/luParser.js:307-342 | each section of a successful resolution is that section resolved on its own, numbered after the QnA sections before it |
| LuParser.SectionBodiesSucceeds | packages/lu/src/parser/lufile/luParser.js:303-343 | `extractSectionBody` throws exactly when the sections, and recursively a nested intent's children, are not well spaced, and only "index out of range." |
| LuParser.BadRangeThrows | packages/lu/src/parser/lufile/luParser.js:313-317 | one badly placed block section makes the whole call throw |
| LuParser.SectionBodiesOrder | packages/lu/src/parser/lufile/luParser.js:304-307 | every section is returned once, in start-line order, with its kind, name, parse tree, errors and model-info line unchanged |
| LuParser.SectionBodiesBlocks | packages/lu/src/parser/lufile/luParser.js:311-333 | a block section's start line is its header line minus one and its stop line is the line before the next section (or the last line); a QnA body includes its header line, an intent body starts after it |
| LuParser.SectionBodiesQnaIds | packages/lu/src/parser/lufile/luParser.js:323-326 | QnA sections are numbered 0, 1, 2, … in start-line order; other sections keep their id |
| LuParser.SectionBodiesChildren | packages/lu/src/parser/lufile/luParser.js:335-337 | a nested intent's children are resolved against the text up to its stop line; other sections keep their children |
| LuParser.SectionBodiesOthers | packages/lu/src/parser/lufile/luParser.js:338-341 | sections that are not blocks keep their body and take their line range from the parse tree |
| LuParser.ExtractSectionBody | packages/lu/src/parser/lufile/luParser.js:303-343 | the loop over the sorted sections computes the resolved sections or the thrown error |
| LuParser.ResolveSection | packages/lu/src/parser/lufile/luParser.js:307-341 | one iteration resolves the section at that index and advances the QnA counter exactly on QnA sections |
| LuParser.ResolveBlock | packages/lu/src/parser/lufile/luParser.js:311-337 | a block section's body, line range, id and (recursively) children |
| LuParser.FlattenNested | packages/lu/src/parser/lufile/luParser.js:51-69 | with sections disabled, each nested intent becomes an empty intent with a warning, followed by its children and their errors |
| LuParser.AppendChildren | packages/lu/src/parser/lufile/luParser.js:64-67 | the children are appended in order, and their errors after the errors so far |
| LuParser.FlattenedMembers | packages/lu/src/parser/lufile/luParser.js:51-63 | every nested intent's empty stand-in and its warning are in the flattening |
| LuParser.FlattenedShape | packages/lu/src/parser/lufile/luParser.js:52-67 | the flattening holds only simple intents |
| LuParser.ApplyPass | packages/lu/src/parser/lufile/luParser.js:77-85 | a pass appends its sections and their errors, or only its failure diagnostic |
| LuParser.ApplyNestedPass | packages/lu/src/parser/lufile/luParser.js:43-75 | the nested pass appends the nested intents as they are when enabled, or their flattening otherwise |
| LuParser.Parse | packages/lu/src/parser/lufile/luParser.js:23-130 | `parse` computes the assembled resource, and returns an empty resource for an undefined or empty text |
| LuParser.ParsedSucceeds | packages/lu/src/parser/lufile/luParser.js:127-129 | the parse fails exactly when the assembled sections are not well spaced; otherwise the resource holds the text, the pass diagnostics and the resolved sections |
| LuParser.AssembledByPasses | packages/lu/src/parser/lufile/luParser.js:28-129 | the parse's sections are the seven passes' sections in pass order, and its diagnostics the lexer's followed by the seven passes' |
| LuParser.FailingPass | packages/lu/src/parser/lufile/luParser.js:33-125 | a pass whose extraction throws adds no section and exactly one diagnostic, naming the pass and carrying the message |
| LuParser.PassFailureInPlace | packages/lu/src/parser/lufile/luParser.js:33-125 | when one pass throws, its one diagnostic sits between the diagnostics of the passes before it (after the lexer's) and those of the passes after it, and the sections are the other passes' in order |
| LuParser.PassIndependent | packages/lu/src/parser/lufile/luParser.js:33-125 | each pass's outcome depends only on its own extraction (the nested pass also on the model-info sections), so a throwing pass does not change the others |
| LuParser.PassFailuresIsolated | packages/lu/src/parser/lufile/luParser.js:33-125 | lexer errors come first; each failing pass leaves its own diagnostic naming it; a failing QnA pass's diagnostic comes last |
| LuParser.QnaSectionsLast | packages/lu/src/parser/lufile/luParser.js:117-120 | whatever the earlier passes did, the QnA pass's sections close the assembled list |
| LuParser.FaultlessPassesSucceed | packages/lu/src/parser/lufile/luParser.js:33-125 | when no constructor throws, all seven passes succeed |
| LuParser.FlagOnKeepsNested | packages/lu/src/parser/lufile/luParser.js:48-49 | with sections enabled, the nested intents follow the model-info sections unchanged and add only their own errors |
| LuParser.FlagOffStandIns | packages/lu/src/parser/lufile/luParser.js:50-69 | with sections disabled, every nested intent leaves an empty stand-in intent and a "no utterances found" warning |
| LuParser.FlagOffNoNestedSections | packages/lu/src/parser/lufile/luParser.js:43-75 | with sections disabled, a successful parse contains no nested-intent section |
| LuParser.BodiesKeepKinds | packages/lu/src/parser/lufile/luParser.js:303-343 | resolving bodies introduces no nested-intent section |
| LuParser.AssembledKind | packages/lu/src/parser/lufile/luParser.js:43-125 | with sections disabled, no assembled section is a nested intent |
| LuParser.ModelInfoKinds | packages/lu/src/parser/lufile/luParser.js:284-297 | the model-info pass yields model-info sections only |
| LuParser.SimpleIntentKinds | packages/lu/src/parser/lufile/luParser.js:180-193 | the simple-intent pass yields simple intents only |
| LuParser.EntityKinds | packages/lu/src/parser/lufile/luParser.js:198-243 | the entity passes yield entity and new-entity sections only |
| LuParser.ImportKinds | packages/lu/src/parser/lufile/luParser.js:248-261 | the import pass yields import sections only |
| LuParser.QnaKinds | packages/lu/src/parser/lufile/luParser.js:266-279 | the QnA pass yields QnA sections only |
| LuParser.NestedChildrenSimple | packages/lu/src/parser/lufile/luParser.js:161-174 | the children of extracted nested intents are simple intents |
| Text.SplitJoinLines | packages/lu/src/parser/lufile/luParser.js:305-336 | splitting lines joined by a newline gives the lines back when no line holds a line break and none but the last ends in a carriage return |
| LuParser.PrefixTextLines | packages/lu/src/parser/lufile/luParser.js:305-336 | the text built from the document's first lines splits back into exactly those lines |
| LuParser.NestedChildrenAbsolute | packages/lu/src/parser/lufile/luParser.js:335-337 | a nested intent's children are resolved against a text whose lines are the document's lines up to its stop line, so their line numbers count from the top of the document |
| Text.JoinSplitIsReplace | packages/lu/src/parser/lubuild/builder.ts:217 | `split(c).join(d)` replaces every `c` by `d` |
| BuildAssets.FirstIndex | packages/lu/src/parser/lubuild/builder.ts:180-185 | the first position holding the name, or none exactly when it is absent |
| BuildAssets.FindFirst | packages/lu/src/parser/lubuild/builder.ts:180-185 | the loop with `break` finds the first match |
| BuildAssets.Dedup | packages/lu/src/parser/qnabuild/builder.ts:101-124 | the keys of a `Map` filled in order: distinct, and exactly the names seen |
| BuildAssets.DedupOrder | packages/lu/src/parser/qnabuild/builder.ts:124 | a `Map`'s values come out in order of first insertion |
| BuildAssets.Identify | packages/lu/src/parser/lubuild/builder.ts:48-56 | the file name is a prefix of the base name; the culture is the one in the path when there is one, else the default |
| BuildAssets.IdentifyStripsCulture | packages/lu/src/parser/lubuild/builder.ts:51-52 | for `name.culture` the name and culture are recovered exactly |
| BuildAssets.StripSuffix | packages/lu/src/parser/lubuild/builder.ts:208 | `path.basename(p, ext)` is a prefix, and removes `ext` when it removes anything |
| BuildAssets.StripSuffixAppended | packages/lu/src/parser/lubuild/builder.ts:437 | appending an extension and stripping it gives the name back |
| BuildAssets.SettingsKey | packages/lu/src/parser/lubuild/builder.ts:217 | same length; `.` and `-` become `_`, every other character is kept |
| BuildAssets.SettingsKeyStable | packages/lu/src/parser/lubuild/builder.ts:217 | a key has no `.` or `-`, and computing the key twice changes nothing |
| BuildAssets.Registered | packages/lu/src/parser/lubuild/builder.ts:206-212 | the culture maps to the dialog; the `""` entry does too exactly when the culture matches the fallback locale case-insensitively; other entries are unchanged |
| BuildAssets.MultiLanguageRecognizer.Register | packages/lu/src/parser/qnabuild/builder.ts:202-208 | the recognizer table becomes the registered table for the dialog's base name |
| BuildAssets.IncludeOnce | packages/lu/src/parser/lubuild/builder.ts:442-444 | the list grows by the entry only when it is missing, and stays distinct |
| BuildAssets.CrossTrainedList | packages/lu/src/parser/lubuild/builder.ts:440-450 | a new file lists only the entry; an existing one keeps its list and gains the entry once |
| BuildAssets.WithEntry | packages/lu/src/parser/lubuild/builder.ts:440-452 | the cross-trained file lists the entry; other files are unchanged; nothing changes if it was listed |
| BuildAssets.LuCrossTrainedIdempotent | packages/lu/src/parser/lubuild/builder.ts:436-453 | writing the same LU dialog twice leaves the cross-trained files as writing it once |
| BuildAssets.QnaCrossTrainedListed | packages/lu/src/parser/qnabuild/builder.ts:490-515 | every source's cross-trained file lists the dialog; files no source names are untouched |
| BuildAssets.QnaCrossTrainedFixed | packages/lu/src/parser/qnabuild/builder.ts:502-508 | when every file already lists the dialog, nothing changes |
| BuildAssets.QnaCrossTrainedIdempotent | packages/lu/src/parser/qnabuild/builder.ts:487-516 | writing the same QnA dialog twice has the effect of writing it once |
| BuildAssets.DialogFolder.WriteLuDialog | packages/lu/src/parser/lubuild/builder.ts:433-454 | only a cross-trained multi-language dialog updates the cross-trained files |
| BuildAssets.DialogFolder.WriteQnaDialog | packages/lu/src/parser/qnabuild/builder.ts:484-517 | the loop over the files updates each source's cross-trained file in turn |
| LuBuild.EmptyIntents | packages/lu/src/parser/lubuild/builder.ts:423-424 | exactly the intents named by no utterance and no pattern |
| LuBuild.LabelledIntents | packages/lu/src/parser/lubuild/builder.ts:427 | exactly the other intents; the two lists together have as many entries as the intents |
| LuBuild.LabelledIntentsAppend | packages/lu/src/parser/lubuild/builder.ts:427 | the filter distributes over concatenation |
| LuBuild.EmptyIntentsAppend | packages/lu/src/parser/lubuild/builder.ts:423-424 | the selection distributes over concatenation |
| LuBuild.NoEmptyIntentKeepsAll | packages/lu/src/parser/lubuild/builder.ts:426-430 | without empty intents the intents are left as they are |
| LuBuild.LabelledIntentsIdempotent | packages/lu/src/parser/lubuild/builder.ts:418-431 | filtering twice is filtering once |
| LuBuild.SharesEmptyName | packages/lu/src/parser/lubuild/builder.ts:427 | dropping by name removes exactly the empty intents, even when names repeat |
| LuBuild.SelectEmptyIntents | packages/lu/src/parser/lubuild/builder.ts:423-424 | the selection loop computes the empty intents |
| LuBuild.DropNamed | packages/lu/src/parser/lubuild/builder.ts:427 | the filter loop computes the labelled intents |
| LuBuild.LuisApp.FilterEmptyIntents | packages/lu/src/parser/lubuild/builder.ts:418-431 | the application keeps its labelled intents, and a warning naming the empty ones is produced when there are any |
| LuBuild.LuisApp.FillDefaults | packages/lu/src/parser/lubuild/builder.ts:310-323 | culture, description and name get their defaults (an empty description becomes `Model for <bot> app, targetting <suffix>`, an empty name `<bot>(<suffix>)-<content>`) and the empty intents are filtered |
| LuBuild.LuisApp.PrepareCreated | packages/lu/src/parser/lubuild/builder.ts:365-373 | an empty version becomes `0.1`, a set one is kept, and the version is copied to the recognizer with the new application id |
| LuBuild.DefaultCulture | packages/lu/src/parser/lubuild/builder.ts:312 | a culture other than `""` and `en-us` is kept, otherwise the content language is used |
| LuBuild.DefaultDesc | packages/lu/src/parser/lubuild/builder.ts:313 | a non-empty description is kept; an empty one becomes `Model for <bot> app, targetting <suffix>` |
| LuBuild.DefaultName | packages/lu/src/parser/lubuild/builder.ts:315-317 | a non-empty name is kept; an empty one becomes `<bot>(<suffix>)-<content>` |
| LuBuild.DefaultVersion | packages/lu/src/parser/lubuild/builder.ts:366 | a non-empty version is kept; an empty one becomes `0.1` |
| LuBuild.DefaultsIdempotent | packages/lu/src/parser/lubuild/builder.ts:310-323 | filling defaults twice is filling them once |
| LuBuild.Recognizer.AdoptListedApp | packages/lu/src/parser/lubuild/builder.ts:178-186 | a recognizer without an app id takes the id of the first listed app with the same name; one with an id keeps it |
| LuBuild.Settings.RecordApp | packages/lu/src/parser/lubuild/builder.ts:214-218 | the app id is stored under the settings key of the content name |
| LuBuild.HasDuplicates | packages/lu/src/parser/lubuild/builder.ts:121-124 | the set-size test finds a duplicate exactly when the names are not distinct |
| LuBuild.LoadSource | packages/lu/src/parser/lubuild/builder.ts:43-115 | one iteration appends the source's content and records its file name and folder unless already seen |
| LuBuild.LoadContents | packages/lu/src/parser/lubuild/builder.ts:43-130 | the loading loop computes the contents, the recognizer file names and the settings folders, or the duplicate error |
| LuBuild.LoadedContents | packages/lu/src/parser/lubuild/builder.ts:120-130 | loading fails, with the duplicate message, exactly when two contents share a name; otherwise one content per source with its name, file name and culture |
| QnaBuild.MergedNames | packages/lu/src/parser/qnabuild/builder.ts:101-124 | the merged contents have each name once, in first-appearance order, and there is one recognizer per name |
| QnaBuild.MergedText | packages/lu/src/parser/qnabuild/builder.ts:115-120 | a merged content is the contents of all sources of that name, joined by a blank line, in input order |
| QnaBuild.MergedOrigin | packages/lu/src/parser/qnabuild/builder.ts:115-120 | a merged content keeps the language and path of the first source of its name |
| QnaBuild.ContentsNamedPresent | packages/lu/src/parser/qnabuild/builder.ts:101-121 | a name that occurs has at least one content to merge |
| QnaBuild.LoadContents | packages/lu/src/parser/qnabuild/builder.ts:45-124 | the loading loop computes the merged contents and the recognizer table |
| QnaBuild.LoadSource | packages/lu/src/parser/qnabuild/builder.ts:99-121 | one iteration either registers a new name or appends to the existing content |
| QnaBuild.DefaultKbName | packages/lu/src/parser/qnabuild/builder.ts:328 | a non-empty knowledge-base name is kept; an empty one becomes `<bot>(<suffix>).<language>.qna` |
| QnaBuild.DefaultKbNameStable | packages/lu/src/parser/qnabuild/builder.ts:328 | filling the name in twice is filling it once, and a default name ends in `.qna` |
| QnaBuild.HostName | packages/lu/src/parser/qnabuild/builder.ts:192-194 | the host name ends with `/qnamaker` |
| QnaBuild.RecordedSettings | packages/lu/src/parser/qnabuild/builder.ts:211-214 | the kb id is stored under the settings key, `hostname` holds the host, and other entries are unchanged |
| QnaBuild.Settings.RecordKb | packages/lu/src/parser/qnabuild/builder.ts:192-214 | the settings become the recorded settings for the computed host name |
| QnaBuild.KbIdOfLocation | packages/lu/src/parser/qnabuild/builder.ts:372 | the id is the third `/`-separated part of `/knowledgebases/<id>` |
| QnaBuild.Recognizer.AdoptListedKb | packages/lu/src/parser/qnabuild/builder.ts:162-173 | a recognizer without a kb id takes the id and host of the first listed kb with the same name |
| QnaBuild.Recognizer.AdoptCreatedKb | packages/lu/src/parser/qnabuild/builder.ts:371-372 | the kb id is taken from the operation's resource location |
| QnaBuild.PollOutcomeOf | packages/lu/src/parser/qnabuild/builder.ts:459-474 | still running exactly when no status has settled; a failed or completed outcome carries one of the statuses, in that state |
| QnaBuild.PollOutcomeAt | packages/lu/src/parser/qnabuild/builder.ts:462-471 | when the `k`th status is the first settled one, the outcome is that status, failed or completed as it says |
| QnaBuild.PollOperation | packages/lu/src/parser/qnabuild/builder.ts:459-474 | the polling loop stops at the first failed or succeeded status |

## Left out

- The grammar engine (`getFileContent`, lines 135-155 of `luParser.js`) is not modelled. Its output, the paragraphs and lexer errors, is an input of `Parse`. Each section constructor is represented by the section it builds or the message it throws.
- `NEWLINE` is `os.EOL`; the model fixes it to `"\n"`.
- Strings are sequences of characters. JavaScript's UTF-16 code units are not distinguished, and `toLowerCase` is modelled for ASCII letters only.
- The empty stand-in intent has the default fields of a new `SimpleIntentSection`, which is not part of this model. `EmptyIntent` gives it the name and header span and empty contents.
- `LuBuild.LoadContents` and `QnaBuild.LoadContents` do not model the file system, JSON, the LU and QnA compilers or their `INVALID_INPUT_FILE` errors. The culture found in a path is an input. So is the `name` of each `Content`, whose class is not part of this model.
- The REST calls are not modelled: application and knowledge-base listing, import, export, update, training, publishing and alteration replacement. Their results are parameters. `updateApplication` and `updateKB`, which compare models, are not modelled.
- `delay`, `Promise.all` and concurrent handling of contents are left out; contents are handled one after another.
- `LuBuild.LuisApp.PrepareCreated`: the import response is taken as the id string; the object-shaped response is not modelled.
- `QnaBuild.PollOperation`: the sequence of statuses the service reports is an input. A poll that never settles is modelled as running out of statuses (`StillRunning`). A failed status is returned as a value instead of being thrown.
- `QnaBuild.KbIdFromLocation`: a resource location with fewer than three `/`-separated parts gives no id, where JavaScript gives `undefined`.
- JavaScript's `undefined` and `""` are both modelled as the empty string. The code treats them alike in every default it fills.
- `BuildAssets.StripSuffix`: for a bare name equal to the extension, `path.basename(name, ext)` returns `''`, while the model keeps the name. A path with a folder before such a name is not affected: there `path.basename` keeps the name too.
- `mergeSettingsContent`, `writeDialogAssets`, `generateDeclarativeAssets` and the file writes in `writeDialog` are not modelled. The cross-trained recognizer lists are kept in a map from file name to list.
- The lookup of a multi-language recognizer by `content.id` and of settings by folder are modelled through `Loaded`'s id and folder lists and the `Register` and `RecordApp` updates; the JavaScript `Map` objects themselves are not.
