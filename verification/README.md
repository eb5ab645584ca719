# Tag translation and export: a verified model

The JavaScript part of Hootenanny translates map features between OpenStreetMap tags and
the attributes of other schemas, and serves finished exports. This project models the
parts of it that carry state through loops and callbacks, in the form the code has them
(loops over lists and maps, a server object whose callbacks update a table), ties each of
them to a specification function, and proves what the code is for about those functions.

| area | modules |
|---|---|
| Rendering-database tags: sorting, packing into text columns, unpacking | `RenderDbColumns`, `RenderDbQuotes`, `RenderDbPacking`, `RenderDb`, `RenderDbRoundTrip`, `RenderDbTranslate`, `RenderDbImport`, `RenderDbNames`, `RenderDbLimits`, with `QuotedText` and `Renaming` |
| Export jobs of the node server | `ExportJobs` (the transition system and its invariants), `ExportHistory`, `ExportReplies`, `ExportServer` (the object, step for step) |
| Polygon parameters of the node server | `PolyRings` |
| DNC translation: lifecycle tags, undo log, validation | `DncLifecycle`, `DncLifecycleRoundTrip`, `DncLifecycleWords`, `DncUndoLog`, `DncValidate`, `DncConservation`, `DncValidated`, `DncDefaults`, `OneToOnePass`, `DncExport`, `DncColumns`, with `Turns` |
| Compiler of scored rules | `RuleTable`, `RuleTableBest`, `RuleTableKinds`, `RuleTableToOsm`, `RuleTableTags` |
| Attributes that hold lists | `ListAttributes`, `ListTables`, `ListRoundTrip`, `ListExtras`, `ListThereAndBack`, with `Routing` and `Iteration` |
| Feature codes | `FeatureCode` |
| Schema search and its phonetic code | `SchemaSearch`, `SchemaSearchLimits`, `SchemaSearchOrder`, `SchemaSearchExamples`, `Lein` |
| JavaScript strings, dictionaries, lists, missing values, exceptions | `Text`, `Objects`, `Lists`, `Wrappers` |

For every main operation there are two kinds of results: what each call computes, told from
its inputs alone and without the function that the method follows (the modules `DncColumns`,
`DncDefaults`, `ExportReplies`, `RenderDbTranslate`, `RenderDbImport`, `RuleTableTags`,
`ListExtras`, `DncLifecycleWords`, `SchemaSearchOrder`), and what the operations promise
together.

How things are modelled:

- A JavaScript object used as a dictionary is a `map`; the order in which `for..in` visits
  its keys is a parameter, any enumeration without repetition, so the results hold for
  every order. A missing value and the empty string are told apart where the code does.
- A thrown exception is a `Result`. A callback of the server that dereferences a missing
  job sets `crashed`.
- Regular expressions that read a coordinate, the test for self-intersection, the schema
  database, `Number()` and the sorting of the engine are parameters, with the assumption
  they must meet stated as a predicate (`Readable`, `BoxReadable`, `Plausible`, `NamesTags`, `Sorts`).
- A state of the server holds the job table and the callbacks that are still to come. A
  run is any sequence of requests and of callbacks that fire. `Quiet` is the assumption
  that no cleanup timer fires while a zip or a download of its hash is under way.

Where the code does not do what it is meant to do, the model follows the code, and the
exact condition under which it does is proved:

- The loop that drops over-long entries steps over the entry behind each one it drops
  (`KeptFitsIff`; `AdjacentLongIsStored` is a feature whose column has 307 characters). The
  sum that decides about the split leaves out the commas (`ColumnsFitIff`;
  `UnsplitOverflows` is a feature whose column has 255). The comment beside the schema
  promises about a thousand characters for five columns; the packing guarantees 766
  (`Capacity`, and `CapacityIsTight`, a feature of 767 that loses a tag).
- A column text without double quotes comes back if and only if its first key is neither `,`
  nor `=>` and no value is `,` (`ColumnRoundTripIff`). Double quotes are not escaped
  (`LeadingQuoteMoves`): a list of tags comes back if and only if only its first key and the
  end of its last value hold any, and they make up no separator (`ColumnReadsIff`).
- A cleanup timer that fires during a zip or a download of its hash makes a later callback
  crash the process, and nothing else does (`CrashIffInFlight`, `CrashNeedsInFlight`).
- The undo log of the passes in `dnc_core.js` loses a tag if and only if two tags were aimed
  at one attribute (`TranslationConservesIff`). The lookup pass that the exports call today
  also loses tags that only stand for a feature code, rows without an attribute, and
  numbered tags (`ValidatedExportConservesIff`, `NumberedTagIsLost`). The first two kinds are
  used up on purpose; whatever they are, all other tags are conserved if and only if each of
  them stays or goes under its own name, no two to one attribute
  (`ValidatedExportConservesWantedIff`).
- A second validation changes something if and only if the value of some column is not settled
  under the feature code that the first one leaves, or a column with a tag behind it is reset
  only now (`SecondRunChangesNothingIff`). Under an unchanged code that is a column reset to a
  value that does not fit, or that is not listed where 999 is (`SecondRunUnderSameCodeIff`).
- A target of the compiled rules comes back from OSM if and only if the first best candidate
  for its tag is its own (`ThereAndBackIff`). In the demo translation type 50 becomes a road,
  which comes back as type 1 (`TypeFiftyIsLost`).
- The bounding box of a ring that was accepted is refused if and only if the ring is a line
  along a meridian or a parallel (`BoxTextIsValidIff`).
- A search can exceed its limit, up to one less than twice the limit (`LimitExceededIff`,
  `SearchForBatExceedsLimit`), and fails for some first characters (`SearchFailsIff`,
  `SearchForKThrows`).
- A description that hides a separator, alone or together with the one behind it, spoils
  the second feature code (`SecondCodeIff`).

## Model

| member | source | states |
|---|---|---|
| RenderDbColumns.DecodeFrom | translations/RenderDb.js:150-160 | A column of quote-free tags, with or without its opening quote, decodes to exactly those tags in order, and throws as soon as one value is a lone comma. |
| RenderDbColumns.ColumnRoundTripIff | translations/RenderDb.js:147-162 | For every non-empty list of quote-free tags: the column text written at line 240 reads back as exactly that list if and only if the first key is neither `,` nor `=>` and no value is `,`. |
| RenderDbColumns.CommaKeyThrows | translations/RenderDb.js:155-156 | A leading key `,` makes the import throw. |
| RenderDbColumns.ArrowKeyChanges | translations/RenderDb.js:155-156 | A leading key `=>` never comes back as it was. |
| RenderDbColumns.LeadingQuoteMoves | translations/RenderDb.js:240-240 | Quotes are not escaped: one in front of a value comes back at its end. |
| RenderDbQuotes.DecodePieceIff | translations/RenderDb.js:155-156 | One piece of a column, with or without the quotes at the two ends of the column, reads as its tag if and only if the key holds no quotes, or at the opening at least no separator before its end, and the value holds none, or at the closing only quotes after its first one. |
| RenderDbQuotes.ColumnReadsIff | translations/RenderDb.js:147-162 | For every non-empty list of tags, with any quotes in them: the column text reads back as exactly that list if and only if the list is readable: quotes only in the first key and at the end of the last value, no separator before its place. |
| RenderDbPacking.DropLong | translations/RenderDb.js:246-259 | The dropping loop, including the entry it steps over after each removal, and the length it adds up. |
| RenderDbPacking.KeptFitsIff | translations/RenderDb.js:247-259 | After the loop every entry fits the field if and only if no two over-long entries stood side by side. |
| RenderDbPacking.KeptAll | translations/RenderDb.js:247-259 | Without over-long entries nothing is dropped and everything is counted. |
| RenderDbLimits.ColumnsFitIff | translations/RenderDb.js:246-289 | For shapefiles without over-long neighbours: every text column fits the field if and only if the sum that the code tests exceeds 254, or the entries with one separator each sum to at most 255. |
| RenderDbLimits.UnsplitOverflows | translations/RenderDb.js:263-266 | With the renaming lists of the file, and any table without columns for these letters: a feature of two tags whose entries sum to 254, not split, and stored in a column of 255 characters. |
| RenderDbLimits.AdjacentLongIsStored | translations/RenderDb.js:247-263 | In the same tables: of two tags with over-long entries the second one is kept and not counted, and stored in a column of 307 characters. |
| RenderDbPacking.FillColumn | translations/RenderDb.js:278-288 | The destructive backward scan that takes the last entry and appends whatever still fits. |
| RenderDbPacking.PackColumns | translations/RenderDb.js:266-289 | The five columns and what is left over. |
| RenderDbPacking.PackConserves | translations/RenderDb.js:266-292 | The columns and the leftovers together are a permutation of the entries. |
| RenderDbPacking.PackFits | translations/RenderDb.js:270-289 | No column is empty, none is wider than 254 characters when every entry fits, and there are at most five. |
| RenderDbPacking.LeftoversFitNowhere | translations/RenderDb.js:270-292 | Something is left over only when all columns are in use, and then it fits none of them by the code's own test. |
| RenderDbPacking.ColumnsAreFull | translations/RenderDb.js:278-288 | Any two columns together weigh at least 255: the later one begins with an entry the earlier one refused. |
| RenderDbPacking.Capacity | translations/RenderDb.js:266-292 | Entries whose lengths with one separator each sum to at most 766 are all stored. |
| RenderDbLimits.CapacityIsTight | translations/RenderDb.js:266-292 | 767 is the least such sum that can leave an entry over: in the same tables a feature of six tags, whose entries all fit the field, comes back from export and import without one of them. |
| RenderDb.SortOut | translations/RenderDb.js:209-243 | The loop that drops, renames, keeps or packs each tag. |
| RenderDb.StoreTags | translations/RenderDb.js:245-294 | Dropping, joining and, for shapefiles, splitting the entries. |
| RenderDb.TranslateToOgr | translations/RenderDb.js:187-305 | The whole export, for every order in which the tags are visited. |
| RenderDbTranslate.CleanedIff | translations/RenderDb.js:198-207 | What the clean-up leaves, key by key: `osm_id` is the old one if it has a value and else a `hoot:id` that has one, which is then gone; a status goes exactly if it is invalid, a layer name and an ingest time exactly if they have a value; every other key stays. |
| RenderDbTranslate.ErrorsAreDropped | translations/RenderDb.js:211-220 | Tags that mark errors never come out, and make no difference to the others, whatever the order. |
| RenderDbTranslate.ExportStands | translations/RenderDb.js:209-294 | Key by key: a tag with a shorter name stands under it, one with a column under its own name, the texts of the others in the text columns, and nothing else is there. |
| RenderDbTranslate.TranslateRoundTrip | translations/RenderDb.js:187-305 | The whole export, clean-up included, and back: the cleaned tags without those that mark errors come back as far as they found room, and all of them with room for everything. |
| RenderDbTranslate.IdentifierComesBack | translations/RenderDb.js:198-202 | A feature with Hoot's identifier only comes back with it as `osm_id`. |
| RenderDbTranslate.ShorterNamesAreUsable | translations/RenderDb.js:36-62 | None of the shorter names of the real lists marks an error, for any output format. |
| RenderDb.AssignPieces | translations/RenderDb.js:150-160 | The inner loop of the import, and when it throws. |
| RenderDb.TranslateToOsm | translations/RenderDb.js:109-182 | The whole import, for every order in which the attributes are visited. |
| RenderDbImport.RestoredAt | translations/RenderDb.js:117-124 | For any attributes: a name holds the value of the last visited attribute that stands for it, also if it had one of its own. |
| RenderDbImport.NotRestored | translations/RenderDb.js:117-124 | Without such an attribute a name keeps its value. |
| RenderDbImport.ShorterGo | translations/RenderDb.js:117-124 | No shorter name that was visited is left. |
| RenderDbImport.ImportHolds | translations/RenderDb.js:109-182 | For any attributes whose text columns hold no tag named like one: the import throws exactly if some column does not decode; otherwise a name holds the last value decoded for it, or else what the renaming left there. |
| Renaming.VisitAll | translations/RenderDb.js:211-243 | Renaming while deleting, in any order of the keys, gives every key its new name once. |
| Renaming.ThereAndBack | translations/RenderDb.js:117-124 | Renaming back, with other keys added in between, restores all names. |
| RenderDbRoundTrip.RoundTrip | translations/RenderDb.js:187-305 | For all tags that can survive and any two visiting orders: importing an export gives back every tag with a column of its own and every packed tag that found room, and nothing else except an empty text column. |
| RenderDbRoundTrip.LosslessWithRoom | translations/RenderDb.js:147-162 | With room for everything (each entry at most 254, for shapefiles at most 766 in all) that is the original tag map. |
| RenderDbNames.FormatsAreConsistent | translations/RenderDb.js:36-71 | For the real renaming lists, and for every output format, the list built for the import undoes the one used by the export and leaves the text columns alone. |
| ExportJobs.StepKeepsInv | node-export-server/server.js:419-607 | Every request and every callback of a quiet run keeps: each pending callback finds the job it was registered for, in the right status; one worker per hash; the stored timeout is the one timer pending. |
| ExportJobs.QuietRunsAreSafe | node-export-server/server.js:419-607 | No quiet run ever crashes the process. |
| ExportJobs.OneChild | node-export-server/server.js:557-591 | In every quiet run each hash has at most one live child process, and only while its job is running. |
| ExportJobs.OneTimer | node-export-server/server.js:429-492 | In every quiet run each hash has at most one pending cleanup timer, that of its current job, which is complete. |
| ExportJobs.DownloadAfterZip | node-export-server/server.js:297-318 | On the single path no download starts while a child process or a zip of its hash is at work. |
| ExportHistory.DownloadNeedsZip | node-export-server/server.js:297-318 | In every quiet run, whenever a download is under way on the single path, the zip of its own job was closed in an earlier step. |
| ExportJobs.RingDownloadDuringZip | node-export-server/server.js:557-575 | The ring path marks the job complete before zipping: a quiet run in which a download and the zip are under way together. |
| ExportJobs.NoReturn | node-export-server/server.js:490-500 | In every run, quiet or not, a job that has left the table never comes back. |
| ExportJobs.StatusGoesForward | node-export-server/server.js:289-292 | While a job is in the table its status goes from running to complete or failed and never back. |
| ExportJobs.NoJobHangs | node-export-server/server.js:578-591 | In every quiet run a running job always has a child process or a zip that will report to it. |
| ExportJobs.CrashIsFinal | node-export-server/server.js:290-290 | After a crash nothing happens any more. |
| ExportJobs.CrashIffInFlight | node-export-server/server.js:433-490 | A firing cleanup timer leaves a callback behind that will crash the process if and only if a zip or download of its hash is under way. |
| ExportJobs.SlowDownloadCrashes | node-export-server/server.js:428-433 | A run of eight inputs that crashes: two downloads, the second one slower than the cleanup delay of the first. |
| ExportJobs.CrashNeedsInFlight | node-export-server/server.js:429-433 | In every run that crashes, some earlier cleanup timer fired while its hash was in flight. |
| ExportServer.Server.DoExport | node-export-server/server.js:419-607 | The method of the server object makes exactly the step of the transition system, with the same reply. |
| ExportReplies.MissingStarts | node-export-server/server.js:518-606 | A missing hash starts a new running job and one child process, and is answered with the hash; on the job route it is not found and nothing changes. |
| ExportReplies.JobAnswers | node-export-server/server.js:421-503 | What is answered for a job and what changes: running, the hash and nothing; complete, a file and one pending download, or for POST the hash and nothing; failed, the error, and the job is gone exactly for GET. |
| ExportReplies.FailedUntilAsked | node-export-server/server.js:496-500 | In every quiet run a failed job stays as it is until someone asks for it with GET. |
| ExportReplies.AskedStartsAnew | node-export-server/server.js:496-500 | After that the next export starts a new running job with a child process of its own, and the failed one never comes back, in any run. |
| ExportReplies.FileWasZipped | node-export-server/server.js:424-428 | In every quiet run a file is sent of a complete job only, and on the single path only after its own zip was closed. |
| ExportReplies.CallbackChanges | node-export-server/server.js:289-302 | What each callback changes in the job it was registered for and in the pending callbacks, and that every other job stays. |
| ExportServer.Server.GetJob | node-export-server/server.js:101-110 | The job route is the same request for a known hash, and a 404 otherwise. |
| ExportServer.Server.SetStatus | node-export-server/server.js:289-292 | Setting the status of a missing job throws. |
| ExportServer.Server.ChildExited | node-export-server/server.js:557-591 | The exec callbacks of both paths. |
| ExportServer.Server.DownloadEnded | node-export-server/server.js:428-493 | The download callback: it clears the old timer and sets a new one. |
| ExportServer.Server.CleanupFired | node-export-server/server.js:433-492 | The timer callback removes the job, and nothing else. |
| ExportServer.Server.RunCallback | node-export-server/server.js:297-302 | Every callback, taken off the pending ones and run, is one step of the transition system. |
| PolyRings.RingsOfIff | node-export-server/server.js:174-192 | The loop divides a coordinate list into these rings if and only if they are closed, no first point recurs earlier in its ring, and they concatenate to the list; so the division is unique. |
| PolyRings.ReadRings | node-export-server/server.js:173-192 | The loop that reads the points and closes a ring whenever its first point comes again. |
| PolyRings.CheckRings | node-export-server/server.js:197-201 | Whether every ring is within bounds and free of self-intersection. |
| PolyRings.ValidatePoly | node-export-server/server.js:150-205 | The whole validation, which refuses empty text and a single point before reading. |
| PolyRings.ValidatedIff | node-export-server/server.js:150-205 | A parameter is accepted with these rings if and only if all points can be read and divide into them, each within bounds and free of self-intersection. |
| PolyRings.RingRoundTrip | node-export-server/server.js:532-548 | Each ring of an accepted multipolygon, written out again for its own command, is accepted as that one ring. |
| PolyRings.ValidCoordinates | node-export-server/server.js:160-167 | The range test of one ring. |
| PolyRings.PolyToBbox | node-export-server/server.js:221-242 | A point that cannot be read throws; otherwise the text has the least and greatest longitude and latitude of the points, all of which occur in them. |
| PolyRings.BoxTextIsValidIff | node-export-server/server.js:267-283 | The printed box of a ring in range, if it can be read back, passes the box validation if and only if the ring is not a line along a meridian or a parallel. |
| DncLifecycle.FixLifecycleTags | translations/dnc_core.js:704-748 | The block of the post-processing that works `condition` into a feature tag. |
| DncLifecycle.CleanAndCycle | translations/dnc_core.js:785-877 | The block of the pre-processing that cleans tags and recovers the condition, for every visiting order. |
| DncLifecycleWords.Features | translations/dnc_core.js:827-827 | The four feature tags in their order, and what an unknown feature is taken for. |
| DncLifecycleWords.OsmTags | translations/dnc_core.js:704-748 | Key by key, on the way to OSM: the first feature tag with a value becomes `construction` with its value in the tag of that name, or moves behind `abandoned:` or `demolished:`; the condition goes, and everything else stays. |
| DncLifecycleWords.CleanedTags | translations/dnc_core.js:785-823 | Key by key, when no two tags get one name: no empty and no prefixed tag is left, the values of the prefixed ones stand without the prefix, and all others stay, whatever the order. |
| DncLifecycleWords.CleanedCondition | translations/dnc_core.js:796-822 | The condition is that of the prefixed tag that was visited last. |
| DncLifecycleWords.Prefixes | translations/dnc_core.js:796-822 | The four prefixes, what is left without them, and the condition each one stands for. |
| DncLifecycleWords.FeatureAfter | translations/dnc_core.js:826-877 | A feature tag with a lifecycle word gets the real value, unless an earlier feature tag took it, and else its usual one; without such a word it stays. |
| DncLifecycleWords.SwapAfter | translations/dnc_core.js:836-858 | The tag with the real value goes exactly if it has one and some feature tag says its name. |
| DncLifecycleWords.ConditionAfter | translations/dnc_core.js:826-877 | The condition is that for the word of the last feature tag that has one. |
| DncLifecycleWords.OthersStay | translations/dnc_core.js:826-877 | All other tags stay. |
| DncLifecycleRoundTrip.RoundTripIff | translations/dnc_core.js:785-877 | For all tag maps and all visiting orders: there and back gives the same tags if and only if no value is empty, no key has a lifecycle prefix, no later feature tag holds a lifecycle word, and under construction there was no `construction` tag before. |
| DncLifecycleRoundTrip.PrefixLost | translations/dnc_core.js:785-877 | A key that already has one of the prefixes never comes back. |
| DncLifecycleRoundTrip.EmptyLost | translations/dnc_core.js:785-877 | A tag without a value never comes back. |
| DncLifecycleRoundTrip.PrefixTrip | translations/dnc_core.js:704-748 | An abandoned or dismantled feature is renamed and renamed back. |
| DncLifecycleRoundTrip.ConstructionTrip | translations/dnc_core.js:704-748 | Under construction the feature tag and `construction` swap back if and only if the tags are stable. |
| DncUndoLog.ApplyNumToOgr | translations/dnc_core.js:459-500 | The pass for numbers, with units stripped; an attribute listed for whole numbers becomes a number, without decimals, and all others stay text. |
| DncUndoLog.ApplyTxtToOgr | translations/dnc_core.js:440-455 | The pass for text. |
| DncUndoLog.ApplyOne2OneModified | translations/dnc_core.js:408-435 | The lookup pass, for every visiting order. |
| DncUndoLog.PassesEffect | translations/dnc_core.js:408-500 | The three passes move exactly the tags that have an aim, each to its aim, and log each move under it. |
| DncUndoLog.ConservedIff | translations/dnc_core.js:408-500 | After the passes the unused tags and the logged ones are the original tags, each once and with its value, if and only if no two tags were aimed at one attribute. |
| DncValidate.SelectFeature | translations/dnc_core.js:242-262 | The first layer with this name, if there is one. |
| DncValidate.IsColumn | translations/dnc_core.js:267-277 | Whether the layer has a column with this name. |
| DncValidate.CutText | translations/dnc_core.js:303-319 | The text is never longer than allowed; text that fits is unchanged; of longer text the first of its values is kept, as much of it as fits. |
| DncValidate.CutFits | translations/dnc_core.js:303-319 | What is cut fits, and what fits is not cut. |
| DncValidate.DropInvalid | translations/dnc_core.js:274-321 | The loop that drops attributes without a column, hands their tags back, and cuts text, but not whole numbers. |
| DncValidate.CheckValues | translations/dnc_core.js:328-402 | The loop over the columns: defaults, enumerations, in which a whole number is never found, and the tags handed back. |
| DncValidate.ValidateAttrs | translations/dnc_core.js:237-403 | The whole validation, which does nothing for an unknown layer. |
| DncDefaults.LayerIs | translations/dnc_core.js:242-262 | The first layer with the name is the one that is used. |
| DncDefaults.CutIff | translations/dnc_core.js:303-319 | Text that is too long is cut to as many characters as fit in front of its first semicolon. |
| DncDefaults.EveryColumnHolds | translations/dnc_core.js:320-402 | Told from the attributes and the tables: every column holds the default for the code, or 999 or its own default value for what is not listed, or what was left of it; and nothing but columns is left. |
| DncDefaults.DefaultsApply | translations/dnc_core.js:322-351 | For a feature code that fits and a geometry: every column with a default for the code with the initial of the geometry behind it holds that, and no default of another code is used. |
| DncDefaults.DefaultsWithoutCode | translations/dnc_core.js:322-351 | Without a feature code, or a column for it, the word `undefined` stands for it. |
| DncDefaults.UnknownLayer | translations/dnc_core.js:253-262 | A name that no layer has changes nothing. |
| DncDefaults.HandedBackIff | translations/dnc_core.js:274-396 | Of the logged tags exactly those whose attribute has no column, or was set to a default or for not being listed, are unused afterwards, with their values. |
| DncConservation.DropLoopForm | translations/dnc_core.js:274-321 | After the first loop exactly the attributes with a column are left, cut to length, whatever the visiting order. |
| DncConservation.ColumnLoopAttrs | translations/dnc_core.js:328-402 | After the second loop the columns that were reset hold what they were reset to; everything else is unchanged. |
| DncConservation.ValidateConserves | translations/dnc_core.js:237-403 | The validation keeps the balance: the unused tags and those behind the attributes that were neither dropped nor reset are the original ones, and every tag behind a lost attribute is among the unused ones. |
| DncConservation.ValidateReturns | translations/dnc_core.js:274-396 | For every log in which no two entries name one tag, the tag behind each attribute that was dropped or reset is among the unused ones with its value. |
| DncConservation.PassesLogDiffers | translations/dnc_core.js:408-500 | The log of the passes defined in this file is always like that. |
| DncConservation.TranslationConservesIff | translations/dnc_core.js:408-500 | For the three passes defined in this file, followed by the validation: no tag is lost or changed if and only if no two tags were aimed at one attribute. |
| DncConservation.LosersStayLost | translations/dnc_core.js:408-500 | Of two tags with one aim, one is neither left nor logged. |
| DncValidated.ColumnOutcomes | translations/dnc_core.js:237-403 | The value of every column afterwards, column by column, and that nothing but columns is left. |
| DncValidated.ValidatedAttributes | translations/dnc_core.js:237-403 | Every attribute is a column; a column with a default for the feature code holds it; an enumerated one holds a listed value or its own default; text that was kept fits. |
| DncValidated.SecondRunKeepsAttrsIff | translations/dnc_core.js:237-403 | Whatever the feature code has become: a second run leaves the attributes alone if and only if the value of every column is settled, that is the default for the code, or fits and is listed, or is what an unlisted value is reset to. |
| DncValidated.SecondRunKeepsUnused | translations/dnc_core.js:237-403 | Under an unchanged code a second run gives no tag back that was not given back before. |
| DncValidated.CodeAfterIs | translations/dnc_core.js:323-324 | The code that a second run looks up follows from what the first run makes of the column for the feature code. |
| DncValidated.SecondRunChangesNothingIff | translations/dnc_core.js:237-403 | Whatever that code is, and when no tag is both unused and logged: a second run changes nothing at all, in any visiting orders, if and only if the value of every column is settled under that code, and no column with a logged tag is reset that was not reset before. |
| DncValidated.SecondRunUnderSameCodeIff | translations/dnc_core.js:237-403 | Under an unchanged code a second run changes nothing at all if and only if no column was reset to a value that is cut to another one, or that is unlisted where 999 is listed. |
| DncValidated.SettlesForAll | translations/dnc_core.js:364-396 | It is enough, for every feature, that the default value and 999 fit and that the default is listed where 999 is. |
| DncValidated.SameCode | translations/dnc_core.js:323-324 | The code is unchanged when the feature code is not reset to another one. |
| DncValidated.UnlistedDefaultDrifts | translations/dnc_core.js:364-396 | Otherwise a missing attribute is set to the unlisted default first, and to 999 by the second run. |
| OneToOnePass.ApplyToKey | translations/translate.js:166-250 | One turn of the pass that the exports call: moved, moved under a number, used up, or left. |
| OneToOnePass.ApplyOne2One | translations/translate.js:159-252 | The whole pass. |
| OneToOnePass.PassIsDone | translations/translate.js:159-252 | Exactly the tags that do not stay are gone, every move has an entry under its attribute, and every new entry stems from a tag that is gone. |
| OneToOnePass.PassConservesIff | translations/translate.js:159-252 | The original tags can be recovered from what is left and the log if and only if every tag stays or goes under its own name, no two to one attribute. |
| DncColumns.ColumnHolds | translations/translate.js:159-252 | After the three passes, told from the rules and the lookup: every attribute holds what was sent there last, a stripped or whole number, a text, or the value of a row, numbered or not; all others are unchanged. |
| DncColumns.LogHolds | translations/translate.js:180-181 | The log holds the entry of what was sent to an attribute last, and nothing else. |
| DncColumns.RowValueIsStored | translations/translate.js:174-183 | A tag without a rule that a row names and that alone reaches its attribute: the attribute and the log entry hold the value of the row. |
| DncColumns.NumberedValueIsStored | translations/translate.js:214-238 | The same for a numbered tag, in the numbered column. |
| DncColumns.NumberIsStored | translations/dnc_core.js:459-500 | A number rule stores the number without its unit, or the whole number where the attribute is listed for one. |
| DncColumns.TextIsStored | translations/dnc_core.js:440-455 | A text rule stores the value of the tag. |
| DncColumns.LeftIffUnused | translations/translate.js:159-252 | Exactly the tags without a rule, a row and, where that matters, a feature code are left, with their values. |
| OneToOnePass.NumberedTagIsLost | translations/translate.js:220-240 | A tag that is found only without its last character is logged under a tag that was never there. |
| DncExport.Translate | translations/dnc_core.js:1533-1539 | The three passes as the export calls them. |
| DncExport.ExportConservesIff | translations/translate.js:1181-1277 | After the passes that the export calls the original tags can be recovered if and only if every tag that is not moved as a number or as text stays or goes under its own name, and no two tags reach one attribute. |
| DncExport.ExportConservesWantedIff | translations/translate.js:159-252 | Whichever tags are used up on purpose, for a feature code or a row without an attribute: all the others can be recovered if and only if each of them stays or goes under its own name, and no two of them reach one attribute. |
| DncExport.TraceableLogDiffers | translations/translate.js:159-252 | When the tags that are not used up on purpose can be recovered, no two entries of the log name one tag. |
| DncExport.ValidationConservesIff | translations/dnc_core.js:237-403 | For every state whose log records these tags: after the validation the unused tags and those behind the attributes that were neither dropped nor reset are the given ones if and only if the tags could be traced before it. |
| DncExport.ValidatedExportConservesIff | translations/dnc_core.js:1533-1539 | The export's three passes and the validation together: the tags are conserved if and only if all of them were traceable. |
| DncExport.ValidatedExportConservesWantedIff | translations/dnc_core.js:1533-1539 | The same for the tags that are not used up on purpose, whatever else the feature has. |
| RuleTable.KvpRoundTripIff | translations/SchemaTools.js:322-326 | Writing a key and a value with an equals sign and splitting again gives both back if and only if the key has no equals sign. |
| RuleTable.ExpandAliases | translations/SchemaTools.js:42-64 | Every tag is preceded by a copy for each of its aliases. |
| RuleTable.GenerateRuleTags | translations/SchemaTools.js:101-154 | The scored tags of one rule of any kind, or the exception. |
| RuleTableTags.KvpIff | translations/SchemaTools.js:322-326 | A name is split at its first equals sign; without one it is a value. |
| RuleTableTags.WildcardYieldsIff | translations/SchemaTools.js:263-286 | A pattern yields a key and a value with a score if and only if some tag of the schema has them under one of its names, both halves match, and the score is that of the rule, or for 0 the tag's own. |
| RuleTableTags.SimilarYieldsIff | translations/SchemaTools.js:104-122 | Similarity yields exactly what the database finds under a name that reaches the threshold itself and has a value, with a score on the line between the two ends. |
| RuleTableTags.IsAYieldsIff | translations/SchemaTools.js:123-137 | Descent yields exactly the tag and its descendants under all their names that have a value; an unknown name throws. |
| RuleTableTags.SimpleYieldsIff | translations/SchemaTools.js:138-145 | A name yields exactly that tag under all its names; an unknown one throws. |
| RuleTable.GenerateToOgrTable | translations/SchemaTools.js:195-236 | The nested loops that fill the table, and when they throw. |
| RuleTableTags.EntryIff | translations/SchemaTools.js:195-236 | For every key and value: the table holds nothing if no rule of a used row yields them, and otherwise the target of the first row that yields them with the highest score. |
| RuleTableTags.TableExistsIff | translations/SchemaTools.js:195-236 | The table is made if and only if every used row has no missing cell, only known names, and yields something. |
| RuleTableBest.TableIsFirstBest | translations/SchemaTools.js:218-231 | For every key and value the table holds the first candidate with the highest score, and nothing if there is no candidate; a score that is no number stays if and only if it comes first. |
| RuleTableBest.FirstBestIsOne | translations/SchemaTools.js:226-230 | There is at most one such candidate. |
| RuleTableBest.OrderIrrelevantIff | translations/SchemaTools.js:195-236 | With numbers for scores, every reordering of the rows gives the same table if and only if the best score at each tag comes from one target. |
| RuleTableKinds.ScaledBetween | translations/SchemaTools.js:115-120 | For thresholds below 1 the scaled score rises with the similarity and stays between the two ends. |
| RuleTableKinds.ScaledEnds | translations/SchemaTools.js:115-120 | The threshold is scaled to the least score and 1 to the greatest. |
| RuleTableKinds.ScoresAreNumbers | translations/SchemaTools.js:101-154 | Thresholds other than 1 and wildcard scores other than 0 give numbers only. |
| RuleTableKinds.ScoreTellsRank | translations/TranslateSchemaDemo.js:39-54 | With scores as in the demo translation the score of a tag tells the kind of rule it comes from. |
| RuleTableKinds.HighestRankWins | translations/SchemaTools.js:226-230 | Whatever the order of the rows, the entry for a tag comes from a rule of the highest rank that yields it: name, then pattern, then similarity, then descent. |
| RuleTableToOsm.GetToOsmKvp | translations/SchemaTools.js:238-261 | The tag a row stands for, or one of the exceptions. |
| RuleTableToOsm.ImplicitKvpIff | translations/SchemaTools.js:246-258 | A row without a tag of its own stands for one if and only if all its rules that imply a tag imply this one, and at least one does. |
| RuleTableToOsm.GenerateToOsmTable | translations/SchemaTools.js:161-193 | The loop that fills the table to OSM, and when it throws. |
| RuleTableToOsm.ToOsmIff | translations/SchemaTools.js:161-193 | The table exists if and only if every used row stands for a tag and no two of them have the same target. |
| RuleTableToOsm.ToOsmHolds | translations/SchemaTools.js:161-193 | The table holds the tag of every used row. |
| RuleTableTags.StandsForIff | translations/SchemaTools.js:238-261 | A row stands for the text that comes first in it, or for the one name that all its rules of the kinds that imply one share. |
| RuleTableTags.OsmEntryIff | translations/SchemaTools.js:161-193 | The table to OSM holds, for exactly the targets of the used rows, the key and the value of what the row stands for. |
| RuleTableToOsm.ThereAndBackIff | translations/SchemaTools.js:161-236 | For all rules and scores, when both tables compile: a used target is translated to the tag of its row, and back to itself if and only if the first best candidate for that tag has this target. |
| RuleTableToOsm.HigherComesBack | translations/SchemaTools.js:226-230 | It is enough that a candidate of its own beats those of every other target for the tag. |
| RuleTableToOsm.ThereAndBack | translations/SchemaTools.js:161-236 | With the scores of the demo: a target whose own row names its tag by a rule, when no other target names it, comes back, whatever the other rows name. |
| RuleTableToOsm.NamedElsewhereIsLost | translations/SchemaTools.js:161-236 | With these scores a target never comes back whose tag is generated by name for another target, and not for itself. |
| RuleTableToOsm.TypeFiftyIsLost | translations/TranslateSchemaDemo.js:39-42 | The first two rows of the demo: type 50 becomes `highway=road`, which becomes type 1; type 1 comes back. |
| RuleTableToOsm.RoadSchemaFits | translations/TranslateSchemaDemo.js:39-42 | A schema of a road and a link meets the assumptions, and both tables of these rows compile. |
| ListAttributes.IncrementIsHigher | translations/translate.js:428-441 | Counting a tag up raises ten times its length plus its last digit, also past 9 and for white space and the empty string. |
| ListAttributes.IncrementsGoUp | translations/translate.js:428-441 | So counting up never comes back to the same tag. |
| ListAttributes.FreshTag | translations/ENCv311_to_OSM.js:86-93 | The loop that looks for a free tag ends, and finds the specified one. |
| ListAttributes.FreshIsFirstFree | translations/ENCv311_to_OSM.js:86-93 | It takes no more steps than there are tags, every tag passed over is in use, and the one found is free. |
| ListAttributes.FixListAttributes | translations/ENCv311_to_OSM.js:45-102 | Comma lists become semicolon lists with extra tags, and used columns are removed. |
| ListExtras.ExtrasAreAdded | translations/ENCv311_to_OSM.js:62-96 | Every extra tag that a known code asks for is added with its value, under a free name of its own that is its name counted up past the tags in use; all other tags hold what the lists become, and nothing else. |
| ListExtras.ColumnsBecomeTags | translations/ENCv311_to_OSM.js:45-102 | The same for this direction: commas in the columns, semicolons in the tags. |
| ListAttributes.SplitListTags | translations/ENCv311_to_OGR.js:441-486 | Semicolon lists become comma lists, and used tags are removed. |
| ListExtras.TagsBecomeColumns | translations/ENCv311_to_OGR.js:441-486 | And back: semicolons in the tags, commas in the columns, and no extra tags. |
| ListAttributes.ValuesOnlyGrow | translations/ENCv311_to_OSM.js:62-96 | A value that is there is never overwritten, only extended. |
| ListRoundTrip.TextAt | translations/ENCv311_to_OSM.js:62-77 | The text of a list tag is what was there, followed by what all known pieces sent to it become, in the order of the visit. |
| ListRoundTrip.UsedUp | translations/ENCv311_to_OSM.js:99-99 | A column is removed if and only if it has a known piece. |
| ListTables.CreateLookup | translations/translate.js:33-64 | The table for one direction, in which the first rule stays. |
| ListTables.CreateBackwardsLookup | translations/translate.js:132-155 | The table for the other direction. |
| ListTables.ForwardIsFirst | translations/translate.js:33-64 | The table holds the first rule for each code of an attribute. |
| ListTables.BackwardIsFirst | translations/translate.js:132-155 | The table holds the first rule for each value of a tag. |
| ListTables.OneToOneIff | translations/translate.js:132-155 | When each code has one rule, the two tables undo each other if and only if no value of a tag has two meanings. |
| ListThereAndBack.CodesComeBack | translations/ENCv311_to_OGR.js:441-486 | With tables that undo each other, and extra tags apart from list tags: the known codes of a column come back as a permutation, whatever the two visiting orders. |
| ListThereAndBack.CodesComeBackInOrder | translations/ENCv311_to_OGR.js:441-486 | If they share one tag they come back in their order; a list of nothing but known codes comes back as the same text. |
| FeatureCode.WriteFeatureCode | translations/etds40.js:52-105 | The loop that writes the codes with their descriptions. |
| FeatureCode.WrittenOneMore | translations/etds40.js:82-92 | Nothing gives `Not found`; one more feature adds its code and its description, behind an ampersand unless it is the first, if the code has a description. |
| FeatureCode.EveryCodeIsWritten | translations/etds40.js:52-105 | Every code with a description is written with it, wherever it stands. |
| FeatureCode.ReadFeatureCode | translations/etds40_osm.js:74-104 | Reading up to two codes. |
| FeatureCode.FirstCodeIff | translations/etds40_osm.js:78-96 | A first code is read back, whatever follows it, if and only if it has neither a colon nor a separator. |
| FeatureCode.SecondCodeIff | translations/etds40_osm.js:78-87 | Every plain second code is read back if and only if the first part hides no separator, also not together with the one behind it. |
| FeatureCode.NoAmpersandIsClear | translations/etds40.js:82-92 | A description without an ampersand hides none. |
| FeatureCode.CodesAreReadBackIff | translations/etds40_osm.js:78-96 | For every list of features whose first known code has a description that hides no separator: the first two known codes, or the only one, are read back if and only if they have neither a colon nor a separator, whatever follows them. |
| Lein.Squeeze | translations/TranslationServer.js:743-755 | The loop that drops repetitions. |
| Lein.Translation | translations/TranslationServer.js:756-769 | Texts of unequal length throw; otherwise the index takes each letter of the first text to the one at the same place in the second, the last place if it occurs again. |
| Lein.IndexIsCode | translations/TranslationServer.js:774-774 | The index of the two constants is the grouping of the letters. |
| Lein.Lein | translations/TranslationServer.js:731-803 | The phonetic code, from cleaning to padding. |
| Lein.Groups | translations/TranslationServer.js:755-774 | The letters that are dropped, and the five groups of the others. |
| Lein.LeinDigits | translations/TranslationServer.js:782-803 | The code of a word: its first letter, and the codes of the first three letters after it that sound, without repetitions, filled up with zeros. |
| Lein.LeinForm | translations/TranslationServer.js:731-803 | The code of a non-empty word of letters is its first letter and three digits from 0 to 5. |
| Lein.SilentLettersDoNotMatter | translations/TranslationServer.js:789-789 | Inserting vowels, Y, W or H anywhere after the first letter changes nothing. |
| Lein.DoubledLettersDoNotMatter | translations/TranslationServer.js:791-792 | Doubling a letter that sounds, after the first, changes nothing, also with silent letters in between or in another case. |
| SchemaSearch.SearchFurther | translations/TranslationServer.js:583-702 | The three stages for what matches in neither way throw if and only if what sounds alike is short of the limit and the first character has no neighbours among the keys; otherwise they give fewer than twice the limit, beginning with what sounds alike. |
| SchemaSearch.SearchSchema | translations/TranslationServer.js:505-727 | The whole search, with the defaults for a limit and a distance of zero. |
| SchemaSearchOrder.Defaults | translations/TranslationServer.js:507-515 | No limit is 20, no distance is 200, and a vertex is searched as a point. |
| SchemaSearchOrder.StandsFirstIff | translations/TranslationServer.js:518-524 | A text is found where it stands first, upper and lower case being the same. |
| SchemaSearchOrder.DirectHitIs | translations/TranslationServer.js:530-566 | A direct hit carries the number left of its code without the text, or the place of the text in its description. |
| SchemaSearchOrder.DirectOrder | translations/TranslationServer.js:530-574 | Codes come before descriptions, the lowest first when they are numbers; descriptions come in the order in which the text stands in them. |
| SchemaSearchOrder.LowestCodesFirst | translations/TranslationServer.js:543-544 | When the codes are numbers, none is left out that has less left than a listed one. |
| SchemaSearchOrder.SoundHitIff | translations/TranslationServer.js:583-624 | An entry sounds alike if and only if neither its code nor its description holds the text and its nearest word is within the distance; the nearest entries come first. |
| SchemaSearchOrder.KeyHitIff | translations/TranslationServer.js:636-660 | What holds a text with a neighbouring first letter, by where it stands. |
| SchemaSearchOrder.KeySoundHitIff | translations/TranslationServer.js:664-700 | What sounds like it, from the nearest on, and at most five of each. |
| SchemaSearchOrder.FurtherStages | translations/TranslationServer.js:583-702 | The three further stages one after the other, and within the last two the neighbouring keys in their order. |
| SchemaSearchLimits.DirectHits | translations/TranslationServer.js:528-577 | The direct hits are matching entries, all different, as many as there are up to the limit. |
| SchemaSearchLimits.SearchFindsDirectHits | translations/TranslationServer.js:518-577 | When something matches directly the search returns exactly the direct hits. |
| SchemaSearchLimits.EarliestDescriptionsFirst | translations/TranslationServer.js:557-574 | No entry whose description matches is left out for one in which the text stands later. |
| SchemaSearchLimits.SearchFailsIff | translations/TranslationServer.js:839-846 | The search throws if and only if nothing matches directly, what sounds alike leaves room, and the first character has no neighbours in the table of keys. |
| SchemaSearchLimits.FallbackCount | translations/TranslationServer.js:583-702 | How many hits the three fallback stages give together. |
| SchemaSearchLimits.LimitExceededIff | translations/TranslationServer.js:642-702 | A search never returns twice the limit, and exceeds it if and only if something, but too little, sounds alike and the last two stages have more than is missing. |
| SchemaSearchLimits.AlmostDoubledIff | translations/TranslationServer.js:642-702 | When exactly one less than twice the limit is returned. |
| SchemaSearchLimits.EmptyTextLists | translations/TranslationServer.js:710-724 | Without a text the first entries of the geometry are listed in the order of the schema. |
| SchemaSearchExamples.EngineSorts | translations/TranslationServer.js:545-546 | There is an engine of the kind that these results assume: sorting by insertion. |
| SchemaSearchExamples.SearchForBatExceedsLimit | translations/TranslationServer.js:642-702 | A search for `bat` with limit 2, among entries described as bad, vad, gad, had and nad, returns three of them. |
| SchemaSearchExamples.SearchForKThrows | translations/TranslationServer.js:805-846 | In every schema without entries of the geometry a search for any text that begins with K throws, whatever the engine. |
| Text.Split | translations/RenderDb.js:150-155 | Splitting a string at a separator: joining the pieces gives the string back, and no piece holds the separator. |

## Left out

- `translate.packText`, `unpackText`, `unpackMemo` and the `o2s` layers: text packing of other translations; they would repeat the column model with other separators.
- Keys such as `constructor` that every JavaScript object inherits: maps have no inherited keys.
- Tag overrides from the configuration, debug output, and the refusal of collections in `translateToOgr`.
- HTTP, files, zip contents, command lines and hashing in the node server: only the events that complete them are steps.
- The `error` event of the zip archive, which throws unconditionally, and a child process whose error text is the word `running` or `complete`.
- Reading a coordinate and testing for self-intersection: parameters of `PolyRings`.
- `translate.fix23Tags`, the post-processing and the clean-up of feature-code tags, which run between the passes and the validation of an export and can delete further unused tags.
- `manyFeatures` and the other parts of the DNC pre- and post-processing: case lists over fixed tags.
- DncValidated.SecondRunKeepsUnused: does not cover a log in which two entries name one tag, as a tag and its numbered twin can make them.
- DncValidated.SecondRunChangesNothingIff: the same, and a log with an entry for a tag that is still unused.
- RenderDbRoundTrip.RoundTrip: the conditions on keys and quotes are sufficient only; a packed tag named like a text column, for one, can survive some visiting orders. What one column gives back is exact (`ColumnReadsIff`).
- RenderDbRoundTrip.LosslessWithRoom: the bound of 766 suffices and is the best for all inputs, but a heavier list can be packed without loss by luck; `RoundTrip` says what comes back then.
- Rule constructors of `SchemaTools.js` that check names against the schema; the schema database and the matching of patterns are parameters of `RuleTable`.
- Letters outside ASCII in upper and lower casing, and floating-point rounding of scores and coordinates.
- A negative search limit, and a limit given as text.
- The English translators other than `etds40`: they repeat its code.
- Conflation rules and the C++ core.
