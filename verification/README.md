# Verified models of Qt Extended components

A Dafny model of the stateful parts of this code base whose correctness is not obvious from any one
function, and proofs of what they guarantee over whole runs.

| files | component |
|---|---|
| `Depends*.dfy` | the dependency loader of the qbuild system: a fixpoint loop around a recursive walk over a project graph |
| `Rds*.dfy` | the RDS receiver: groups assembled out of noisy blocks, and the decoder of station name, RadioText and clock time |
| `Mouse*.dfy` | the touchscreen event reader: reframing of partial reads in a shifted buffer, and the closest pair of samples |
| `PresetHandles.dfy`, `PresetRuns.dfy` | station presets as copy-on-write handles with reference counts |
| `PresetTable.dfy` | the table of stored stations and its display |
| `Radio*.dfy` | tuning, scanning, and the units of the tuner hardware |
| `Providers.dfy`, `ProviderCache.dfy` | the function providers of qbuild and the cache of extension files |
| `AutoSaver.dfy`, `ConsoleWriter.dfy` | the debounced auto-save timer; the line-buffering console writer |

Each component has the same three layers.  Functions on values say what every operation computes, in
the order and with the branches of the code.  A class with the fields of the original updates them in
place, with its loops, and each method is proved to compute what the functions say.  Lemmas about the
functions state what the component guarantees: over every run, for every input, against an
independent description of the result.  `dafny verify dfyconfig.toml` checks everything.

The RDS encoder that the decoder is proved to invert follows the United States RBDS Standard of
April 9, 1998: section 3.1.5.1 (type 0), section 3.1.5.3 (type 2) and section 3.1.5.6 (type 4A).

## Where the code does less than its comments say

Each point names a lemma with a failing input and one that says when the code does what is expected:
exactly when, except that for the first two points the condition is exact on a family of graphs and
sufficient on all.

- The dependency loader drops the result of the walk into a dependency's own requests
  (`qbuild/extensions/depends.js:422-423`).  A request for a part of a dependency can therefore leave
  dependencies listed and not loaded, to be loaded by the next call (`PartialStopsEarly`,
  `PartialRequestIff`).  With whole requests everything is loaded (`WholeCloses`); `LoadCloses` gives
  the condition on any graph, and `ClosedIff` says when nothing is pending.  Projects that depend on
  each other do not get this far: opening them is fatal (`qbuild/src/solution.cpp:2206-2217`), and so
  are warnings, such as that for a dependency that exports nothing (`qbuild/src/project.cpp:654-659`).
- Dependencies whose names differ only in `/` and `.` share a rule database, and only the first one is
  imported (`ClashExample`, `ClashLosesVariable`).  That is harmless if the others persist the same, as
  with a database of one's own (`WholeDependencyLoaded`).
- RadioText of 64 characters without a carriage return is only shown when the last segment comes
  (`FullMessageMissed`, `FullMessageIff`), and type 2B text without one never (`TypeBMissed`,
  `TypeBShownIff`).
- A sample array of the touchscreen reader overflows exactly when a batch gets nine records of one
  kind (`NinthIsOutside`, `InBoundsIff`).
- The distance of two samples overflows, so the pair chosen can be among the farthest
  (`FarthestChosen`, `ClosestIff`).
- The table of stations has the primary key (frequency, region), so a station on a frequency that
  another band has in the same region is not stored (`OtherBandLost`, `AddedIff`).
- A scan does not end when it has gone round (`NoSignalOrbit`, `ScanEndsIff`); `setFrequency` on
  another band leaves two bands active and stores the frequency as the number of the band
  (`TwoBandsActive`, `SetFrequencyIff`); and where bands overlap a step can leave its band
  (`OverlapLeaves`, `StepStaysIff`).
- A radio that is closed and opened again can come back on another frequency: one step higher with
  tuners that count in sixteenths of a MHz (`ReopenFmIff`), and at the low end if its frequency was
  rounded to one above the band (`LostAboveBand`, `ReopenKHzIff`).
- Rounding to an odd step can go the longer way (`LongerWay`, `NormaliseNearestIff`).
- The extension cache is never invalidated (`NeverFound`, `StaysRightIff`); leftover console output is
  not cleared when it is dumped (`DumpRepeats`, `DumpCompletes`).

## Model

| member | source | states |
|---|---|---|
| `DependsClosure.ClosedIff` | qbuild/extensions/depends.js:252-300 | On every project graph, cyclic or not, for a project that is not disabled: everything that MODULES and DEPENDS list is loaded if and only if calling the loader changes nothing. |
| `DependsClosure.LoadCloses` | qbuild/extensions/depends.js:252-265 | If every dependency listed at the end announces itself (importing its variables counts, or it asks for nothing, or all requests are whole, it exports an object and is on no cycle), the first call reaches a closed project, and a second call runs nothing and returns 0. |
| `DependsClosure.WholeCloses` | qbuild/extensions/depends.js:252-265 | On every acyclic graph: if all requests are whole and what is listed at the end exports something, the first call loads everything that MODULES and DEPENDS list by then, and a second call runs nothing. |
| `DependsPartial.PartialRequestIff` | qbuild/extensions/depends.js:402-424 | On a family of graphs that opening the projects does deliver: the first call leaves the project enabled with everything loaded if and only if the dependency persists something, or asks for nothing, or is requested whole; so none of the three alternatives in the condition of LoadCloses can be left out. |
| `DependsPartial.PartialStopsEarly` | qbuild/extensions/depends.js:252-265 | The failing input: DEPENDS = d::auto_persist, where d persists nothing and depends on e and f, and loading e adds f. The first call counts 0 and leaves f listed and not run; the second call runs it. |
| `DependsPartial.GraphDelivered` | qbuild/extensions/depends.js:319-330 | Those graphs are possible: acyclic, everything listed exists and exports an object, and what each project lists is what the loader itself makes of it. |
| `DependsEnabled.StaysEnabled` | qbuild/extensions/depends.js:306-369 | Loading leaves the project enabled if no dependency is disabled and every module that the project, a dependency or an object asks for can be found. |
| `DependsClosure.VisitUncountedIff` | qbuild/extensions/depends.js:402-464 | The visit that imports the variables of a dependency goes uncounted if and only if it persists nothing and every object asked for by then has run before. |
| `DependsClosure.WholeDependencyLoaded` | qbuild/extensions/depends.js:402-510 | A dependency listed whole, or outside the root as persisted, has in a finished project each of its objects (outside the root, each persisted one) run exactly once, with everything that it adds in the variables; its auto-persisted variables, or those of a dependency that shares its rule database, MODULES among them, have been united into the project, and surely its own if whatever shares the database persists the same. |
| `DependsClosure.RequestedDependLoaded` | qbuild/extensions/depends.js:427-510 | For each entry of DEPENDS inside the root, with a rule or without: in a finished project what it asks for ran exactly once, with everything that it adds in the variables. |
| `DependsClosure.RequestedModuleLoaded` | qbuild/extensions/depends.js:427-625 | For each entry of MODULES in a finished project: the module was found, and the object it asks for (or every object) ran exactly once, with everything that it adds in the variables. |
| `DependsClosure.OnlyWantedRuns` | qbuild/extensions/depends.js:427-459 | Whatever ran belongs to a dependency that exports it, and an entry of the project, or of a dependency whose variables it has, asks for it, as a whole or by name. |
| `DependsOrigins.LoadOrigins` | qbuild/extensions/depends.js:402-510 | Over every run on every graph: each object that ran has everything its statements add in the variables of an enabled project, and belongs to a dependency that may be used (enabled, or outside the root asked for as persisted; outside the root only PERSISTED objects, and IMMEDIATE ones only of a dependency that the project itself lists); each imported dependency was asked for and has all it persists there; each value was there at the start or is one of these; each request comes from an entry of the project or of a dependency whose variables it has; and a disabled project lists a module that is nowhere or a disabled dependency. |
| `DependsOrigins.NothingElse` | qbuild/extensions/depends.js:402-510 | So in the end no variable holds a value that was not there at the start, is not persisted by an imported dependency, and is not added by an object that ran. |
| `DependsOrigins.DisabledBy` | qbuild/extensions/depends.js:322-333 | And a project that loading disables lists, itself or through a dependency whose variables it has, a module that is nowhere or a dependency that is disabled. |
| `DependsOrigins.ObjectApplied` | qbuild/extensions/depends.js:470-510 | An object that ran has everything it adds in the variables of an enabled project, unless its project exports another object of the same name. |
| `DependsSteps.LoadLeads` | qbuild/extensions/depends.js:252-625 | Every call of the loader is a run of small steps, each given by what it does to the project and by what allows it: asking, noting that a dependency exists, importing its variables, running one object, disabling. |
| `DependsSteps.EvalExecutes` | qbuild/extensions/depends.js:488-501 | Executing a snippet: every value of every statement is in its variable afterwards, with all that was there, and nothing else. |
| `DependsSteps.EvalInOrder` | qbuild/extensions/depends.js:488-501 | The statements of a snippet are executed one after the other. |
| `DependsSteps.UniteInOrder` | qbuild/extensions/depends.js:413-414 | No value comes twice into a variable, and new ones stand behind the old ones in the order of their first mention. |
| `DependsSteps.ObjectsInOrder` | qbuild/extensions/depends.js:427-459 | The objects of a dependency are run one after the other, and those counted are the sum. |
| `DependsSteps.NamesMean` | qbuild/extensions/depends.js:747-775 | The names asked for are those of the entries, each once, in the order of their first mention. |
| `DependsSteps.ResolveOrder` | qbuild/extensions/depends.js:544-621 | A module is the first listed project of the tree, other than the project itself, that is enabled and has its name; without one what its .dep file describes, without that the .dep file of the SDK, and otherwise it is nowhere. |
| `DependsExamples.RequestForms` | qbuild/extensions/depends.js:747-775 | An entry d asks for all of d, d::rule for that rule, and d::persisted for the persisted objects and all. |
| `DependsClosure.FirstObjectIsDue` | qbuild/extensions/depends.js:419-459 | Off every cycle, walking into the dependencies of a project cannot run the project's own objects, so its visit counts. |
| `DependsInvariants.LoadInv` | qbuild/extensions/depends.js:252-265 | Over every run: no object runs twice for a rule database, the databases record exactly what ran, whatever ran was wanted, and a dependency marked as imported has had its variables imported. |
| `DependsInvariants.InitialInv` | qbuild/extensions/depends.js:252-265 | That invariant holds of a project before any dependency is loaded. |
| `DependsInvariants.ImportDependInv` | qbuild/extensions/depends.js:375-464 | Loading one dependency, with everything below it, keeps that invariant. |
| `Depends.PassConsumes` | qbuild/extensions/depends.js:257-263 | A round that counts something takes at least one entry out of the finite set of rule entries still pending, which is why the loop ends on cyclic graphs. |
| `Depends.RoundsBounded` | qbuild/extensions/depends.js:257-263 | The number of rounds is at most the number of pending rule entries plus one. |
| `Depends.Visit` | qbuild/extensions/depends.js:402-424 | Importing the variables of a dependency takes it out of the unvisited projects before the walk goes on into its own dependencies, which is why the recursion ends. |
| `Depends.Load` | qbuild/extensions/depends.js:252-265 | Loading takes nothing back: variables, requests, processed rules and runs only grow. |
| `DependsExamples.ClashLosesVariable` | qbuild/extensions/depends.js:780-785 | Two dependencies whose names the rule database cannot tell apart: the loader ends enabled with everything settled, and what the second one persists has been imported if and only if the first one persists it, too. |
| `DependsExamples.ClashExample` | qbuild/extensions/depends.js:780-785 | Any value that only the second one persists is lost. |
| `DependsExamples.ClashingNames` | qbuild/extensions/depends.js:780-785 | Such names exist. |
| `DependsLoader.Loader.LoadDependencies` | qbuild/extensions/depends.js:252-265 | The loop over rounds computes the fixpoint and returns the total count. |
| `DependsLoader.Loader.LoadRound` | qbuild/extensions/depends.js:257-263 | One round of the loop: the modules, then the dependencies. |
| `DependsLoader.Loader.ResolveDepends` | qbuild/extensions/depends.js:271-300 | Decodes DEPENDS and processes each name in order; returns how many did something. |
| `DependsLoader.Loader.ProcessDependency` | qbuild/extensions/depends.js:306-369 | A missing project counts nothing, a disabled one disables this project, one outside the root is loaded only when asked for as persisted, and a project that is not the module searched for gives -1. |
| `DependsLoader.Loader.ProcessDepProject` | qbuild/extensions/depends.js:375-464 | The exists rule, the import of auto-persisted variables, the walk into the dependency's own requests (its result dropped), and the wanted objects, each at most once. |
| `DependsLoader.Loader.ImportVariables` | qbuild/extensions/depends.js:402-424 | The import of the variables, and the walk into the dependency's own requests. |
| `DependsLoader.Loader.LoadNested` | qbuild/extensions/depends.js:419-424 | Loads what a dependency itself asks for, and looks at no result. |
| `DependsLoader.Loader.CopyVariables` | qbuild/extensions/depends.js:402-418 | Unites each non-empty auto-persisted variable and counts it, after marking the import as done. |
| `DependsLoader.Loader.RunObjectsOf` | qbuild/extensions/depends.js:427-459 | Runs the objects that are wanted and not yet processed, with the rules for persisted and immediate objects. |
| `DependsLoader.Loader.RunDependObject` | qbuild/extensions/depends.js:470-510 | Marks the object, and executes each statement of its snippet in order, unless the project is disabled; EvalExecutes says what that does. |
| `DependsLoader.Loader.LoadModules` | qbuild/extensions/depends.js:516-625 | Loads the listed modules in order; a module that is nowhere disables the project and ends the call with 0. |
| `DependsLoader.Loader.LoadName` | qbuild/extensions/depends.js:544-621 | A module comes from a project of the tree, else from a .dep file, else from the SDK. |
| `DependsLoader.Loader.LoadMatch` | qbuild/extensions/depends.js:553-569 | Takes the first match that is the module, never the project itself. |
| `DependsLoader.Loader.DecodeRules` | qbuild/extensions/depends.js:747-775 | Yields the names without repetition and adds the wanted rules of every entry. |
| `DependsLoader.Loader.AddWanted` | qbuild/extensions/depends.js:761-772 | One entry name::rule adds its rule (and all for persisted), one without a rule adds all. |
| `RdsGroups.RunAssembles` | examples/radioplayer/rdsgroup.cpp:75-112 | For every block stream since clear: the data are the payload of the earliest error-free blocks A, B, C (or C') and D in this order, and the status is Ok exactly when the group is complete and only repeats of its last block or E blocks followed. LabelMeans says what the labels are. |
| `RdsGroups.LabelMeans` | examples/radioplayer/rdsgroup.cpp:76-97 | What a status byte says: the error bit makes the block bad whatever else is set; otherwise its low three bits are the block number, 4 takes the place of C, 5 and 6 are E blocks, and 7 is bad. |
| `RdsGroups.GroupAsSent` | examples/radioplayer/rdsgroup.cpp:75-112 | The blocks A, B, C or C', D as they are sent, with any value of the other status bits, end Ok with their eight bytes. |
| `RdsGroups.RunShape` | examples/radioplayer/rdsgroup.cpp:75-112 | The data have length 2 * (prevBlock + 1), at most 8, and Ok implies 8. |
| `RdsGroups.CompleteIff` | examples/radioplayer/rdsgroup.cpp:98-111 | On status bytes: a group is complete if and only if the stream has error-free blocks A, B, C (or C') and D in this order, whatever lies between. |
| `RdsGroups.CleanGroup` | examples/radioplayer/rdsgroup.cpp:75-112 | On status bytes: a stream of A, B, C or C', D blocks with anything but an error-free A block first, repeats, and E blocks anywhere ends Ok with the first payload of each. |
| `RdsGroups.RunStatus` | examples/radioplayer/rdsgroup.cpp:75-112 | An incomplete group waits for more if and only if nothing has spoiled it (a bad block, or, once it has begun, a number other than the next and the last one), and is invalid otherwise; a complete one is Ok or invalid. |
| `RdsGroups.InvalidNotSticky` | examples/radioplayer/rdsgroup.cpp:78-81 | A group spoiled by a bad block is Ok again once the missing block comes. |
| `RdsGroups.AssemblyUnique` | examples/radioplayer/rdsgroup.cpp:98-111 | The blocks that the reference picks are determined by the stream. |
| `RdsGroups.RdsGroup.AddBlock` | examples/radioplayer/rdsgroup.cpp:75-112 | One block, as an update of data, status and previous block; the number is computed from the status byte as in the source, and agrees with the label. |
| `RdsGroups.RdsGroup.Clear` | examples/radioplayer/rdsgroup.cpp:188-193 | Back to the empty group. |
| `RdsStandard.CommonRoundTrip` | examples/radioplayer/rdsprograminfo.cpp:81-84 | For every value of every field: PI, PTY and TP packed as the RBDS standard says are decoded as sent, whatever the group type. |
| `RdsStandard.TuningRoundTrip` | examples/radioplayer/rdsprograminfo.cpp:90-99 | For type 0, either version: the TA and music flags, the segment and its two characters come back, no other character of the name changes, and nothing else is touched. |
| `RdsStandard.TextARoundTrip` | examples/radioplayer/rdsprograminfo.cpp:101-120 | For type 2A: the A/B flag, the segment and the four characters come back. |
| `RdsStandard.TextBRoundTrip` | examples/radioplayer/rdsprograminfo.cpp:121-126 | For type 2B: the flag, the segment and the two characters come back. |
| `RdsStandard.TextOnly` | examples/radioplayer/rdsprograminfo.cpp:101-138 | A RadioText group touches nothing but the flag, the buffer and the text shown. |
| `RdsStandard.ClockRoundTrip` | examples/radioplayer/rdsprograminfo.cpp:140-158 | For type 4A: the 17-bit day number, hour, minute and the signed half-hour offset come back; the notification is sent. |
| `RdsStandard.OtherRoundTrip` | examples/radioplayer/rdsprograminfo.cpp:79-161 | A group of any other type changes nothing but what is common to all. |
| `RdsStandard.NotifiedIff` | examples/radioplayer/rdsprograminfo.cpp:139-160 | The clock time is announced for type 4A and for no other group, 4B included. |
| `RdsStandard.ShortGroup` | examples/radioplayer/rdsprograminfo.cpp:79-84 | What is missing of a group counts as 0, and without the second block it has no type. |
| `RdsStandard.BlockBDecoded` | examples/radioplayer/rdsgroup.cpp:118-183 | Type, version, program type, traffic program and the five bits of the group are recovered from block B. |
| `RdsHistory.RunParsed` | examples/radioplayer/rdsprograminfo.cpp:79-161 | What is common to all groups does not interfere with names and texts, so what follows holds of the groups themselves. |
| `RdsHistory.TextSinceFlip` | examples/radioplayer/rdsprograminfo.cpp:101-126 | RadioText never mixes messages: the buffer is exactly what the groups since the last flip of the A/B flag or the clear wrote, each position as written last. |
| `RdsHistory.TextByteSource` | examples/radioplayer/rdsprograminfo.cpp:101-126 | Each non-zero byte of the buffer comes from a type 2 group with the current flag, with no other flag since and no later group over it. |
| `RdsHistory.NameIsLatest` | examples/radioplayer/rdsprograminfo.cpp:90-99 | The station name is the latest type 0 pair of each segment since the clear. |
| `RdsHistory.BufferDuring` | examples/radioplayer/rdsprograminfo.cpp:101-126 | While a message is received, by groups of type 2A, 2B or both, the buffer holds what has arrived of it and zeros, if the decoder held nothing with the same A/B flag before. |
| `RdsHistory.MessageDelivered` | examples/radioplayer/rdsprograminfo.cpp:101-138 | Once everything up to the carriage return has arrived, by groups of either type, in any order, repeated, with other groups between, the text shown is the trimmed message (if the decoder held nothing with the same flag before). |
| `RdsHistory.LastSegmentPublishes` | examples/radioplayer/rdsprograminfo.cpp:127-137 | Without a carriage return, what is shown is what had arrived when segment 15 of type 2A came for the last time. |
| `RdsHistory.FullMessageIff` | examples/radioplayer/rdsprograminfo.cpp:127-137 | A message of 64 characters without a carriage return is shown as it is if and only if, when segment 15 came for the last time, all of it had arrived, or exactly what is missing first begins right behind its visible part; a blank one always. |
| `RdsHistory.SufficesIff` | examples/radioplayer/rdsprograminfo.cpp:127-137 | The same for any text in the buffer: what a gap leaves of the message is shown as the message only then. |
| `RdsHistory.JoinedLate` | examples/radioplayer/rdsprograminfo.cpp:127-137 | A decoder that joins such a message at its last segment does not show it, whatever it receives until that segment comes again. |
| `RdsHistory.FullMessageMissed` | examples/radioplayer/rdsprograminfo.cpp:127-137 | So there is a series of groups that delivers all of the message without its being shown. |
| `RdsHistory.FullMessageDelivered` | examples/radioplayer/rdsprograminfo.cpp:127-137 | The sufficient half of this also for messages that contain a NUL. |
| `RdsHistory.TypeBShownIff` | examples/radioplayer/rdsprograminfo.cpp:121-137 | Once a message of type 2B has arrived, up to its carriage return or all 32 characters, in any order, it is shown if and only if it contains a carriage return; otherwise the text shown stays as it was. |
| `RdsHistory.TypeBMissed` | examples/radioplayer/rdsprograminfo.cpp:121-137 | 32 visible characters without a carriage return, all delivered, and nothing is shown. |
| `RdsHistory.TypeBSilent` | examples/radioplayer/rdsprograminfo.cpp:121-137 | Groups of type 2B without a carriage return never change the text shown, whether all has arrived or not. |
| `RdsHistory.TypeBNeedsCr` | examples/radioplayer/rdsprograminfo.cpp:121-137 | If no 2B group ever brings a carriage return, nothing is ever shown. |
| `RdsReceiver.RdsProgramInfo.AddGroup` | examples/radioplayer/rdsprograminfo.cpp:79-161 | One group, as an update of the fields and of the two character arrays in place, with the notification. |
| `RdsReceiver.RdsProgramInfo.AddTuningGroup` | examples/radioplayer/rdsprograminfo.cpp:90-99 | Flags and the pair of characters. |
| `RdsReceiver.RdsProgramInfo.AddTextGroup` | examples/radioplayer/rdsprograminfo.cpp:101-138 | Flag, buffer and text shown. |
| `RdsReceiver.RdsProgramInfo.StoreText` | examples/radioplayer/rdsprograminfo.cpp:104-126 | Both together: the buffer is cleared when the flag flips, then the characters are stored; all else stays. |
| `RdsReceiver.RdsProgramInfo.Restart` | examples/radioplayer/rdsprograminfo.cpp:104-109 | A flip of the A/B flag clears the buffer, and nothing else is touched. |
| `RdsReceiver.RdsProgramInfo.PutText` | examples/radioplayer/rdsprograminfo.cpp:110-126 | Four characters (2A) or two (2B) go to their place; the position behind them is returned. |
| `RdsReceiver.RdsProgramInfo.ShownText` | examples/radioplayer/rdsprograminfo.cpp:127-137 | Whether a message is complete, and what of it is shown. |
| `RdsReceiver.RdsProgramInfo.SearchCr` | examples/radioplayer/rdsprograminfo.cpp:127-128 | The first carriage return of the buffer, or its size. |
| `RdsReceiver.RdsProgramInfo.Clear` | examples/radioplayer/rdsprograminfo.cpp:66-77 | Everything is cleared; music is assumed. |
| `Mouse.CutsDoNotMatter` | examples/mousedriver/examplemousehandler.cpp:88-168 | Samples, positions and events depend only on the bytes delivered, never on how read split them; the buffer is the suffix behind the last whole record. |
| `Mouse.RecordsAppend` | examples/mousedriver/examplemousehandler.cpp:97-108 | Reframing gives the same records wherever the stream is cut. |
| `Mouse.InBoundsIff` | examples/mousedriver/examplemousehandler.cpp:101-108 | Every sample is stored inside the arrays if and only if no batch gets nine x or nine y records. |
| `Mouse.NinthIsOutside` | examples/mousedriver/examplemousehandler.cpp:101-108 | Eight x records in a row are stored; the ninth is not. |
| `Mouse.BalancedIsSafe` | examples/mousedriver/examplemousehandler.cpp:101-108 | In particular when the numbers of x and y records of a batch never differ by more than four. |
| `MouseEvents.EventsAre` | examples/mousedriver/examplemousehandler.cpp:98-161 | Over every record stream inside the arrays: what is announced are, as presses, the positions on the screen of its complete batches, and a release for each record (24, 0), at the position the reader is at; in this order, and nothing else. |
| `MouseEvents.OneToOne` | examples/mousedriver/examplemousehandler.cpp:141-161 | Releases are one to one with the records that lift the pen, and presses with the complete batches whose position is on the screen, each in order and at that position. |
| `MouseEvents.AtIs` | examples/mousedriver/examplemousehandler.cpp:141-161 | The reader is at the last position announced as pressed, or at (0, 0). |
| `MouseEvents.OnlyOnScreen` | examples/mousedriver/examplemousehandler.cpp:142-147 | No position outside 0 to 2000 is ever announced, pressed or released. |
| `MouseEvents.SamplesAre` | examples/mousedriver/examplemousehandler.cpp:98-108 | The samples of the current batch are the last values of each code in the stream, as many as have come since the last complete batch or lifting of the pen. |
| `MouseEvents.RecordRoundTrip` | examples/mousedriver/examplemousehandler.cpp:37-43 | Whatever the time and the type, code and value of a record packed in 16 bytes, the lowest first, are read as sent. |
| `MouseEvents.StreamRoundTrip` | examples/mousedriver/examplemousehandler.cpp:97-99 | So are those of a stream of such records, one by one, and what is behind them stays. |
| `Mouse.ClosestFound` | examples/mousedriver/examplemousehandler.cpp:112-131 | Among five or more 32-bit samples the search always finds a pair: the first in loop order whose distance, computed in 32 bits, is least over all pairs. |
| `Mouse.ClosestIff` | examples/mousedriver/examplemousehandler.cpp:112-131 | That pair is the first closest one if and only if no pair more than INT_MAX apart wraps to a smaller distance (or to the same one and comes earlier). |
| `Mouse.FirstClosestExists` | examples/mousedriver/examplemousehandler.cpp:112-131 | There is such a pair in every batch. |
| `Mouse.SpreadClosest` | examples/mousedriver/examplemousehandler.cpp:112-131 | In particular if no two samples are more than INT_MAX apart. |
| `Mouse.FarthestChosen` | examples/mousedriver/examplemousehandler.cpp:116-134 | A batch on which the search takes the pair that is all but the farthest apart: INT_MAX, -1, 0, 10, 20. |
| `Mouse.GapValue` | examples/mousedriver/examplemousehandler.cpp:116-118 | What the computed distance of two samples is, in terms of the real one. |
| `Mouse.SearchIsFirst` | examples/mousedriver/examplemousehandler.cpp:112-131 | From any pair on, the search keeps the first least computed distance of all pairs seen. |
| `Mouse.PositionIsLeast` | examples/mousedriver/examplemousehandler.cpp:109-134 | Each coordinate of a position is half the 32-bit sum of the first pair with the least computed distance. |
| `Mouse.PositionIsClosest` | examples/mousedriver/examplemousehandler.cpp:109-134 | With samples at most INT_MAX apart it is half the sum of the first closest pair, for both axes if and only if neither sum overflows. |
| `Mouse.SumIff` | examples/mousedriver/examplemousehandler.cpp:133-134 | Half the 32-bit sum is half the sum exactly when the sum is a 32-bit integer. |
| `Mouse.FirstClosestUnique` | examples/mousedriver/examplemousehandler.cpp:112-131 | There is only one first closest pair. |
| `MouseHandler.StaleIndices` | examples/mousedriver/examplemousehandler.cpp:121-131 | Indices left over from an earlier batch never influence a position. |
| `MouseHandler.SearchFromStale` | examples/mousedriver/examplemousehandler.cpp:112-134 | So a position is the same whatever indices the search starts with. |
| `MouseHandler.MeaningIff` | examples/mousedriver/examplemousehandler.cpp:88-168 | The invariant of the handler says that its state and its buffer are those of the whole stream. |
| `MouseHandler.ReadsAll` | examples/mousedriver/examplemousehandler.cpp:88-168 | If every call of read asks for something, each delivers at least one byte until all pending bytes are read, and as many calls as bytes read them all. |
| `MouseHandler.NeverNinePrefix` | examples/mousedriver/examplemousehandler.cpp:101-108 | A stream that stays inside the arrays does so up to any point. |
| `MouseHandler.TraceLeads` | examples/mousedriver/examplemousehandler.cpp:97-162 | The states that the handler goes through, record by record, end where the records lead. |
| `MouseHandler.ExampleMouseHandler.ReadMouseData` | examples/mousedriver/examplemousehandler.cpp:82-168 | Reads on until a call delivers nothing, which settles how much is read; and however the reads cut the pending bytes, samples, position, events and the bytes left in the buffer are those of everything read so far, the events being the presses and releases of its records, and no access leaves an array. |
| `MouseHandler.ExampleMouseHandler.EventsRead` | examples/mousedriver/examplemousehandler.cpp:82-168 | Of whatever has been read, the events and the position of the object are those of its records. |
| `MouseHandler.ExampleMouseHandler.ReadOnce` | examples/mousedriver/examplemousehandler.cpp:90-92 | One call of read delivers as many bytes as are asked for, are pending, and fit behind the bytes left over. |
| `MouseHandler.ExampleMouseHandler.HandleChunk` | examples/mousedriver/examplemousehandler.cpp:88-167 | One round of reading keeps this. |
| `MouseHandler.ExampleMouseHandler.HandleBuffer` | examples/mousedriver/examplemousehandler.cpp:97-162 | Handling the buffered records advances state and buffer to those of the longer stream. |
| `MouseHandler.ExampleMouseHandler.HandleRecord` | examples/mousedriver/examplemousehandler.cpp:98-161 | One record, as an update of the sample arrays, the minima and the position, with its events; what they are over a stream is EventsAre. |
| `MouseHandler.ExampleMouseHandler.EndOfBatch` | examples/mousedriver/examplemousehandler.cpp:109-153 | The end of a batch, as an update of the counts, the minima and the position, with the event. |
| `MouseHandler.ExampleMouseHandler.FindClosest` | examples/mousedriver/examplemousehandler.cpp:112-131 | The nested loops compute the search of both axes, from whatever minimum and indices they start with. |
| `MouseHandler.ExampleMouseHandler.Shift` | examples/mousedriver/examplemousehandler.cpp:163-166 | The surplus bytes move to the front of the same buffer. |
| `PresetRuns.Execute` | examples/radioplayer/radiopresets.cpp:57-152 | Any run of creating, copying, assigning, setting and destroying handles shows the same records as the run on independent records; of all payloads allocated in the run, each counts exactly the live handles that point to it and has been deleted exactly when there is none; and two handles share a payload exactly when one step wrote both. |
| `PresetRuns.GroupedStep` | examples/radioplayer/radiopresets.cpp:57-152 | One step keeps this correspondence between sharing and writing. |
| `PresetHandles.OnlyOwner` | examples/radioplayer/radiopresets.cpp:140-142 | The count is one exactly for the only live handle of a payload. |
| `PresetHandles.LiveNotDeleted` | examples/radioplayer/radiopresets.cpp:68-72 | A payload with a live handle has not been deleted. |
| `PresetHandles.RadioPreset.Copy` | examples/radioplayer/radiopresets.cpp:62-66 | A copy shares the payload; every count still equals the number of live handles. |
| `PresetHandles.RadioPreset.Destroy` | examples/radioplayer/radiopresets.cpp:68-72 | The payload is deleted exactly when this was its last handle. |
| `PresetHandles.RadioPreset.Assign` | examples/radioplayer/radiopresets.cpp:74-83 | The handle shows what the other showed, self-assignment included; no other handle changes. |
| `PresetHandles.RadioPreset.CopyOnWrite` | examples/radioplayer/radiopresets.cpp:140-152 | The handle ends up alone on a payload with the same contents; no other handle changes. |
| `PresetHandles.RadioPreset.Detach` | examples/radioplayer/radiopresets.cpp:140-152 | The copy: a new payload with the same contents for this handle alone, and one owner less for the old one. |
| `PresetHandles.RadioPreset.SetRegion` | examples/radioplayer/radiopresets.cpp:90-94 | Changes this handle's region and nothing of any other handle. |
| `PresetHandles.RadioPreset.SetName` | examples/radioplayer/radiopresets.cpp:101-105 | Likewise the name. |
| `PresetHandles.RadioPreset.SetGenre` | examples/radioplayer/radiopresets.cpp:112-116 | Likewise the genre. |
| `PresetHandles.RadioPreset.SetBand` | examples/radioplayer/radiopresets.cpp:123-127 | Likewise the band. |
| `PresetHandles.RadioPreset.SetFrequency` | examples/radioplayer/radiopresets.cpp:134-138 | Likewise the frequency. |
| `PresetTable.RunUnique` | examples/radioplayer/radiopresets.cpp:336-404 | Over every run no two rows share frequency and region, hence none share frequency, band and region. |
| `PresetTable.RunUpToDate` | examples/radioplayer/radiopresets.cpp:406-433 | After a refreshing operation the display is exactly the rows of the current region in strictly ascending frequency, and the region list is the distinct non-empty regions. |
| `PresetTable.AddShows` | examples/radioplayer/radiopresets.cpp:336-372 | After an addition the model works on the region of the station; with the display updated it shows the rows of that region, the station with them if its key was new, and otherwise what it showed before. |
| `PresetTable.RunRegion` | examples/radioplayer/radiopresets.cpp:336-433 | Over every run the region is the one chosen last: that of the last station added or imported, or the one asked for; that of the personal stations once the current one was cleared; and clearing another one keeps it. |
| `PresetTable.RunStaysShown` | examples/radioplayer/radiopresets.cpp:336-392 | An addition without display, or a file that cannot be opened, leaves the display as it was. |
| `PresetTable.AddedIff` | examples/radioplayer/radiopresets.cpp:336-372 | A station that was added is found afterwards if and only if no other band has a station on its frequency in its region. |
| `PresetTable.AddedInfo` | examples/radioplayer/radiopresets.cpp:314-334 | A station whose key is new is known by its own name and genre afterwards. |
| `PresetTable.StationInfoFirst` | examples/radioplayer/radiopresets.cpp:314-334 | What is known of a station are the name and the genre of the first row for it. |
| `PresetTable.OtherBandLost` | examples/radioplayer/radiopresets.cpp:346-367 | Two bands with a station each on one frequency of one region: the second station is not stored. |
| `PresetTable.AddRows` | examples/radioplayer/radiopresets.cpp:346-367 | Adding inserts the row if and only if its key is new, and changes no stored row. |
| `PresetTable.AddAllRows` | examples/radioplayer/radiopresets.cpp:374-392 | Importing appends, in order, the first station of each key that is new, and moves to the region of the last one. |
| `PresetTable.ReimportAddsNothing` | examples/radioplayer/radiopresets.cpp:374-392 | Importing the same list again adds nothing, also if others were imported in between. |
| `PresetTable.ClearRemoves` | examples/radioplayer/radiopresets.cpp:394-404 | Clearing removes exactly the rows of the region; the display goes to the personal stations if it showed that region, and stays with another one. |
| `PresetTable.RadioPresetsModel.AddToPresets` | examples/radioplayer/radiopresets.cpp:336-372 | The check, the insertion and the optional refresh, for the region of the station; AddShows says what is displayed. |
| `PresetTable.RadioPresetsModel.ImportStationsFrom` | examples/radioplayer/radiopresets.cpp:374-392 | The loop over the stations of a file that can be opened, and the refresh. |
| `PresetTable.RadioPresetsModel.ClearRegion` | examples/radioplayer/radiopresets.cpp:394-404 | The deletion and the refresh. |
| `PresetTable.RadioPresetsModel.Update` | examples/radioplayer/radiopresets.cpp:406-433 | The refresh: display, current region and region list. |
| `RadioScan.ScanStops` | examples/radioplayer/radiobandmanager.cpp:610-684 | With a station k steps from where the scan wraps to, a scan in either direction stops on a station after at most (steps to the end of the band) + k + 1 timer ticks. |
| `RadioScan.ScanEndsIff` | examples/radioplayer/radiobandmanager.cpp:610-684 | A scan ends by itself if and only if a station is on the grid of the band, or on the grid of the scan's second position and in front of it; otherwise it goes round for ever. |
| `RadioScan.StopsAtFirst` | examples/radioplayer/radiobandmanager.cpp:664-680 | It stops on the first station of its walk, one tick after it got there, and announces it. |
| `RadioScan.NoSignalOrbit` | examples/radioplayer/radiobandmanager.cpp:637-662 | Without a signal the frequencies visited after the first wrap repeat exactly the grid from the end of the band, as rounded, to its last point. |
| `RadioScan.OrbitRepeats` | examples/radioplayer/radiobandmanager.cpp:648-658 | The closed form of that orbit. |
| `RadioScan.ScanAllGoesOn` | examples/radioplayer/radiobandmanager.cpp:456-471 | A scan for all stations never ends by itself. |
| `RadioScan.AllStationsFound` | examples/radioplayer/radiobandmanager.cpp:456-684 | A scan for all goes forward, and announces each station it comes to, in order, and no other: the one it starts on, and those at which a tick finds it. |
| `RadioScan.NextMoves` | examples/radioplayer/radiobandmanager.cpp:637-659 | One move of a scan, also on a band that rounds and whose ends are not multiples of the step. |
| `RadioScan.FirstMove` | examples/radioplayer/radiobandmanager.cpp:637-659 | A move from a station wraps exactly if fewer than scanOffStationStep Hz are left to that end, and otherwise goes on by that much, within the rounding; from anywhere else it wraps exactly if fewer than scanStep Hz are left, and otherwise goes on by exactly scanStep. |
| `RadioScan.SkipsNearStations` | examples/radioplayer/radiobandmanager.cpp:637-680 | So a scan that starts on a station is, until it first wraps, at least scanOffStationStep Hz past it, less the rounding, and stops on nothing nearer. |
| `RadioScan.StartReports` | examples/radioplayer/radiobandmanager.cpp:610-635 | Starting a scan announces the end of an earlier one, the start and the first move, which hands the band a frequency inside it. |
| `RadioScan.TickReports` | examples/radioplayer/radiobandmanager.cpp:664-684 | One tick: off a station it announces its move, which hands the band a frequency inside it and reports it; on a station that it is found, and then the move (scanning for all) or the end. |
| `Radio.ApplyInv` | examples/radioplayer/radiobandmanager.cpp:344-684 | Each of setBand, the steps, the scans, stopScan and the timer keeps: exactly the current band active, each stored frequency a multiple of the step between what the ends of its band are rounded to, each frequency handed to a band inside it, and every scan announced as started but the last announced as stopped. |
| `Radio.WithinSlack` | examples/radioplayer/radiobandv4l.cpp:459-472 | Such a frequency is inside its band or within half a step (rounded up) of it. |
| `Radio.Run` | examples/radioplayer/radiobandmanager.cpp:85-106 | So does every run from construction on disjoint bands, and it changes no property of a band but frequency and activity. |
| `Radio.RunKeepsBand` | examples/radioplayer/radiobandmanager.cpp:344-354 | Over every run the current band is the last one chosen by setBand. |
| `Radio.StepInv` | examples/radioplayer/radiobandmanager.cpp:489-535 | A step by hand stays on the current band. |
| `Radio.SetFrequencyIff` | examples/radioplayer/radiobandmanager.cpp:361-377 | Setting a frequency keeps exactly one band active if and only if the frequency is on the current band or on none; otherwise both bands are active and the frequency is taken for the number of the current band. |
| `Radio.SetFrequencyStores` | examples/radioplayer/radiobandmanager.cpp:361-377 | A frequency that is on no band changes nothing, and one on the current band is stored there, rounded, and nowhere else. |
| `Radio.TwoBandsActive` | examples/radioplayer/radiobandmanager.cpp:361-377 | From AM to 98 MHz: both bands are active and the current band is number 98000000. |
| `Radio.StepStaysIff` | examples/radioplayer/radiobandmanager.cpp:489-535 | On bands that may overlap, a step stays on its band if and only if no band before it in the list has the target frequency. |
| `Radio.OverlapLeaves` | examples/radioplayer/radiobandmanager.cpp:489-535 | A step that leaves its band, on two bands that overlap. |
| `Radio.BandFrom` | examples/radioplayer/radiobandmanager.cpp:717-727 | The first band that has the frequency, or -1 if none has. |
| `Radio.NextCovered` | examples/radioplayer/radiobandmanager.cpp:637-658 | On a proper band the next position of a scan is inside the band. |
| `Radio.TargetCovered` | examples/radioplayer/radiobandmanager.cpp:489-535 | So is the target of a step by hand. |
| `Radio.TargetNearest` | examples/radioplayer/radiobandmanager.cpp:489-535 | A step by hand goes to the nearest multiple of the step above the frequency, or the nearest at least one step below it; if that is not in the band, to the end that steps wrap to. |
| `RadioManager.RadioBand.SetFrequency` | examples/radioplayer/radiobandv4l.cpp:459-472 | Stores the frequency, rounded if the band rounds. |
| `RadioManager.RadioBandManager.constructor` | examples/radioplayer/radiobandmanager.cpp:85-106 | The first band, if any, becomes active. |
| `RadioManager.RadioBandManager.SetBand` | examples/radioplayer/radiobandmanager.cpp:344-354 | Deactivates the old band and activates the new one. |
| `RadioManager.RadioBandManager.BandFromFrequency` | examples/radioplayer/radiobandmanager.cpp:717-727 | The loop over the bands. |
| `RadioManager.RadioBandManager.SetFrequency` | examples/radioplayer/radiobandmanager.cpp:361-377 | As the code does it, including what it does on a change of band. |
| `RadioManager.RadioBandManager.StepForward` | examples/radioplayer/radiobandmanager.cpp:489-509 | From the multiple of the step below, one step up, or around. |
| `RadioManager.RadioBandManager.StepBackward` | examples/radioplayer/radiobandmanager.cpp:515-535 | One step down, or around. |
| `RadioManager.RadioBandManager.TargetForward` | examples/radioplayer/radiobandmanager.cpp:495-503 | The target of a step up. |
| `RadioManager.RadioBandManager.TargetBackward` | examples/radioplayer/radiobandmanager.cpp:521-529 | The target of a step down. |
| `RadioManager.RadioBandManager.StartScan` | examples/radioplayer/radiobandmanager.cpp:610-635 | Stops a scan, announces the new one, makes the first move and starts the timer. |
| `RadioManager.RadioBandManager.NextScan` | examples/radioplayer/radiobandmanager.cpp:637-662 | One move, by the larger step when on a station, or around, with its report; FirstMove says where it goes. |
| `RadioManager.RadioBandManager.ScanTimeout` | examples/radioplayer/radiobandmanager.cpp:664-684 | Announces a station and stops, or moves on. |
| `RadioManager.RadioBandManager.StopScan` | examples/radioplayer/radiobandmanager.cpp:476-483 | Ends a scan, if there is one. |
| `RadioManager.RadioBandManager.ScanAll` | examples/radioplayer/radiobandmanager.cpp:456-471 | Reports the station it is on, and starts a scan that does not stop. |
| `RadioTuner.NormaliseLands` | examples/radioplayer/radiobandv4l.cpp:461-469 | Rounding lands on a multiple of the step, at most half a step (rounded up) away, and is idempotent. |
| `RadioTuner.NormaliseMonotone` | examples/radioplayer/radiobandv4l.cpp:461-469 | Rounding keeps the order of frequencies. |
| `RadioTuner.NormaliseNearestIff` | examples/radioplayer/radiobandv4l.cpp:461-469 | It finds the nearest multiple if and only if the frequency is not just below the middle of an odd step. |
| `RadioTuner.LongerWay` | examples/radioplayer/radiobandv4l.cpp:461-469 | So 1 is rounded to 3 on a step of 3. |
| `RadioTuner.NormaliseRestores` | examples/radioplayer/radiobandv4l.cpp:461-469 | A frequency on the grid survives any disturbance of less than half a step. |
| `RadioTuner.ReadBackKHz` | examples/radioplayer/radiobandv4l.cpp:489-499 | In kHz units writing and reading back loses at most 31 Hz, and nothing exactly for two residues of 125 Hz. |
| `RadioTuner.ReadBackMHz` | examples/radioplayer/radiobandv4l.cpp:489-499 | In MHz units it loses at most 31250 Hz, and nothing exactly for multiples of 62500 Hz. |
| `RadioTuner.ReopenKHzIff` | examples/radioplayer/radiobandv4l.cpp:82-160 | In kHz units and on a grid of 65 Hz or more, a radio that is closed and opened again comes back on its frequency if and only if the tuner reads it back inside the band, or the saved frequency (or the low end) is near enough to round to it. |
| `RadioTuner.LostAboveBand` | examples/radioplayer/radiobandv4l.cpp:82-160 | An AM band that ends at 1710.5 kHz: a scan backward stores 1711 kHz, which comes back as the low end. |
| `RadioTuner.ReopenFmIff` | examples/radioplayer/radiobandv4l.cpp:82-160 | In MHz units an FM radio comes back on its frequency if and only if that is not 100 kHz above a multiple of 250 kHz, or is within 25 kHz of the high end; otherwise it comes back one step higher. |
| `RadioTuner.StepsUsableIff` | examples/radioplayer/radioband.cpp:117-153 | A band gets a positive scan step, and a larger one that is a multiple of it, if and only if it is AM or FM or at least 200 Hz wide. |
| `RadioTuner.BandLimits` | examples/radioplayer/radioband.cpp:40-69 | Which band a range is, by the sum of its ends: AM from 0.5 to 1.8 MHz, short wave from 2 to 30, FM from 50 to 120, long wave from 0.1 to 0.3, with half a Hz of tolerance above. |
| `RadioTuner.StepsOfRange` | examples/radioplayer/radioband.cpp:117-153 | AM is scanned by 1 kHz, FM by 50 kHz, anything else by a 200th of its width, and from a station by 5 kHz, 500 kHz, or five times that. |
| `RadioTuner.InitialFrequency` | examples/radioplayer/radiobandv4l.cpp:120-138 | A band starts inside its range. |
| `RadioTuner.SavedFrequencyIff` | examples/radioplayer/radiobandv4l.cpp:149-160 | A radio that forgets its frequency gets it back exactly if it was a whole number of kHz, or the low end. |
| `Providers.RunOrdered` | qbuild/src/functionprovider.cpp:42-65 | After any registrations and destructions the list holds exactly the live providers, by priority (anything not positive last) and by registration among equals. |
| `Providers.EvalPicksBest` | qbuild/src/functionprovider.cpp:90-102 | A function is called on the live provider of the highest priority that has it, registered first among equals, and on none only if none has it. |
| `Providers.RunPaths` | qbuild/src/functionprovider.cpp:142-148 | Over every run the path added last is searched first, and each path ends with a slash, added only where there was none. |
| `Providers.SearchFirst` | qbuild/src/functionprovider.cpp:194-212 | The search finds the first hit, by path and then by provider. |
| `Providers.SearchNothing` | qbuild/src/functionprovider.cpp:194-219 | It finds nothing if and only if no path and provider hit. |
| `ProviderCache.FoundFile` | qbuild/src/functionprovider.cpp:194-219 | What a search finds is the file path/name.extension of the solution on one of the paths, for a provider with that extension; and it finds one if there is any. |
| `ProviderCache.CacheIsFirst` | qbuild/src/functionprovider.cpp:194-223 | The cache holds, for each name looked up, what the first search found, also that it found nothing. |
| `ProviderCache.LookupIff` | qbuild/src/functionprovider.cpp:194-223 | A lookup gives what a fresh search would if and only if nothing is cached for the name, or what is cached is the first hit now, or it is cached as not found and no path and provider hit. |
| `ProviderCache.MovesIff` | qbuild/src/functionprovider.cpp:42-223 | After any run, an operation changes what a search finds if and only if it is a registration that gets the first hit, the destruction of the provider found, a path on which something else is found, or a change of files after which the first hit is another. |
| `ProviderCache.StaysRightIff` | qbuild/src/functionprovider.cpp:194-223 | So a cached answer that is right stays right over an operation exactly if it is none of these. |
| `ProviderCache.NeverFound` | qbuild/src/functionprovider.cpp:194-223 | A file that is made after it was looked up is not found later, though a fresh search finds it. |
| `ProviderCache.UnchangedLookup` | qbuild/src/functionprovider.cpp:194-223 | In particular while paths, providers and files are unchanged since the first lookup. |
| `Providers.FunctionProviders.RegisterProvider` | qbuild/src/functionprovider.cpp:42-57 | Insertion before the first provider of lower priority, or at the end. |
| `Providers.FunctionProviders.EvalFunction` | qbuild/src/functionprovider.cpp:90-102 | The first provider of the list that has the function. |
| `Providers.FunctionProviders.AddExtensionsPath` | qbuild/src/functionprovider.cpp:142-148 | The path, ended by a slash, goes to the front. |
| `Providers.FunctionProviders.FindExtension` | qbuild/src/functionprovider.cpp:194-223 | The cached answer, or that of a search, which is then cached. |
| `AutoSaver.ChangesAreSaved` | examples/webviewer/util.cpp:54-83 | A first change is recorded exactly while the timer is active; with a timer late by at most L every change is saved within 15 s + 3 s + L of the first unsaved one; nothing is saved without a change since the save before. |
| `AutoSaver.UnsavedIsRecent` | examples/webviewer/util.cpp:54-83 | Whatever is unsaved when something happens is no older than that. |
| `AutoSaver.SavedAtOnceIff` | examples/webviewer/util.cpp:54-64 | A change is saved at once if and only if the first unsaved one is more than 15 s old; otherwise the timer starts anew and goes off 3 s after this change. |
| `AutoSaver.AutoSave.Change` | examples/webviewer/util.cpp:54-64 | A change restarts the timer, or saves at once after the longest wait. |
| `AutoSaver.AutoSave.Save` | examples/webviewer/util.cpp:75-83 | Saves if and only if the timer is active. |
| `ConsoleWriter.WholeLinesEmitted` | qbuild/src/gui.cpp:325-349 | However writes are cut and mixed, each stream has emitted exactly the whole lines written to it and holds back the rest. |
| `ConsoleWriter.SplitUnique` | qbuild/src/gui.cpp:325-349 | There is only one split of a text into whole lines and a piece without a newline. |
| `ConsoleWriter.DumpCompletes` | qbuild/src/gui.cpp:351-359 | The dump at the end completes the output; a second dump repeats something if and only if something was held back. |
| `ConsoleWriter.DumpRepeats` | qbuild/src/gui.cpp:351-359 | A text without a newline comes out twice when dumped twice. |
| `ConsoleWriter.ConsoleGui.WriteChunk` | qbuild/src/gui.cpp:325-349 | Splits at the last newline. |
| `ConsoleWriter.ConsoleGui.DumpLeftovers` | qbuild/src/gui.cpp:351-359 | Emits what is held back, and keeps it. |

## Left out

- DependsClosure.LoadCloses: the condition is sufficient on every graph; that each part of it is needed is stated for the family of graphs of PartialRequestIff, and for a single visit by VisitUncountedIff, since whether an uncounted round adds a request depends on what the snippets add.
- DependsClosure.WholeCloses: requires that no two projects share a rule database, and that what is listed exports something; without an export the program ends in a fatal warning. That the project stays enabled is StaysEnabled.
- DependsClosure.WholeDependencyLoaded: requires an entry without a rule (outside the root, the rule persisted); RequestedDependLoaded is about the others. When sharing a rule database is harmless is stated exactly for two dependencies only (ClashLosesVariable): in general another project, or a snippet, can bring the values that are missing.
- DependsLoader.Loader.ProcessDependency: does not model that opening a dependency builds and finalises it, and ends the program on a cycle or a warning; the projects of the model are what opening them delivers, and the predicate Delivered says what that is when it succeeds.
- DependsLoader.Loader.RunDependObject: does not model EVAL snippets in general; each adds a finite list of values to variables, whatever the state.
- RdsHistory.MessageDelivered: requires that the decoder holds nothing of another message with the same A/B flag, which the flag is there to ensure.
- RdsHistory.FullMessageIff: requires a message without a NUL, which would look like a gap; FullMessageDelivered has the sufficient half.
- RdsHistory.TypeBShownIff: requires that the decoder held nothing with the same A/B flag before, and for the if-and-only-if that the same text was not shown before.
- Radio.Run: requires bands with positive steps that do not overlap; StepsUsableIff and StepStaysIff say what happens otherwise.
- Mouse.BalancedIsSafe: a difference of at most three, which the array size suggests, is a special case.
- PresetTable.RunUpToDate: does not model that the filter of the display is pasted together (`examples/radioplayer/radiopresets.cpp:409`); a region that contains a quote, or is the name of a column, selects other rows.
- MouseHandler.ExampleMouseHandler.ReadMouseData: requires a stream that stays inside the sample arrays; InBoundsIff says which streams do. A call of read that fails is one that delivers nothing.
- Dependency loader: the opt-out by configuration, warnings, the LOCATION property, soft and hard disabling as two outcomes, and writing module.dep files.
- Dependency loader: the reset of a project is modelled as the disabling of later snippets only.
- RDS: alternate frequencies (the list is always empty), the program type names, QDate::fromJulianDay and the character set; trimming and cutting at a NUL are modelled.
- Touchscreen reader: the calibration transform is an arbitrary function; signed overflow wraps around, as the compilers for the device do it; the null check of the screen.
- RadioTuner.ReopenFmIff: for the FM step of 50 kHz, on a band whose ends are whole units of the tuner, as the code creates it; other steps in MHz units are left to ReadBackMHz and NormaliseRestores.
- RadioTuner.ReopenKHzIff: supposes that the tuner keeps what it is set to, also just above the range it declares; one that clamps to its range reads back the upper end. For steps of at least 65 Hz (a band of 13 kHz or more); below that the rounding of the tuner can exceed half a step.
- RadioTuner.LostAboveBand: supposes the same; with a tuner that clamps, the radio of this example comes back on 1711 kHz.
- Presets: the reader of KRadio files, SQL NULL in place of an empty string, formatFrequency (rows carry their description), the order of select distinct (first occurrence is used, the lemmas do not depend on it), and editing in the view.
- Presets: reference counts are updated in one step each, without threads.
- Radio: mute, volume, speaker, stereo and the signal-check timers; ioctl and QSettings; a signal is a fixed set of frequencies for each band; frequencies are unbounded and not negative.
- Radio: setFrequency with the name of a band.
- Function providers: evalLoad and the loading itself, the lock, and the rest of the solution beyond a map from names to files.
- Auto-save: wrap-around of the time of day, and the failure of save.
- Console writer: the progress line and the terminal, locks, and descriptors other than those of the two streams.
- Qt widgets, the web view, media and codec code, the script interpreter and rule engine, device plugins: user interface or opaque libraries.
