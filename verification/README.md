# Syncr: what its checks, its plates, its probe and its backups promise

A verification project in Dafny 4.11. It models the parts of the repository whose correctness is argued in prose
beside the code, and proves the arguments.

`dafny verify dfyconfig.toml` checks all of it.

## What is modelled

**The backup path** (`deployments/ops`, and `archive_command` in `docker-compose.yml`). `Archive` is a system of single
steps: Postgres begins a copy under a file's own name, writes more of it and ends it, the shipper reads the clock, lists,
compresses, uploads, unlinks and publishes, the nightly run stamps, uploads, plans and deletes, a recovery fetches one
name at a time, and any process may stop dead between any two of its steps, a copy included. `ArchiveSteps` proves that
each step keeps one invariant, `ArchiveLaws` and `GaugeLaws` what follows for every run. `Operations` and `FetchSegment` are the scripts as
they run, classes over the same state whose every effect is a step of that system. `Naming`, `Retention` and
`RetentionLaws` are the names and the 7/4/6 retention, with the algebra that lets it run night by night; `BackupFormats`
is what the names, the calendar and the orders are by themselves.

**The probe** (`packages/syncr-domain`). `Intervals` is the algebra of half-open spans, specified by the instants they
cover; `Probe` is the feasibility probe, over spans and, as its specification, over sets of instants; `ProbeLaws` and
`ProbeWeeks` say what a shortfall proves of every way to work the week, `ProbeMinutes` what counting in minutes costs;
`ProbeReports` states the report in arithmetic of its own, and `ProbeSilence` exactly when there is none.

**The plates** (`frontend/scripts/generate-plate`). `PngBytes`, `PngFilter`, `Png`, `PngLaws` and `PngImages` are the PNG
decoder and encoder, and `PngFormat` what every byte they read and write is; `Dither`, `DitherLaws` and `DitherGather`
the error diffusion, `Scale`, `ScaleLaws` and `ScaleMeans` the box scaling.

**The gates** (`frontend/scripts`). `Zones`, `CheckImports` and `ImportLaws` are the import check;
`StylesheetClosure` the sheets a sheet is loaded with; `Resolution`, `ResolutionLaws` and `ResolutionWalks` the colours a
token can end up as; `Hues`, `HueLaws` and `HueMeasures` the spacing of the Area pigments.

**The scanners** (`frontend/scripts/lib`, `tools/comments.py`). `JsComments`, `ProseReader` and `CssScan` are the three
hand-written scanners, `Lines` the position resolver, `ScannerLaws` and `CssLaws` what they promise alone and together,
and `ScannerStates` and `CssStates` automata that find the same comments a character at a time.

**The weeks** (`e2e/src/api/weeks.ts`). `Calendar` is the Gregorian calendar, `Weeks` and `WeekLaws` the ISO weeks.

Code that changes things in place is a method over an array or a class, proved against a function; the properties are
lemmas about the function. Automatic induction is turned off on every lemma, so a proof is what its body says.

## What is assumed of the surroundings

- Postgres offers files in ascending order of name, one at a time, none of them empty and with the same bytes at every
  attempt, and goes on to the next only when a copy has ended. A copy may be seen at any length short of the whole; its
  last write is its end.
- One shipper and one nightly run work at a time; only they write to the bucket; the clock moves on with every step and
  stays in the years `%Y` prints with four digits.
- gzip, gpg and rclone are wrappers that only their own inverse takes off, and a map from object names to contents and
  upload times. DEFLATE is any function with an inverse, the checksum any function.
- Reading files, finding imports in them and resolving specifiers are given, as a graph. What regular expressions read of
  a token's value is given with the value.
- Strings are sequences of UTF-16 code units. The Python reader counts code points, which is the same on text of the
  Basic Multilingual Plane.
- Tones and diffusion weights are real numbers, hues whole tenths of a degree.

## Where the code and its own words differ

The code is modelled as it is. Each of these is a lemma with the exact condition under which the promise holds.

- `retention.py` says what it cannot classify is kept. A stamp such as `20261399T000000Z` matches the pattern and is no
  instant, so once a newer copy of a real instant is uploaded its backup is reported as kept and deleted, and while it is
  the newest every night is refused (`RetentionLaws.UnclassifiedIsKeptExactly`, `RetentionLaws.PhantomIsDeleted`).
- `ship.py` takes a staged file to be a completed one. The `cp` of `archive_command` writes under the file's own name, so
  a listing can find it half written; it is then sent so and unlinked under the copy, the copy ends in success, and
  Postgres recycles the segment with its archiver recording a success. The object under a name is the whole file if and
  only if the copy had ended before gzip read it (`ArchiveLaws.EveryFileIsAccountedFor`, `ArchiveLaws.LostByTheseSteps`,
  `ArchiveLaws.TornCopyIsLost`). The recovery is stated under that condition (`ArchiveLaws.RecoveryReplaysEverything`),
  and runs whose listings find no copy unfinished lose nothing and recover everything byte for byte
  (`ArchiveLaws.SettledListingsLoseNothing`, `ArchiveLaws.SettledRecoveryIsWhole`).
- `ship.py` says its gauge means everything Postgres had archived is off-host. A file with one of the shipper's own
  suffixes never leaves, and the value is rounded to the nearest second, which can be later than the clock reading
  (`GaugeLaws.GaugeClaimExactly`).
- `probe.py` says it never over-reports. It counts capacity in pieces, each cut to whole minutes, so it does where the
  parts left over come to a minute, as where a window ends within one (`ProbeMinutes.SplitMinuteIsMisread`,
  `ProbeMinutes.DeadlineCheckIsTrueExactly`, `ProbeMinutes.FloorCheckIsTrueExactly`). It is off by two minutes at most
  (`ProbeLaws.GapAgainstADeadline`), and by none where every instant but now is a whole minute
  (`ProbeMinutes.WholeMinutesAreKept`, `ProbeWeeks.ShortfallIsProof`).
- `probe.py` says two deadlines of one Area need two lots of minutes. The capacity a window takes from the Area is taken
  off the Area's own earlier claims too, so each may be told that all of it is its own
  (`ProbeMinutes.SharedCapacityIsMisread`). Weeks of one Area are decided on just those calendars that have no whole
  minute the Area may use, or none it may not (`ProbeWeeks.OneAreaIsDecided`).
- `scaleToWidth`'s row guard binds for a source with no rows, and only then (`ScaleLaws.GuardsNeverBind`).
- `isUnderSourceRoot` takes a directory such as `src/..cache/` for a package (`Zones.PackagesAreOutsideExactly`).
- `stylesheet-closure.ts` says a sheet nobody imports has an empty closure; it has itself
  (`StylesheetClosure.SheetIsInItsClosure`).
- `resolution.ts` says a name that resolves to one colour is reported as itself. A value that mentions one token among
  other words is reported as that token, and so is a name of several values of which none is a colour itself
  (`ResolutionLaws.ReportedAsItself`, `ResolutionLaws.ReportedAsAnother`).
- `css-scan.ts` keeps newlines except after an opener with no closer (`CssLaws.NewlinesAreKept`).
- `comments.py` states too early a line after a quoted value that continues a line with a backslash
  (`ScannerLaws.NumberIsItsLine`).
- `weeks.ts` prints a year without padding, `Date.UTC` reads years 0 to 99 as 1900 to 1999, and ten characters of a
  longer year cut the day off, so its round trips hold for week years 1000 to 9999 (`WeekLaws.WeekOfItsMonday`,
  `WeekLaws.DateInItsOwnWeek`, `WeekLaws.ShiftsAddUp`).
- `hues.ts` finds a single pigment no distance from itself and reports it (`HueLaws.SeparationIsReported`).

## Model

| member | source | states |
|---|---|---|
| `ArchiveLaws.RecoveryReplaysEverything` | deployments/ops/fetch_segment.py:110-183 | Over every run of the system, stops included: a recovery told "absent" still has its dump, has been handed in order every segment from its start through the newest ever sent, each byte for byte if and only if its copy had ended before gzip read it, and what it was refused was never sent; all of that went up at or after the instant the dump was taken, and all before its start went up before that instant, or again since the recovery began |
| `ArchiveLaws.RecoveryCanStart` | deployments/ops/fetch_segment.py:110-183 | Over every run: there is a place to start from for every dump in the bucket |
| `ArchiveLaws.RecoveryIsNeverCutShort` | deployments/ops/fetch_segment.py:170-183 | Over every run: while a dump is retained, a recovery from it is never refused a segment that was sent |
| `ArchiveLaws.PrunedIsNeverNeeded` | deployments/ops/dump.py:171-181 | Over every run: a pruned segment went up more than a day before every dump in the bucket, and is never the newest sent |
| `ArchiveLaws.EveryFileIsAccountedFor` | deployments/ops/ship.py:97-198 | Over every run: a shippable file once offered is in the volume, in the bucket, or was pruned. In the volume it is whole once its copy has ended; the object under its name decodes to it if and only if its copy had ended before gzip read it; what has left the host is a prefix in name order |
| `ArchiveLaws.LostByTheseSteps` | docker-compose.yml:197 | A file Postgres was told is archived is lost by a step if and only if that step unlinks it after gzip had read it half copied, or ends its copy into a file already unlinked |
| `ArchiveLaws.LostForEver` | docker-compose.yml:197 | Over every continuation of every run: a lost file stays lost, and the bucket never holds it whole |
| `ArchiveLaws.TornCopyIsLost` | deployments/ops/ship.py:169-198 | Wherever a listing finds one half-copied file to take, a drain that runs to its end and the end of the copy lose it |
| `ArchiveLaws.SegmentCanBeLost` | docker-compose.yml:197 | A run from an empty host that loses a segment, and does so whatever happens afterwards |
| `ArchiveLaws.SettledListingsLoseNothing` | deployments/ops/ship.py:169-184 | Over every run whose listings find no copy unfinished among the files the shipper takes: nothing is lost, and every object decodes to the whole file |
| `ArchiveLaws.SettledRecoveryIsWhole` | deployments/ops/fetch_segment.py:110-183 | Over every such run: a recovery told "absent" has been handed, in order and byte for byte, every segment from its start through the newest ever sent |
| `GaugeLaws.GaugeMeansOffHost` | deployments/ops/ship.py:97-128 | Over every run: of what was archived more than half a second before a published value, exactly the files without one of the shipper's own suffixes have been sent |
| `GaugeLaws.GaugeClaimExactly` | deployments/ops/ship.py:76-128 | At every publishing step: everything archived by the published second has been sent if and only if none of it wears one of the shipper's own suffixes and none of it was first offered after the listing; and it is off the host whole if and only if, besides, gzip read each after its copy had ended |
| `GaugeLaws.UnshippableNeverLeaves` | deployments/ops/ship.py:76-79 | Over every continuation of every run: a file with such a suffix is never sent, and stays in the volume |
| `GaugeLaws.GaugeCanRoundUp` | deployments/ops/exposition.py:35-38 | A run in which rounding to whole seconds publishes a value later than the clock reading, and claims a segment still staged |
| `GaugeLaws.PartialIsClaimedButNeverSent` | deployments/ops/ship.py:76-79 | A run that publishes a fresh gauge over a `.partial` file Postgres archived, which is then never sent and never leaves the volume, whatever happens afterwards |
| `ArchiveSteps.EveryReachableStateKeeps` | deployments/ops/ship.py:97-198 | Every reachable state keeps the whole invariant: staging, prefix order, bucket contents, coverage, gauge, shipper, nightly run, recovery and clock |
| `ArchiveSteps.PerformKeeps` | deployments/ops/dump.py:67-181 | Each single step of any process, at any point, keeps that invariant |
| `ArchiveSteps.BeginCopyKeeps` | docker-compose.yml:197 | An attempt to copy a file, a first one or another after one that stopped, keeps it |
| `ArchiveSteps.CopyMoreKeeps` | docker-compose.yml:197 | Writing more of a file keeps it, wherever the shipper is with that file |
| `ArchiveSteps.EndCopyKeeps` | docker-compose.yml:197 | The end of a copy keeps it, and makes nothing whole that was read before |
| `ArchiveSteps.PackSegmentKeeps` | deployments/ops/ship.py:187-193 | Reading the first staged file, half copied or whole, keeps it |
| `ArchiveSteps.UploadSegmentKeeps` | deployments/ops/ship.py:187-198 | Sending the first staged segment keeps it, a re-sending after a stop included |
| `ArchiveSteps.UnlinkSegmentKeeps` | deployments/ops/ship.py:194-195 | Removing the local file after the upload keeps it |
| `ArchiveSteps.PublishGaugeKeeps` | deployments/ops/ship.py:118-123 | Publishing after the drain keeps it, because the clock was read before the listing |
| `ArchiveSteps.DeleteDumpKeeps` | deployments/ops/dump.py:158-161 | Deleting one object a plan names keeps it |
| `ArchiveSteps.DeleteWalKeeps` | deployments/ops/dump.py:171-180 | Deleting one stale segment keeps it: no retained dump comes within the margin, and a newer segment stays |
| `ArchiveSteps.PlanSparesTheKept` | deployments/ops/dump.py:158-168 | Every retained dump is as late as the oldest kept or is queued for deletion, under the plan of any listing of the bucket |
| `ArchiveSteps.FetchNextKeeps` | deployments/ops/fetch_segment.py:110-140 | Fetching the next segment keeps it: what is handed over is what the bucket holds under the name |
| `ArchiveSteps.StartExists` | deployments/ops/fetch_segment.py:110-183 | In every state that keeps it, each dump in the bucket has a place for a recovery to start |
| `ArchiveSteps.EarlierWentUpBefore` | deployments/ops/dump.py:171-181 | What comes before such a place went up before the dump was taken, pruned since or not |
| `Operations.Site.Ship` | deployments/ops/ship.py:97-128 | One run of the shipper, with Postgres at work and a failure possible between any two effects, is a run of the system. It fails only where one of its effects does, and then the gauge is untouched and each shippable file is still there as it was or went so. Otherwise it returns how many shippable files its listing held, every shippable file in the volume at the start has been sent since, what had been copied to its end went up as it was and has left the volume, and the gauge holds the reading taken before the listing |
| `Operations.Site.Drain` | deployments/ops/ship.py:113-116 | The drain takes a prefix of the queue in order and stops where, and only where, an effect fails; the rest still waits |
| `Operations.Site.ShipOne` | deployments/ops/ship.py:187-198 | One file is compressed, sent and removed if none of the three fails, and is otherwise left in the volume; no other file is disturbed |
| `Operations.Site.ListToShip` | deployments/ops/ship.py:97-116 | Unless the listing fails, all that is in the volume and is shippable is queued, each file once; the clock was read before |
| `Operations.Site.StagedSegmentsInOrder` | deployments/ops/ship.py:169-184 | The queue holds exactly the staged files without an intermediate suffix, in strictly ascending name order, whatever order the directory lists them in |
| `Operations.Site.Pause` | docker-compose.yml:197 | Between two steps only Postgres moves: it takes no file off the volume and leaves every file whose copy had ended as it was |
| `Operations.Site.TakeBackup` | deployments/ops/dump.py:67-99 | One nightly run, with any moves of Postgres, the shipper and a recovery and a failure possible before each effect, is a run of the system and a night of retention's. It fails only where an effect does or retention refuses. On success exactly the plan's objects have gone, and of the segments listed exactly the stale ones, but for any sent since; and the gauge is set. On failure the gauge is untouched and a prefix of the effects happened: of the two uploads, then of the planned objects in order, and of the stale segments in order only once every planned object was gone. By itself it changes nothing on the host |
| `Operations.Site.Meanwhile` | deployments/ops/ship.py:97-198 | Whatever the other processes do between two of its effects, they leave the dumps and the run alone and take no segment from the bucket |
| `Operations.Site.ShipperMoves` | deployments/ops/ship.py:97-198 | The shipper's next step, wherever it is |
| `Operations.ExactlyPruned` | deployments/ops/dump.py:171-181 | With nothing sent since, exactly the segments named have gone and every other is as it was |
| `Operations.Site.UploadBoth` | deployments/ops/dump.py:125-146 | The dump goes up before its fingerprint; both are there unless an effect fails, and then neither is or the dump alone |
| `Operations.Site.PlanDeletions` | deployments/ops/dump.py:158-160 | Retention decides over a fresh listing after the upload, and a refusal deletes nothing |
| `Operations.Site.PlanAfter` | deployments/ops/dump.py:91-97 | The plan is made once both objects are up, whatever the others did meanwhile; it fails only where an effect does or retention refuses, with nothing deleted |
| `Operations.Site.Prune` | deployments/ops/dump.py:160-161 | Planned objects go one at a time in their order, all of them unless an effect fails; then a prefix of them is gone and nothing else |
| `Operations.Site.PruneWal` | deployments/ops/dump.py:171-181 | So do stale segments |
| `Operations.Site.PruneAll` | deployments/ops/dump.py:91-97 | No segment goes before every planned dump has, and the gauge is set after both |
| `Operations.RefusedExactly` | deployments/ops/retention.py:54-76 | When retention refuses the run's listing: the name just uploaded is not among the kept of the names in it, or the newest name is no instant |
| `FetchSegment.Scratch.Fetch` | deployments/ops/fetch_segment.py:92-140 | Staged is answered exactly when every effect up to the last one succeeded and the name was well formed and held, and then the file holds the archived bytes; absent exactly when a well-formed name was asked for, the listing was read and the bucket holds no such object, and then no file changes; refused never leaves a partial file under the name. Which files change, and to what, is stated for every name |
| `FetchSegment.Scratch.DownloadAndDecrypt` | deployments/ops/fetch_segment.py:128-137 | The encrypted copy is left nowhere, whatever failed |
| `FetchSegment.WorkingIsNeverRequested` | deployments/ops/fetch_segment.py:63-67 | No working name is a name Postgres can ask for |
| `FetchSegment.RequestableNames` | deployments/ops/fetch_segment.py:63-67 | A name can be asked for exactly when it is 24 hexadecimal digits, those followed by a backup label, or 8 followed by the ending of a timeline history |
| `Retention.PruningIsIncremental` | deployments/ops/retention.py:54-98 | kept(B ∪ N) = kept(A ∪ N) for every B with kept(A) ⊆ B ⊆ A |
| `RetentionLaws.NightsAgreeWithHistory` | deployments/ops/retention.py:54-98 | Over any run of nights, refused, skipped and half-finished ones included, the bucket keeps what pruning the whole history once would keep |
| `RetentionLaws.NightKeepsTheKept` | deployments/ops/retention.py:54-98 | One night, wherever it stops, deletes no copy the whole history would keep |
| `RetentionLaws.CrashLeavesTheKept` | deployments/ops/retention.py:79-89 | After any part of a plan's deletions every kept copy is still there |
| `RetentionLaws.OldestKeptNeverMovesBack` | deployments/ops/retention.py:92-125 | Over any run of nights: if nothing uploaded between two planned nights is older than the oldest copy the earlier plan kept, the later plan's oldest is no older, whatever the nights between did |
| `RetentionLaws.NightKeepsOfHistory` | deployments/ops/retention.py:92-98 | What any night of such a run keeps is what it would keep of every copy ever uploaded |
| `RetentionLaws.OldestKeptIsOldest` | deployments/ops/dump.py:168 | The last name of the kept list is dated and no kept copy was taken before it |
| `RetentionLaws.PlanIsKeptOf` | deployments/ops/retention.py:54-76 | A plan keeps exactly the top copies by rank of the names listed and deletes exactly the other names, whatever the order of the listing and however often it repeats |
| `RetentionLaws.PlanRefusesExactly` | deployments/ops/retention.py:54-76 | A plan is made if and only if the copy just uploaded ranks among the kept and the newest name is a real instant |
| `RetentionLaws.NewestSurvives` | deployments/ops/retention.py:54-76 | No plan deletes the newest copy |
| `RetentionLaws.DeletedObjectsAre` | deployments/ops/retention.py:79-89 | Only objects listed are deleted, and only the two of a backup the plan deletes |
| `RetentionLaws.UnclassifiedIsKeptExactly` | deployments/ops/retention.py:66-76 | An object reported as unrecognised and kept is kept if and only if it is not the object of a backup whose stamp matches the pattern and is no real instant |
| `RetentionLaws.PhantomIsDeleted` | deployments/ops/retention.py:46-89 | Such an object is reported as unrecognised and deleted by the plan of every night that has just uploaded a newest copy of a real instant; while its name is the newest every night is refused |
| `RetentionLaws.PhantomsExist` | deployments/ops/naming.py:32 | A listing of two objects, and its plan, of which this is so; and one of the first alone, which is refused |
| `RetentionLaws.PlanPartitionsExactly` | deployments/ops/retention.py:46-76 | Keep, delete and unrecognised split the listing if and only if every stamp in it is a real instant |
| `RetentionLaws.WalDeletedIs` | deployments/ops/retention.py:109-125 | Exactly the segments that went up more than a day before the oldest kept dump go, and never the newest |
| `RetentionLaws.KeptAreFew` | deployments/ops/retention.py:92-106 | A dated copy is kept if and only if fewer than seven dated ones are newer; or it is of a Monday and fewer than four of those are; or of the first of a month and fewer than six are. At most seventeen in all |
| `RetentionLaws.ClassesAre` | deployments/ops/retention.py:92-106 | A copy is weekly exactly when the day it was taken is a whole number of weeks from Monday 5 January 1970, and monthly exactly when its stamp's own day is 01 |
| `RetentionLaws.ClassKeepsItsCount` | deployments/ops/retention.py:92-98 | No class keeps more than its count |
| `Retention.KeptIsKeptOf` | deployments/ops/retention.py:92-98 | The slices of the sorted listing are the ranks within each class |
| `Retention.KeptShrinksOver` | deployments/ops/retention.py:92-98 | A copy that is not kept now is never kept later |
| `Retention.DescendingSorts` | deployments/ops/naming.py:88-99 | Sorting gives each name once, newest first |
| `Retention.BackupsAreTheSet` | deployments/ops/naming.py:88-99 | The backups read from a listing are those its object names carry, each once |
| `Naming.StampRoundTrip` | deployments/ops/naming.py:35-85 | The instant read back from a stamp is the one stamped, to the second, for every year of four digits |
| `Naming.NamesSortByTime` | deployments/ops/naming.py:88-99 | On names of real instants, text order is time order |
| `Naming.ObjectsNameTheirBackup` | deployments/ops/naming.py:60-66 | Both objects of a backup carry its name |
| `Naming.SegmentObjectIsInjective` | deployments/ops/naming.py:50-57 | No two segments share an object name |
| `BackupFormats.StampIsReadExactly` | deployments/ops/naming.py:69-85 | A stamped name is dated if and only if its fields make a real date and time, and then by so many seconds from 1970 |
| `BackupFormats.StampsAre` | deployments/ops/naming.py:32 | A stamp is the prefix, eight digits, a T, six digits and a Z, whatever follows |
| `BackupFormats.LeftBehindExactly` | deployments/ops/ship.py:76-79 | The shipper passes over exactly the names that end in one of the four intermediate suffixes; a timeline history is shipped |
| `BackupFormats.GaugeIsTheNearestSecond` | deployments/ops/exposition.py:35-38 | A gauge holds the nearest whole second, and of two as near the even one |
| `BackupFormats.FourDigitYearsAre` | deployments/ops/naming.py:31-37 | The instants stamped with four-digit years run from the first of 1000 to the last of 9999 |
| `BackupFormats.NewestIsTheFirstOfTheLast` | deployments/ops/retention.py:109-125 | The segment never deleted is the latest sent, and of several the first listed |
| `BackupFormats.PlansAreInOrder` | deployments/ops/retention.py:71-125 | Plans list names newest first; objects and segments go in order of name |
| `BackupFormats.CalendarIs` | deployments/ops/naming.py:82-85 | Days are counted from Thursday 1 January 1970, with the leap years and months of the Gregorian calendar |
| `BackupFormats.DaysCountOn` | deployments/ops/naming.py:82-85 | Days count on through a month, and months through a year |
| `ProbeWeeks.ShortfallIsProof` | packages/syncr-domain/src/syncr_domain/feasibility/probe.py:101-122 | If some assignment of free instants to Areas and demands reaches every floor and keeps every deadline, and no capacity asked for loses a minute by being counted in pieces, the probe reports nothing; so a shortfall proves the week cannot be done. An Area has one floor |
| `ProbeMinutes.DeadlineCheckIsTrueExactly` | packages/syncr-domain/src/syncr_domain/feasibility/probe.py:185-236 | For every calendar, Area and deadline: whatever floors and demands are asked, the deadline check finds no gap in a week that can be done, if and only if the parts of a minute left over in the Area's capacity before it, the others' before it and what is free after it come to less than one, or the Area has no minute before it |
| `ProbeMinutes.FloorCheckIsTrueExactly` | packages/syncr-domain/src/syncr_domain/feasibility/probe.py:239-273 | For every calendar and Area: whatever floors and demands are asked, the floor check finds no gap in a week that can be done, if and only if the parts of a minute left over in the Area's capacity and in the rest come to less than one, or the Area has no minute |
| `ProbeMinutes.WholeMinutesAreKept` | packages/syncr-domain/src/syncr_domain/intervals.py:68-75 | Where every instant named is a whole minute, but now may be any, no minute is lost |
| `ProbeWeeks.OneAreaIsDecided` | packages/syncr-domain/src/syncr_domain/feasibility/probe.py:185-236 | For every calendar and Area: whatever floor and demands are asked of that Area alone, the probe reports nothing if and only if an assignment exists; that is so if and only if the calendar has no whole minute the Area may use, or none it may not |
| `ProbeLaws.GapAgainstADeadline` | packages/syncr-domain/src/syncr_domain/feasibility/probe.py:185-236 | However any week is worked, with every floor reached and every earlier demand met, a demand gets no more minutes than the probe finds available and the two at most that are lost by counting capacity in pieces |
| `ProbeLaws.GapAgainstAnArea` | packages/syncr-domain/src/syncr_domain/feasibility/probe.py:239-273 | However any week is worked, with every demand met, an Area gets no more minutes than the probe finds in its reach and the one at most that is lost |
| `ProbeLaws.GapAgainstTheWeek` | packages/syncr-domain/src/syncr_domain/feasibility/probe.py:159-182 | However the week is worked, the Areas with floors get no more minutes together than are free |
| `ProbeLaws.OthersMustWork` | packages/syncr-domain/src/syncr_domain/feasibility/probe.py:293-333 | Before a deadline the other Areas together work the minutes contested, for each the larger of what its earlier deadlines claimed and what of its floor cannot fit later, but for the part of a minute left over in what is free after it |
| `ProbeLaws.LeavesNoMore` | packages/syncr-domain/src/syncr_domain/feasibility/probe.py:354-373 | Discounting competitors by the capacity only they may use leaves no less than any arrangement of disjoint work does, but for what the pieces have left over |
| `ProbeLaws.ClaimsAreOwed` | packages/syncr-domain/src/syncr_domain/feasibility/probe.py:185-236 | No more is claimed for an Area than its demands so far owe |
| `ProbeReports.ReportIsExactly` | packages/syncr-domain/src/syncr_domain/feasibility/probe.py:101-122 | The whole report, for all inputs, in arithmetic over sets of free instants: the floors together against the week; each demand in turn against its own capacity, less what the others must take of it beyond what only they can use, with what is short and which floors must come early; each floor likewise |
| `ProbeReports.FreeInstantsAre` | packages/syncr-domain/src/syncr_domain/feasibility/probe.py:139-156 | Which instants are discretionary, which are free and which an Area may use, by what covers them |
| `ProbeReports.EarliestFirstSorts` | packages/syncr-domain/src/syncr_domain/feasibility/probe.py:376-383 | Demands are taken by deadline, Area and names, and those alike in all three in their listed order |
| `ProbeSilence.SilentExactly` | packages/syncr-domain/src/syncr_domain/feasibility/probe.py:101-122 | For all inputs: nothing is reported if and only if the floors together fit what is free, every demand fits its capacity with all that is owed before it and what of the other Areas' floors cannot come later, and every floor fits beside the other Areas' demands |
| `ProbeSilence.WeekGapExactly` | packages/syncr-domain/src/syncr_domain/feasibility/probe.py:159-182 | A gap of the whole week is found if and only if more minutes are reserved than are free, with the difference as its figure; where nothing is reported the floors fit together |
| `ProbeSilence.OwedTogetherIsReported` | packages/syncr-domain/src/syncr_domain/feasibility/probe.py:185-236 | With no window in play: whenever the demands due by some moment, of any number of Areas, together owe more than is free before it, one of them is reported |
| `ProbeSilence.FitTogether` | packages/syncr-domain/src/syncr_domain/feasibility/probe.py:185-236 | With no window in play: demands that are each found to fit also fit together before any moment they are due by |
| `ProbeMinutes.WholeMinutesCount` | packages/syncr-domain/src/syncr_domain/intervals.py:68-75 | Capacity bounded by whole minutes and by now holds part of a minute only if now is in it |
| `ProbeMinutes.SplitMinuteIsMisread` | packages/syncr-domain/src/syncr_domain/intervals.py:68-75 | A week that can be done and is reported short, because a window ends within a minute |
| `ProbeMinutes.SharedCapacityIsMisread` | packages/syncr-domain/src/syncr_domain/feasibility/probe.py:203-214 | A week of whole hours and one Area that cannot be done and is not reported: the capacity a window takes from the Area is taken off its own earlier demand as well |
| `ProbeWeeks.TwoAreNotReported` | packages/syncr-domain/src/syncr_domain/feasibility/probe.py:203-214 | So on every calendar with a whole minute the Area may use and one it may not: two demands that owe a minute more than the Area has are not reported |
| `ProbeWeeks.Allot` | packages/syncr-domain/src/syncr_domain/feasibility/probe.py:185-236 | The earliest free instants, given out in order of deadline, serve every demand whenever what is owed by each deadline fits before it |
| `ProbeWeeks.ServedInOrder` | packages/syncr-domain/src/syncr_domain/feasibility/probe.py:202 | Sorting the demands changes nothing of whether they can be served |
| `Probe.Probe` | packages/syncr-domain/src/syncr_domain/feasibility/probe.py:101-122 | Over sorted intervals the method gives the minutes and the shortfalls that the specification gives over sets of instants, which `ProbeReports.ReportIsExactly` states without it |
| `Probe.WeekOf` | packages/syncr-domain/src/syncr_domain/feasibility/probe.py:139-152 | Free capacity is the denominator from now on, without what is placed |
| `Probe.DemandsAgainstTheirDeadlines` | packages/syncr-domain/src/syncr_domain/feasibility/probe.py:185-236 | The loop with its dictionary of claims gives the shortfalls of the demands in order |
| `Probe.CompetitionBefore` | packages/syncr-domain/src/syncr_domain/feasibility/probe.py:293-333 | The loop over competing Areas sums the larger of the two figures of each |
| `Probe.FloorsAgainstTheirOwnAreas` | packages/syncr-domain/src/syncr_domain/feasibility/probe.py:239-273 | The loop gives the shortfall of each floor its Area cannot reach |
| `Intervals.NormalFormIsUnique` | packages/syncr-domain/src/syncr_domain/intervals.py:188-216 | Two sets covering the same instants have the same members, however they were built |
| `Intervals.Merge` | packages/syncr-domain/src/syncr_domain/intervals.py:150-164 | Merging spans in order of start covers the same instants, and leaves something uncovered between any two members |
| `Intervals.Subtract` | packages/syncr-domain/src/syncr_domain/intervals.py:227-230 | Covers what the one covers and the other does not |
| `Intervals.Without` | packages/syncr-domain/src/syncr_domain/intervals.py:167-185 | The walk over sorted cuts leaves exactly what they do not cover |
| `Intervals.CutBefore` | packages/syncr-domain/src/syncr_domain/intervals.py:249-261 | Covers what falls before the moment |
| `Intervals.CutAfter` | packages/syncr-domain/src/syncr_domain/intervals.py:263-273 | Covers what falls at or after it |
| `Intervals.TotalMinutes` | packages/syncr-domain/src/syncr_domain/intervals.py:275-276 | The whole minutes of the instants covered, none counted twice |
| `PngLaws.PlateRoundTrip` | frontend/scripts/generate-plate/png.ts:106-232 | Decoding what the encoder wrote gives the bitmap back, size and tones, for every bitmap and palette it accepts and any compressor with its inverse |
| `PngLaws.PlatePixel` | frontend/scripts/generate-plate/png.ts:199-214 | The tone read back at each pixel is the luminance of paper or ink as the bitmap says |
| `PngImages.AnyEncodingReadsBack` | frontend/scripts/generate-plate/png.ts:106-175 | Any file, of any colour type and sample size the decoder supports, under any filters, with anything filling a row's last byte, cut into any chunks and with any others beside them, decodes to its size and the tone of each of its pixels |
| `PngImages.SampleIs` | frontend/scripts/generate-plate/png.ts:134-144 | Each sample of one to eight bits is read where the packing of its row put it |
| `PngImages.SpellingIsUnique` | frontend/scripts/generate-plate/png.ts:138-144 | A byte is spelled by one group of samples and no other |
| `PngImages.SamplesSpellTheByte` | frontend/scripts/generate-plate/png.ts:138-144 | Samples of one, two or four bits are the bits of their byte, each once, most significant first |
| `PngImages.PixelIs` | frontend/scripts/generate-plate/png.ts:150-171 | A decoded tone is the luminance of the pixel's colour over paper: samples stretched to the range of tones, grey being colour with equal channels and no alpha an opaque one |
| `PngFilter.FiltersRoundTrip` | frontend/scripts/generate-plate/png.ts:54-79 | Undoing row filters inverts applying them, for every image, any filter of the five for each row, every stride and pixel size; what each filter is, `PngFormat.EveryByteIsRebuilt` states apart; section 6 of RFC 2083 |
| `PngFilter.PaethIsNearest` | frontend/scripts/generate-plate/png.ts:81-88 | The predictor is the nearest neighbour, ties taken in the order left, up, upper-left |
| `PngFilter.Unfilter` | frontend/scripts/generate-plate/png.ts:55-79 | The in-place reconstruction is the reconstruction row by row, refusals included, each byte of which `PngFormat.EveryByteIsRebuilt` states from the stream |
| `PngFilter.UnfilterRow` | frontend/scripts/generate-plate/png.ts:65-76 | One row, rebuilt in the buffer from the bytes before it and the row above |
| `PngFilter.RowsUndoneAgree` | frontend/scripts/generate-plate/png.ts:55-79 | What is decided of the first rows does not depend on what follows them |
| `PngFormat.EveryByteIsRebuilt` | frontend/scripts/generate-plate/png.ts:55-88 | Every byte rebuilt from a stream, by the filter type its row starts with: the byte itself; plus the byte one pixel to the left; plus the byte above; plus half the sum of the two, rounded down; plus the nearest of left, above and upper left to left + above - upper left; modulo 256, with absent neighbours 0. Sections 6.2 to 6.6 of RFC 2083 |
| `PngFormat.RowsAreRefusedExactly` | frontend/scripts/generate-plate/png.ts:65-76 | Rows are refused if and only if one that holds bytes starts with no filter type |
| `PngFormat.DecodesExactly` | frontend/scripts/generate-plate/png.ts:106-175 | A file decodes if and only if it has the signature, a header that can be read, a palette where one is needed, data that inflates and filter types before its rows; each refusal names the first of these that fails; what decodes has the header's size |
| `PngFormat.HeaderIsReadExactly` | frontend/scripts/generate-plate/png.ts:108-126 | Which headers are read and as what numbers, and which refusal each other one meets; section 4.1.1 of RFC 2083 |
| `PngFormat.NumbersAreBigEndian` | frontend/scripts/generate-plate/png.ts:45-178 | Numbers are read and written most significant byte first; section 2.1 of RFC 2083 |
| `PngFormat.FrameIs` | frontend/scripts/generate-plate/png.ts:177-184 | A chunk on disk is its size, its name, its data and the checksum of the two; section 3.2 of RFC 2083 |
| `PngFormat.FindIsTheFirst` | frontend/scripts/generate-plate/png.ts:107-129 | A chunk looked up by name is the first of that name |
| `PngFormat.JoinedFollows` | frontend/scripts/generate-plate/png.ts:131-133 | The image data is that of every data chunk, in order |
| `PngFormat.LuminanceIsNearest` | frontend/scripts/generate-plate/png.ts:92-94 | A tone is the nearest whole number to 0.2126 of red, 0.7152 of green and 0.0722 of blue |
| `PngFormat.CompositeIsNearest` | frontend/scripts/generate-plate/png.ts:100-102 | A sample over white is the nearest whole number to the mix in proportion to alpha |
| `PngFormat.GreyIsNearest` | frontend/scripts/generate-plate/png.ts:145-156 | Samples of one, two, four and eight bits stand for multiples of 255, 85, 17 and 1 |
| `PngBytes.ChunksRoundTrip` | frontend/scripts/generate-plate/png.ts:40-52 | Reading framed chunks back gives the chunks up to the first IEND, whatever their checksums and whatever follows; section 3.2 of RFC 2083 |
| `PngBytes.ReadChunks` | frontend/scripts/generate-plate/png.ts:40-52 | The loop gives the chunks of the file, or refuses a wrong signature |
| `PngBytes.UInt32RoundTrip` | frontend/scripts/generate-plate/png.ts:45-178 | A length written big-endian reads back |
| `PngBytes.OrSetsOneBit` | frontend/scripts/generate-plate/png.ts:211 | Or-ing a single bit in sets that bit and leaves every other |
| `PngLaws.PackedBit` | frontend/scripts/generate-plate/png.ts:208-213 | A packed bit is set exactly when its pixel is paper, most significant first |
| `PngLaws.SampleIsPaper` | frontend/scripts/generate-plate/png.ts:140-144 | The decoder's sample of a packed pixel is that bit |
| `PngLaws.PackedIsFiltered` | frontend/scripts/generate-plate/png.ts:204-207 | The encoder's rows are filtered rows under the filter that predicts nothing |
| `PngLaws.TonesKeepTheirEnds` | frontend/scripts/generate-plate/png.ts:92-102 | Grey stays itself, an opaque sample is itself and a transparent one is paper |
| `PngLaws.ChannelsWeigh` | frontend/scripts/generate-plate/png.ts:90-94 | Pure green reads lightest and pure blue darkest, and more of any channel never reads darker |
| `Png.HeadOf` | frontend/scripts/generate-plate/png.ts:111-126 | A header is accepted only with a colour type the decoder supports, the channel count of that type, and a depth it supports of that type |
| `Png.GrayOf` | frontend/scripts/generate-plate/png.ts:147-173 | The loops over an accepted image fill in the tone of every pixel, row by row |
| `Png.GrayRowOf` | frontend/scripts/generate-plate/png.ts:149-172 | One row of tones is written after the rows above it and disturbs none of them |
| `Png.DecodeToGray` | frontend/scripts/generate-plate/png.ts:106-175 | The method gives the image or the refusal of the specification, which `PngFormat.DecodesExactly` states check by check |
| `Png.Pack` | frontend/scripts/generate-plate/png.ts:199-214 | The bits set in place are the packed rows |
| `Png.PackRow` | frontend/scripts/generate-plate/png.ts:204-213 | Setting one row's bits changes that row and nothing else |
| `Png.EncodeBitmap` | frontend/scripts/generate-plate/png.ts:199-232 | The method gives the five chunks in order, or refuses a colour or a size it cannot write |
| `PngFormat.FileIs` | frontend/scripts/generate-plate/png.ts:199-232 | The file written: the signature, a one-bit indexed header, ink before paper in the palette, ink opaque and paper clear, the packed rows compressed, an end; and when none is written |
| `PngFormat.PackedBitIs` | frontend/scripts/generate-plate/png.ts:199-214 | Each packed row starts with filter type 0, and each of its bits is set exactly where the bitmap has a pixel holding 0 |
| `PngFormat.ColourBytesAre` | frontend/scripts/generate-plate/png.ts:186-190 | A colour is six hexadecimal digits of either case after a hash, and its bytes are their pairs |
| `PngFormat.FramesFollow` | frontend/scripts/generate-plate/png.ts:222-232 | Framed chunks stand end to end in their order |
| `DitherLaws.DiffusionIsBounded` | frontend/scripts/generate-plate/dither.ts:57-86 | At every step of the scan every undrawn cell lies in [-127, 383) and the remainder pushed on in [-127, 128) |
| `DitherLaws.BufferStaysBounded` | frontend/scripts/generate-plate/dither.ts:17-86 | At every step each cell is bounded by the weights it has received, which never total more than one |
| `DitherLaws.ToneIsConserved` | frontend/scripts/generate-plate/dither.ts:57-86 | At every step the source's tone is the paper drawn, plus the buffer still undrawn, plus what fell off the edges |
| `DitherLaws.PlateCarriesTheTone` | frontend/scripts/generate-plate/dither.ts:57-86 | A whole plate differs in tone from its source by at most 88(h-1) + 72(w-1) + 128, which is below 128(w+h) |
| `DitherLaws.LostSharesAre` | frontend/scripts/generate-plate/dither.ts:75-81 | Eleven sixteenths of a remainder are lost a row, nine a column along the foot, and sixteen at the last corner |
| `DitherGather.PlateIsGathered` | frontend/scripts/generate-plate/dither.ts:17-86 | For every image: a pixel is ink if and only if it is wanted darker than 128, where what is wanted is its own tone and 7, 1, 5 and 3 sixteenths of what the pixels to the left, above left, above and above right had left over; so pushing error forward in one buffer is each pixel gathering it |
| `DitherGather.BufferHoldsGathered` | frontend/scripts/generate-plate/dither.ts:57-86 | At every step every undrawn cell holds its tone and what it has gathered so far |
| `Dither.DitherPlate` | frontend/scripts/generate-plate/dither.ts:57-86 | The nested loops over the mutable buffer draw what the scan, step by step, draws |
| `Dither.DrawRow` | frontend/scripts/generate-plate/dither.ts:65-83 | One row of the loop takes the buffer and the ink from the scan's state before the row to its state after |
| `Dither.DrawPixel` | frontend/scripts/generate-plate/dither.ts:69-82 | One pixel does |
| `Dither.Diffuse` | frontend/scripts/generate-plate/dither.ts:75-81 | The in-place additions push the remainder onto the neighbours there are |
| `DitherLaws.SteepeningKeepsOrder` | frontend/scripts/generate-plate/dither.ts:50-63 | Steepening keeps the order of tones and the midpoint, does nothing at a contrast of one, and moves no tone towards the midpoint above it |
| `Dither.Tones` | frontend/scripts/generate-plate/dither.ts:57-63 | Every steepened tone is clamped to 0..255 |
| `ScaleLaws.BoxesPartition` | frontend/scripts/generate-plate/dither.ts:25-48 | Every source pixel is in exactly one box, for every narrower target with a column |
| `ScaleLaws.GuardsNeverBind` | frontend/scripts/generate-plate/dither.ts:31-35 | The column guard never binds, and the row guard never binds if and only if the source has a row |
| `ScaleLaws.ScaledPixelWithin` | frontend/scripts/generate-plate/dither.ts:36-44 | Each tone lies between the least and the greatest of its box |
| `ScaleLaws.RoundsToNearest` | frontend/scripts/generate-plate/dither.ts:44 | A box's tone is the whole number nearest its mean, the higher of two as near |
| `ScaleLaws.BoxesHoldPixels` | frontend/scripts/generate-plate/dither.ts:36-43 | A box of a source with a row reads only the source's own pixels |
| `ScaleLaws.ScaledIsNoTaller` | frontend/scripts/generate-plate/dither.ts:27 | A narrower target has a row, and no more rows than the source, if and only if the source has one |
| `ScaleMeans.EveryToneIsAMean` | frontend/scripts/generate-plate/dither.ts:25-48 | For every source with a row and every narrower target: where each box stands in the source, in proportion along both sides, and that its tone is the mean of the pixels in it, added up column by column |
| `ScaleMeans.HeightIsInProportion` | frontend/scripts/generate-plate/dither.ts:27 | The height is the nearest whole number to the source's in proportion, and one at the least |
| `ScaleMeans.CutIsInProportion` | frontend/scripts/generate-plate/dither.ts:31-35 | A cut is as far along the length as its part is along the parts, rounded down |
| `Scale.ScaleToWidth` | frontend/scripts/generate-plate/dither.ts:25-48 | The loops give the mean of each box, and an image narrow enough unchanged |
| `Scale.ScaleRow` | frontend/scripts/generate-plate/dither.ts:33-45 | One row of boxes is written after the rows above it |
| `Scale.SumBox` | frontend/scripts/generate-plate/dither.ts:36-43 | The sum and the count over a box |
| `Scale.CutIncreases` | frontend/scripts/generate-plate/dither.ts:31-35 | Cuts of a length at least as long as its parts are strictly apart |
| `ImportLaws.CleanReportsHoldGlobally` | frontend/scripts/check-imports/check.ts:93-219 | When nothing is reported over all kit files, every file at the end of any chain of literal imports from a kit file, through kit files and conduits, is a package or lies in an area the first file's zone may reach |
| `ImportLaws.ChainIsAllowed` | frontend/scripts/check-imports/check.ts:127-219 | So does every file along the chain |
| `ImportLaws.ZonesNest` | frontend/scripts/check-imports/zones.ts:35-39 | A file its own zone allows is allowed to every zone that may reach that zone |
| `CheckImports.Check` | frontend/scripts/check-imports/check.ts:127-228 | Nothing is reported if and only if every kit file is clean; every finding is true; and the findings are those of each kit file in turn, each file exactly as its imports call for |
| `CheckImports.CheckOne` | frontend/scripts/check-imports/check.ts:127-219 | One kit file: no finding exactly when its zone is named and whatever its literal imports reach through conduits is allowed; its findings are those of its imports in order |
| `CheckImports.CheckKitFile` | frontend/scripts/check-imports/check.ts:142-218 | Each import has its own report, in order; with no finding, the `seen` set the walks of one file share is closed under allowed conduits |
| `CheckImports.CheckSite` | frontend/scripts/check-imports/check.ts:145-218 | Exactly what is reported of one import, by what it is and where it leads; a chain is reported if and only if one leads astray through conduits that no walk of the file has been through |
| `CheckImports.DenialReachedThrough` | frontend/scripts/check-imports/check.ts:93-125 | A denial is found if and only if a chain through conduits not yet seen leads to a denied file, and carries such a chain, as short as any; a walk with none has seen exactly what such chains get to besides |
| `CheckImports.WalkSites` | frontend/scripts/check-imports/check.ts:107-122 | One file's imports: the first denied one ends the walk, and the conduits before it are queued behind the others |
| `CheckImports.ClosedIsClean` | frontend/scripts/check-imports/check.ts:142-218 | A closed `seen` set means every chain through conduits ends where the zone may reach |
| `CheckImports.TrueFindingsAreUnclean` | frontend/scripts/check-imports/check.ts:127-219 | No true finding is reported of a clean file |
| `Zones.ReachableIsMonotone` | frontend/scripts/check-imports/zones.ts:35-39 | A zone may reach whatever the zones it may reach may reach |
| `Zones.ReachedAreasAreClassified` | frontend/scripts/check-imports/zones.ts:60-70 | Every area a zone may reach is a zone, a conduit or a leaf, and only one of them |
| `Zones.AreaIsNamed` | frontend/scripts/check-imports/zones.ts:73-76 | A file's area is one of those named, and holds it |
| `Zones.AreaIsExactly` | frontend/scripts/check-imports/zones.ts:18-76 | A path is of an area if and only if it is the area's directory or leads into it, for the eleven areas there are; the order they are tried in decides nothing |
| `Zones.TableIsExactly` | frontend/scripts/check-imports/zones.ts:35-70 | A kit zone may lead to itself and to the zones further in, to the library and the tokens; only the domain zone to the contract and the assets; no zone to the fetching client, the shell, the routes or the tests. The conduits and the leaves |
| `Zones.PackagesAreOutsideExactly` | frontend/scripts/check-imports/zones.ts:84-88 | A path is taken for a package if and only if it is outside `src/`, unless it begins with two dots and is no parent: such a directory inside `src/` is taken for a package |
| `StylesheetClosure.ReachableFrom` | frontend/scripts/lib/stylesheet-closure.ts:59-72 | The worklist computes exactly the reflexive and transitive closure of the edges, on every graph |
| `StylesheetClosure.Follow` | frontend/scripts/lib/stylesheet-closure.ts:63-69 | Each unseen target is put on the list once, and everything seen but waiting has been followed |
| `StylesheetClosure.LoadedWith` | frontend/scripts/lib/stylesheet-closure.ts:98-109 | The sheets every direct importer reaches |
| `StylesheetClosure.StylesheetClosures` | frontend/scripts/lib/stylesheet-closure.ts:87-113 | Each sheet, and no other file, gets its direct importers, each once and in the order first entered, and the sheets they all reach, however often a file is repeated |
| `StylesheetClosure.ClosureHoldsInEveryContext` | frontend/scripts/lib/stylesheet-closure.ts:95-110 | For an imported sheet, intersecting over direct importers is intersecting over every file that loads it through one import or more |
| `StylesheetClosure.SheetIsInItsClosure` | frontend/scripts/lib/stylesheet-closure.ts:98-104 | A sheet is always in its own set, imported by nothing or in a cycle |
| `StylesheetClosure.LoadersGoThroughImporters` | frontend/scripts/lib/stylesheet-closure.ts:95-97 | Whatever loads a sheet loads it through a direct importer |
| `ResolutionLaws.ResolvesIffReachable` | frontend/scripts/audit-contrast/resolution.ts:86-156 | On every reference graph: tokens are returned if and only if followed references lead to a six-digit hex, and something is unmeasurable if and only if they lead to a value no ratio describes |
| `ResolutionLaws.TokensAreSound` | frontend/scripts/audit-contrast/resolution.ts:86-156 | Each token returned is led to from the name, is off the path so far, and itself leads to a hex |
| `ResolutionLaws.TokensResolve` | frontend/scripts/audit-contrast/resolution.ts:86-156 | Each token returned resolves to a colour when asked for by itself |
| `ResolutionLaws.EntriesAreReal` | frontend/scripts/audit-contrast/resolution.ts:78-156 | Each unmeasurable entry states a value and reason that a name led to really holds, under a name on the way to it |
| `ResolutionLaws.EntryOfAlias` | frontend/scripts/audit-contrast/resolution.ts:130-138 | What an alias reports it reports under its own name |
| `ResolutionLaws.ReportedAsItself` | frontend/scripts/audit-contrast/resolution.ts:86-156 | A name resolving to one colour, however many values it holds, is reported as itself if and only if a value of its own is a colour, or its lone value is one reference and nothing else |
| `ResolutionLaws.ReportedAsAnother` | frontend/scripts/audit-contrast/resolution.ts:86-156 | Two graphs in which a name resolving to one colour is reported as another: a token among other words, and a bare reference beside a value that is no colour |
| `ResolutionLaws.FoundIsReached` | frontend/scripts/audit-contrast/resolution.ts:86-156 | With names already on the path: what is found is reached off the path |
| `ResolutionLaws.ReachedIsFound` | frontend/scripts/audit-contrast/resolution.ts:86-156 | With names already on the path: what is reached off the path is found |
| `ResolutionWalks.TokensAreExactly` | frontend/scripts/audit-contrast/resolution.ts:86-156 | Exactly which tokens a name returns, with any names on the path: an alias itself if its reference returns one, and else what that returns; any other name itself if it holds a hex, and whatever the references of every value it follows return |
| `ResolutionWalks.TokensAreBrought` | frontend/scripts/audit-contrast/resolution.ts:86-156 | The same over walks: a token is returned if and only if a walk off the path that repeats no name ends at it, it holds a hex or is an alias of one colour, and no alias before it leads to only one |
| `ResolutionWalks.CarriersReturnAll` | frontend/scripts/audit-contrast/resolution.ts:98-119 | Where no name is an alias, exactly the names with a hex that can be got to are returned: all twelve of a carrier of twelve |
| `ResolutionWalks.EntriesAreExactly` | frontend/scripts/audit-contrast/resolution.ts:98-156 | Exactly which unmeasurable entries a name reports, how often and in what order |
| `ResolutionWalks.EntriesAreTrailed` | frontend/scripts/audit-contrast/resolution.ts:86-156 | The same over walks: an entry is reported if and only if a walk off the path that repeats no name ends at a name that holds the value, and it is put under the first alias on the walk, or else under that name |
| `Resolution.Colours` | frontend/scripts/audit-contrast/resolution.ts:86-119 | The recursion with its loops terminates on every graph, by the declared names not yet on the path, and gives what the specification does, which `ResolutionWalks` states exactly |
| `Resolution.ColoursFromOne` | frontend/scripts/audit-contrast/resolution.ts:122-156 | The lone value of a name likewise |
| `Resolution.Follow` | frontend/scripts/audit-contrast/resolution.ts:111-115 | The references of one value, taken together |
| `Resolution.Assignments` | frontend/scripts/audit-contrast/resolution.ts:61-76 | Each name holds exactly the values declared for it, each once and in the order they are first declared |
| `Resolution.RenameAll` | frontend/scripts/audit-contrast/resolution.ts:79-83 | The loop gives the same entries in the same order under the other name |
| `ScannerLaws.ScannersAgree` | tools/comments.py:61-116 | For every text the TypeScript scanner blanks exactly the spans the Python reader yields for `//`, `/* */` and three quotes |
| `ScannerLaws.CommentsAreComments` | frontend/scripts/lib/comments.ts:43-57 | The spans are comments: they open with a marker outside any quoted value, end where their kind ends, and follow one another |
| `ScannerLaws.BlankingIsIdempotent` | frontend/scripts/lib/comments.ts:14-64 | Blanked text holds no comment for either scanner, and blanking it again changes nothing |
| `ScannerLaws.BlankingKeepsPositions` | frontend/scripts/lib/comments.ts:9-10 | Every offset into blanked text has the line and column it has in the source |
| `ScannerLaws.NumberIsItsLine` | tools/comments.py:64-112 | For every language: the line the reader states is the comment's line if and only if no quoted value before it escapes a newline |
| `ScannerLaws.NumberCanFallShort` | tools/comments.py:102-104 | A text for which the stated line is one too few |
| `ScannerLaws.QuoteIsSkipped` | tools/comments.py:92-112 | Reading a value a character at a time comes out where skipping past it does |
| `ScannerStates.CommentsAreExactly` | tools/comments.py:61-116 | For every text and both spellings, the characters the scanners take for comment are exactly those an automaton reading one character at a time takes for it |
| `JsComments.BlankJsComments` | frontend/scripts/lib/comments.ts:14-64 | Length is kept, comment characters but newlines become spaces, and every other character stays at its offset |
| `ProseReader.ReadComments` | tools/comments.py:61-89 | The loop yields the comments of the text under any spelling of line, block and quotes |
| `ProseReader.PastTheValue` | tools/comments.py:92-112 | The position past a value and the line count it goes on with |
| `CssScan.StripComments` | frontend/scripts/lib/css-scan.ts:97-167 | Code, comment texts and problems are those of the pieces the text holds |
| `CssScan.PiecesArePieces` | frontend/scripts/lib/css-scan.ts:130-160 | A piece is a closer outside any comment, an opener up to the first closer after it, or an opener no closer follows, which can only be the last |
| `CssLaws.SecondPassFindsNothing` | frontend/scripts/lib/css-scan.ts:97-167 | A second pass reports no problem, finds no comment and changes nothing |
| `CssLaws.NewlinesAreKept` | frontend/scripts/lib/css-scan.ts:142-160 | Every newline stays in place if and only if no opener without a closer has a newline after it |
| `CssLaws.PositionsAreKept` | frontend/scripts/lib/css-scan.ts:8-10 | Every offset before an opener without a closer keeps its line and column |
| `CssLaws.ProblemsAreReported` | frontend/scripts/lib/css-scan.ts:130-154 | A problem is reported of a place if and only if a stray closer or an unterminated opener stands there |
| `CssStates.PiecesAreExactly` | frontend/scripts/lib/css-scan.ts:97-167 | What the scan takes out of a stylesheet is exactly what an automaton reading one character at a time takes for comment, or for a closer on its own |
| `CssStates.CommentsSayExactly` | frontend/scripts/lib/css-scan.ts:144-157 | Each comment that opens, and no other, gives the text between its opener and the first closer after it, or the end, at its own place and in order |
| `CssLaws.CssHasJsComments` | frontend/scripts/lib/css-scan.ts:97-167 | From any point of a stylesheet with no backtick, double slash or stray closer, in a quote or out of one, it and the TypeScript scanner find the same comments |
| `CssLaws.StylesheetsAgree` | frontend/scripts/lib/css-scan.ts:97-167 | On such a stylesheet all three scanners find the same comments, the Python reader included |
| `Lines.At` | frontend/scripts/lib/css-scan.ts:78-87 | The halving search gives the line and column of any offset, past the end included |
| `Lines.LineStarts` | frontend/scripts/lib/css-scan.ts:74-77 | The table holds where each line starts |
| `Lines.PositionsAreDistinct` | frontend/scripts/lib/css-scan.ts:72-87 | No two offsets share a position |
| `WeekLaws.WeekOfItsMonday` | e2e/src/api/weeks.ts:49-70 | For every name of the right shape, the week of its Monday is that week if and only if its year is 1000 to 9999 and the week exists in that year; section 4.1.4 of ISO 8601:2004 |
| `WeekLaws.DateInItsOwnWeek` | e2e/src/api/weeks.ts:49-74 | Every date of a four-digit year is `dateIn` of its own week and weekday if and only if the year of its week is 1000 to 9999 |
| `WeekLaws.DateInLiesInTheWeek` | e2e/src/api/weeks.ts:73-74 | A weekday of an existing week lies in that week and is that weekday |
| `WeekLaws.ShiftsAddUp` | e2e/src/api/weeks.ts:60-78 | For every name of the right shape and every first shift: shifting by a then b is shifting by a + b for every b, if and only if the name's Monday is one and the week between has a year of 1000 to 9999 |
| `WeekLaws.ShiftIsSoManyWeeks` | e2e/src/api/weeks.ts:77-78 | A shift names the week so many weeks on, across years of 52 and of 53 weeks |
| `WeekLaws.FiveWeeksOn` | e2e/src/api/weeks.ts:43-78 | Every day of January 10000 shows as the last week of 9999; five weeks on that name still names itself, and five weeks on from the day is another week |
| `WeekLaws.BackFromACutMonday` | e2e/src/api/weeks.ts:43-64 | The first of a month of 10000 that is no Monday, which is what is left of a Monday of that month, shows as another week than the Monday before it |
| `Weeks.EveryDayLiesInOneWeek` | e2e/src/api/weeks.ts:51-55 | Every day lies in exactly one week of exactly one year, which the formula finds |
| `Weeks.WeeksAreThursdays` | e2e/src/api/weeks.ts:51-55 | A year has its 53rd week if and only if it starts on a Thursday, or on a Wednesday in a leap year: one week for each Thursday |
| `Weeks.IsoWeekOf` | e2e/src/api/weeks.ts:49-57 | The method that moves a local date to its Thursday gives the name |
| `Weeks.NameIsReadBack` | e2e/src/api/weeks.ts:56-64 | A week name can be read back if and only if its year prints as four digits, and then reads back as itself |
| `WeekLaws.MondaysAreInReach` | e2e/src/api/weeks.ts:60-70 | Every name of the right shape has a Monday a `Date` can hold |
| `WeekLaws.DaysInReach` | e2e/src/api/weeks.ts:43-47 | A day is shown if and only if it lies within 8.64e15 milliseconds of 1970, and as itself where its year has four digits |
| `WeekLaws.MondayIsExactly` | e2e/src/api/weeks.ts:60-70 | Which texts name a week, and the Monday of one: so many weeks on from the week of 4 January of its year, a year below 100 counting from 1900 |
| `Calendar.YearsAreAdjacent` | e2e/src/api/weeks.ts:54-67 | A year is as long as its leap rule says, in the numbering of days both languages use |
| `Calendar.DateOfDayNumber` | deployments/ops/naming.py:82 | A day and its year, month and day of the month determine one another |
| `HueLaws.NeighboursAreEnough` | frontend/scripts/validate-tokens/hues.ts:82-113 | For two or more pigments the tightest gap between neighbours is the least separation of any two |
| `HueLaws.SeparationIsReported` | frontend/scripts/validate-tokens/hues.ts:209-219 | The separation check complains if and only if two pigments are closer than the floor or there is exactly one pigment |
| `HueLaws.GapsMakeATurn` | frontend/scripts/validate-tokens/hues.ts:104-113 | The gaps sum to a full turn, or to nothing if and only if all hues coincide |
| `HueLaws.AssignmentIsReported` | frontend/scripts/validate-tokens/hues.ts:116-230 | The deal check complains if and only if two of the first four dealt are closer than its floor |
| `HueLaws.CheckAreaHues` | frontend/scripts/validate-tokens/hues.ts:209-230 | The two checks together, at 19 and at 75 degrees: when each complains, and the pair it names, which is the first neighbours that are closest, and two of the dealt that none are closer than |
| `HueLaws.NeighboursAreCloser` | frontend/scripts/validate-tokens/hues.ts:83-113 | Some neighbours are no further apart than any two given pigments |
| `HueLaws.SortedIsByHue` | frontend/scripts/validate-tokens/hues.ts:105 | Sorting keeps the pigments and puts them in hue order |
| `HueLaws.ChannelsTurnTogether` | frontend/scripts/validate-tokens/hues.ts:65-80 | Passing each channel on to the next turns the hue exactly a third of the way round |
| `HueLaws.PrimariesAreThirds` | frontend/scripts/validate-tokens/hues.ts:65-80 | Red, green and blue and their tints stand a third of a turn apart, red at zero |
| `Hues.HueOf` | frontend/scripts/validate-tokens/hues.ts:65-88 | A hue rounded to a tenth never reaches the full turn; what it is, `HueMeasures.HueBySixths` states |
| `Hues.FirstFourPairs` | frontend/scripts/validate-tokens/hues.ts:116-128 | The list holds the gap of every pair dealt and no other, the first pigment's before the second's |
| `Hues.Tightest` | frontend/scripts/validate-tokens/hues.ts:210 | The gap named is the first of the least |
| `HueMeasures.HueBySixths` | frontend/scripts/validate-tokens/hues.ts:65-80 | The hue of every colour that has one, by which channels are highest, middle and lowest: a sixth of a turn from red, green or blue, in proportion, to the nearest tenth of a degree |
| `HueMeasures.SeparationIsTheWayRound` | frontend/scripts/validate-tokens/hues.ts:83-86 | A separation leads from one hue to the other and is half a turn at the most |
| `HueMeasures.SortingIsStable` | frontend/scripts/validate-tokens/hues.ts:105 | Pigments are put in order of hue, those of one hue as they came |
| `HueMeasures.DealtAre` | frontend/scripts/validate-tokens/hues.ts:44-117 | The first four dealt are 01, 05, 08 and 10, each as often as the ramp has it, in that order |

## Left out

- ArchiveLaws.RecoveryReplaysEverything: a recovery from a dump ends when that dump is deleted under it, since no promise is made of a dump that is gone; names other than segments are never asked for.
- ArchiveLaws.SettledListingsLoseNothing: one direction only; a listing that finds a copy unfinished loses nothing if the copy ends before gzip reads the file, and what loses a file exactly is ArchiveLaws.LostByTheseSteps.
- ProbeWeeks.ShortfallIsProof: a week of several Areas that packs badly is not reported at all, which is what the probe's own words say. It supposes one reservation to an Area, as the reservations' own words do; two of one Area are added up against the week.
- ProbeReports.ReportIsExactly: which floors a gap names and what each takes is stated for one reservation to an Area, as the reservations' own words have it; every figure is stated for any.
- Operations.Site.Ship: between its effects only Postgres moves; what the nightly run and a recovery do meanwhile is in the steps of Archive, where a segment just sent can be pruned before the run ends if it lasts more than a day.
- CssLaws.StylesheetsAgree: one direction only; texts with backticks or double slashes can agree by chance.
- ProseReader.ReadComments: asks that a block's two markers are not both empty, for which the original never ends; no spelling in use is.
- What a shortfall says of the constraints it honored, the verdict's own stamps, and intersecting, clipping and gaps of interval sets, which the probe does not use.
- What the backup path checks before it starts: the archiver's own state, the off-host location, the fingerprint's age, the dump's tables. A failure there is a failure at the first point of a run.
- The intermediate `.gz` and `.gpg` files of the staging volume, which the listing passes over, and directories in it.
- Retention over clock readings before year 1000, where `strftime` and `strptime` disagree on padding, and digits outside ASCII, which `\d` also matches.
- The wrap to a negative number of `>>` and `&` on operands of 2^31 and beyond, for rows of more than 2^31 bits.
- PNG encoding at other compression levels, ancillary chunks, and what DEFLATE does with a damaged stream beyond refusing it.
- Rounding in Float32 and in doubles: the error buffer, the mean of a box, the luminance weights and hues are exact here.
- Messages, positions and counts of `check-imports` findings: each finding carries its file, its import and its chain.
- The declarations, statements, references, imports and annotations `scanCss` reads from the stripped text by pattern.
- Python's own tokenizer for `.py` files, and the partition of file kinds.
- `hexOf`, whose eight hops and single value are narrower than the resolution's rules; the contrast ratio.
- The hue stated in a comment beside a pigment, and the ledgers of reference sheets.
- `instantAt` and `civilDateIn`, which ask the time zone database; `dateShift`, one addition.
- Settings, credentials, exit codes other than the fetch step's, file ownership, the command line tools, the user interface and the services.
