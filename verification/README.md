# A verified model of mySCM

mySCM keeps the configuration of many machines in step with one server. The server scans its own files into numbered
snapshots and computes images `myscm-img.X.Y.tar.gz` that lead from snapshot X to the current snapshot Y. Images travel
from the server and from peer to peer. A client at version X checks an image against its own disk, applies its added,
changed and removed files in that order, and then stands at version Y. The older C server and client transfer archives
over a small protocol and serve each client in a thread.

The project models this in Dafny and proves what the parts promise together.

* **The delta chain.** `FileTree` has disks as maps from paths to nodes; `Pruning` and `AddedEntries` the sorted pruning
  loops; `ChangedReport`, `ReportLines` and `ReportHeader` the rows and headers as text; `SysImgGenerator`,
  `SysImgValidator` and `SysImgExtractor` the server's image, what is left of one that was not completed, and the
  client's check and apply, down to the text of each report line. `DeltaRows`, `DeltaAdded`, `DeltaChanged` and
  `DeltaTheorem` prove what applying an image does; `ValidationTheorem` what validating it does, and
  `AnyImage` what validation asks of an image made by anyone; `DryRun` what a dry run comes to, `Templates` what
  template files do to an image; `Witnesses` has inputs on which an image falls short; `Fleet` what holds in all runs of
  a server and its clients; `SysImgServer` and `FleetSteps` have the commands as its steps, and how a client catches up.
  `Samples` has the texts of the formats letter by letter.
* **Scans and versions.** `AideDbManager` has the rotation of scan directories, `VersionFiles` the version file,
  `ImageNames` and `NamePatterns` the names of images and archived scans, `AideCheckParser` and `AideDbParser` the
  readers of AIDE's report and database; `CheckReport` ties the report to the lists an image is made from.
* **Clients and peers.** `PeerSearch` has the search for an image, `TemplateFile` the placeholders.
* **The C programs.** `BulkIo` and `Transfer` have the loops and the two ends of a transfer in every interleaving,
  `ThreadAdmission` the main loop and its threads, `PackagesManager` the growing command.

What is called but not defined in the repository is a parameter with a law: the patch library (`applyPatch` undoes
`makePatch`), the hashes (fixed length, one word; nothing is assumed about collisions), the package lookup, the text and
percent decoders, the platform names, which file system a path is on, which numbers the server's users and groups have
on a client (extracting as root sets owners by name), AIDE (the difference of two disks, with truthful marks), the
outcome of each system call.

## Where the code does less than it is meant to

Each of these is proved with the exact condition under which the intended result holds, and with an input on which it
does not.

* A changed file gets its new content only if its size changed; the image carries the content in every case
  (`DeltaTheorem.SameTrackedExact`, `Witnesses.SameSizeEditIsLost`).
* An added file that is moved in from another file system loses its owner, and any file out of the image gets the owner
  of that name here, whatever his number (`DeltaTheorem.SameTrackedExact`, `DeltaTheorem.OwnerArrivesExact`,
  `Witnesses.OwnerIsLost`, `Witnesses.OwnerIsMapped`).
* A generation or a download that breaks off leaves its remains under the image's name, which is then offered and
  fetched like an image; every client refuses them (`SysImgGenerator.LeftByExact`, `Fleet.RemainsAreRefused`,
  `Witnesses.LostTextStopsGeneration`).
* A stale or unreadable version file gives images a wrong target (`SysImgServer.NameIsRightExact`,
  `SysImgServer.StaleFileMisnames`).
* A client's own subdirectory changes the link count of the tracked directory it is in; an image that reports a change
  of that directory is then refused (`Fleet.CleanRefusalExact`, `ValidationTheorem.TrackedHolderExact`,
  `Witnesses.ExtraLinkIsRefused`).
* An error the search for an image does not catch ends it before the other peers are tried
  (`PeerSearch.DownloadFromRandomHost`, `PeerSearch.UncaughtErrorEndsSearch`).
* Removed directories stop the apply, since only `os.remove` is called
  (`DeltaTheorem.RemovedPartExact`, `Witnesses.RemovedDirectoryStops`).
* A changed kind of file is refused by every client, even when forced
  (`ValidationTheorem.KindChangeIsRefused`, `Witnesses.ChangedKindIsRefused`).
* No image can be made when a file kept as text became a directory or no longer decodes
  (`DeltaTheorem.GeneratedIs`, `Witnesses.LostTextStopsGeneration`).
* A machine that cannot tell its system, distribution or processor refuses images made on itself
  (`ValidationTheorem.OwnPlatformExact`).
* Columns marked with space, colon, plus or minus pass the server but are not read back as unchanged
  (`ReportLines.ExpectedIsOldExact`, `ReportLines.MarkIsTakenForValue`).
* The prefix test of the pruning loops misses a descendant when something sorts in between
  (`Pruning.IncomparableExact`, `Pruning.DashDefeatsTheTest`); nothing is lost by it (`Pruning.CoverageExact`).
* The check of the version file against the directories is never made
  (`AideDbManager.DeadCheckExact`, `AideDbManager.StaleVersionPasses`); what a rotation then does is
  `AideDbManager.RotationExact`.
* Unescaped dots and leading zeros let other file names pass for image names (`ImageNames.ParsedNameExact`,
  `ImageNames.OneNumberParsesAsTwo`), and can make a peer's newest image impossible to fetch
  (`PeerSearch.NewestIsThereExact`, `PeerSearch.LeadingZeroMisleads`).
* A failing `pthread_attr_destroy` after a thread was started makes both threads clean up
  (`ThreadAdmission.CleanedUpOnceExact`, `ThreadAdmission.LapseCleansUpTwice`).
* The sender's counter wraps when the file is longer than announced, unless the announced length is a whole number of
  chunks (`Transfer.WrapExact`, `Transfer.SendUpgradeResponse`, `Transfer.LongerFileWraps`). The packet is four bytes
  longer than its fields, on both ends.
* The pattern for package names accepts no dash, since in brackets a backslash stands for itself
  (`PackagesManager.AsMeantExact`, `PackagesManager.DashIsLost`).

## Model

| member | source | states |
|---|---|---|
| Fleet.RunsAreSafe | src/myscm/myscm-srv/myscm/server/sysimggenerator.py:52-89 | In every state of every run that interleaves server edits, scans, image generation that goes through or breaks off, downloads from the server or a peer that go through or break off, applies (dry, refused, stopped midway or complete) on clients of any platform and any runner, and local edits: each file anywhere named X.Y has X < Y and holds the delta from snapshot X to snapshot Y if and only if its generation and each download on its way were completed, and every clean client at version v holds exactly the tracked state of snapshot v |
| Fleet.NextKeepsSafe | src/myscm/myscm-cli/myscm/client/sysimgextractor.py:39-69 | Each single step keeps that, adds at most to the history of snapshots, and lowers no version |
| Fleet.RunsOnlyGrow | src/myscm/myscm-cli/myscm/client/sysimgmanager.py:26-49 | Over a run no snapshot is altered or lost and no client falls back to a lower version |
| Fleet.RanFits | src/myscm/myscm-cli/myscm/client/sysimgextractor.py:42-67 | A run on a client raises the recorded version exactly when it is not refused, not dry and completes |
| Fleet.AppliedHolds | src/myscm/myscm-cli/myscm/client/sysimgextractor.py:47-67 | A client that holds snapshot X and has applied X.Y holds snapshot Y if and only if no tracked file was edited within its size and every file out of the image kept its owner on the way, numbers being mapped by user and group name |
| Fleet.CleanRunStopsOnly | src/myscm/myscm-cli/myscm/client/sysimgextractor.py:47-64 | On a clean client a run that was not refused stops if and only if something is in the way of an added file or a directory was removed, and touches no untracked file even then |
| Fleet.CleanRefusalExact | src/myscm/myscm-cli/myscm/client/sysimgvalidator.py:31-227 | A clean client is refused if and only if there is nothing newer for it, what it has under the name is remains, a run before was stopped, its platform is another, a tracked file changed its kind, or a file with a reported change has another link count there than in the snapshot |
| Fleet.RemainsAreRefused | src/myscm/myscm-cli/myscm/client/sysimgvalidator.py:80-107 | The remains of a generation or a download that did not complete are refused by every client, clean or not, forced or not, and a run on them changes nothing |
| Fleet.DryRunPasses | src/myscm/myscm-cli/myscm/client/sysimgextractor.py:42-69 | On any client, clean or not, a dry run that was not refused goes through, and the client is afterwards as it was: disk, version, images and extraction directories |
| Fleet.CopiesDecide | src/myscm/myscm-srv/myscm/server/sysimggenerator.py:490-515 | In every delta image a changed content is shipped as a patch if and only if the scan the image starts from kept a text copy of it, else whole, and an unchanged one not at all |
| Fleet.UnguardedImageMisleads | src/myscm/myscm-srv/myscm/server/sysimggenerator.py:69-75 | What the up-to-date check is for: an otherwise faithful image made from a disk that is not in the state of the newest snapshot never brings a client to that snapshot |
| FleetSteps.CatchUp | src/myscm/myscm-srv/myscm/server/sysimggenerator.py:52-75 | From every reachable state a clean client that is behind catches up in three steps, or four by way of another client, if its image can be made and nothing on it is against it: it stands at the newest snapshot, and holds it if and only if no file was edited within its size and every file kept its owner |
| FleetSteps.ApplyAsStep | src/myscm/myscm-cli/myscm/client/sysimgextractor.py:39-69 | Whatever comes of applying an image, it is a step of the fleet, and the object holds afterwards what the fleet says of the client |
| FleetSteps.ScanAsStep | src/myscm/myscm-srv/myscm/server/scanner.py:27-90 | A scan is a step of the fleet, unless AIDE fails, and then nothing changes |
| FleetSteps.DownloadIsStep | src/myscm/myscm-cli/myscm/client/sftpdownloader.py:103-108 | Whatever the server or a client has under a name can be fetched by every client, which then has the same file under it, and nothing else changes |
| SysImgServer.GenImg | src/myscm/myscm-srv/myscm/server/sysimggenerator.py:52-114 | Whatever the directories and the version file hold: without the database of the client, or on a disk that is not as last scanned, nothing is written; else the file under X and the number read from the version file is the whole image, or what was written of it before the error that is returned |
| SysImgServer.NameIsRightExact | src/myscm/myscm-srv/myscm/server/sysimggenerator.py:56-57 | Whatever number was read, the name is right if and only if it is above the source, it is a scan, and, for a whole image, the disk is as that scan saw it |
| SysImgServer.GenerationIsStep | src/myscm/myscm-srv/myscm/server/sysimggenerator.py:52-75 | With the version file as completed scans leave it, the name is right and the command is a step of the fleet |
| SysImgServer.NameForParses | src/myscm/myscm-srv/myscm/server/sysimggenerator.py:237-240 | The name tells source and target, unless no version could be read: then it is not recognised as the name of an image |
| SysImgServer.StaleFileMisnames | src/myscm/myscm-srv/myscm/server/sysimggenerator.py:237-240 | A version file that says 0 names an image from snapshot 1 as leading to 0; one without a number gives a name that is no name of an image |
| SysImgServer.SourceAndDiskExact | src/myscm/myscm-srv/myscm/server/sysimggenerator.py:91-114 | In the layout of completed scans the source is some scan but the last, and the disk has to be as the last scan saw it |
| DeltaTheorem.ApplyExact | src/myscm/myscm-cli/myscm/client/sysimgextractor.py:56-58 | The image from (old, new), applied to any disk with the old tracked state where no kind changed: it goes through if and only if the client is on the platform of the server, only directories are in the way of the added files and no directory was removed; it then gives the new tracked state if and only if every edited file changed its size and every file out of the image keeps its owner; the result is a well-formed tree, and no untracked file of the client is touched whether it goes through or not |
| DeltaTheorem.OwnerArrivesExact | src/myscm/myscm-cli/myscm/client/sysimgextractor.py:101 | An added entry keeps its owner if and only if its user and group have the same numbers here, or, for a file on another file system than the extraction directory, the runner has them |
| DryRun.DryRunExact | src/myscm/myscm-cli/myscm/client/sysimgextractor.py:39-69 | A dry run of a generated image, on a client in any state: it goes through with the disk as it was if the client is on the platform of the server, else it stops at the list of added files with the disk as it was |
| DeltaTheorem.GeneratedIs | src/myscm/myscm-srv/myscm/server/sysimggenerator.py:210-235 | An image is made if and only if each file shipped as a patch is still a file and both its versions decode as text; it consists of headers, the subtrees of the added paths, the pruned removed paths, and a row with patch or whole file for each changed path |
| DeltaTheorem.HeaderOfExact | src/myscm/myscm-srv/myscm/server/sysimggenerator.py:592-621 | The header of each report is passed over if and only if the client is on the platform of the server; else reading the report ends there |
| DeltaTheorem.ChangedApplies | src/myscm/myscm-cli/myscm/client/sysimgextractor.py:56-57 | The changed part, after the added part: what was added is as it was moved in, each changed file has the new mode and owner, and its new content if its size changed; all else is as before |
| DeltaTheorem.GrownAreAdditions | src/myscm/myscm-cli/myscm/client/sysimgextractor.py:184-195 | What the added part brings holds all added paths as they arrive, owners mapped by name, and a file from another file system with the owner of the runner; besides only untracked entries that were not there before |
| DeltaTheorem.RemovedPartExact | src/myscm/myscm-cli/myscm/client/sysimgextractor.py:437-471 | The removed part goes through if and only if only files were removed, and then exactly the removed paths are gone; no other path is touched even if it stops |
| DeltaTheorem.RemovalExact | src/myscm/myscm-cli/myscm/client/sysimgextractor.py:459-468 | Removing listed paths succeeds if and only if each is there and no directory; exactly those are gone |
| DeltaTheorem.PackagesAre | src/myscm/myscm-cli/myscm/client/sysimgextractor.py:132-160 | Read from the list of a generated image, these are the packages the server named for the listed paths |
| DeltaTheorem.SameTrackedExact | src/myscm/myscm-cli/myscm/client/sysimgextractor.py:257-265 | The tracked state reached is that of the server if and only if no file was edited within its size, every added entry kept its owner, and every file replaced as a whole has the owner here that it has on the server, unless its row sets it |
| DeltaTheorem.TopPathsDistinct | src/myscm/myscm-srv/myscm/server/sysimggenerator.py:385-412 | Pruning lists no removed path twice |
| DeltaTheorem.ValidAfter | src/myscm/myscm-cli/myscm/client/sysimgextractor.py:56-58 | What is left after the three parts is a well-formed tree again |
| DeltaAdded.ArchiveIs | src/myscm/myscm-srv/myscm/server/sysimggenerator.py:258-311 | The archive of added files holds exactly what the disk has at and below the added paths |
| DeltaAdded.MembersAreNew | src/myscm/myscm-cli/myscm/client/sysimgvalidator.py:119-135 | Nothing at or below an added path is on a client with the old tracked state |
| DeltaAdded.AddedPartExact | src/myscm/myscm-cli/myscm/client/sysimgextractor.py:162-290 | Moving in the extracted tree goes through if and only if nothing but directories is above the added paths on the client, and then adds exactly the members, each with its owner mapped by name, renamed or copied, and the directories above them that were missing |
| DeltaAdded.MoveAllIs | src/myscm/myscm-cli/myscm/client/sysimgextractor.py:184-240 | Moving goes on as long as the parent of each entry is a directory by then, in whatever order the tree is walked |
| DeltaAdded.FileGoesInExact | src/myscm/myscm-cli/myscm/client/sysimgextractor.py:184-240 | A file that is moved takes its path, or goes under its name into the directory that has its path, and fails if and only if something has that name there; nothing else on the disk changes |
| DeltaAdded.MoveLeaves | src/myscm/myscm-cli/myscm/client/sysimgextractor.py:184-240 | Wherever moving ends, the disk has the new entries of a first part of the walk and is else as before |
| DeltaChanged.ChangedPartIs | src/myscm/myscm-srv/myscm/server/sysimggenerator.py:449-542 | For each changed path: a row, and a patch if there is a text copy of the old file, else the whole file, if the content changed, and nothing if not; an error if and only if a patch is due for what is no file or no text any more |
| DeltaChanged.RowApplies | src/myscm/myscm-cli/myscm/client/sysimgextractor.py:326-411 | Applying the row of a file whose kind did not change touches only that file and what is staged for it, and gives it the new mode, owner and, if the size changed, content |
| DeltaChanged.RowsApply | src/myscm/myscm-cli/myscm/client/sysimgextractor.py:311-324 | Applying all rows one after the other has that effect on each listed file and none on any other |
| ValidationTheorem.ValidationExact | src/myscm/myscm-cli/myscm/client/sysimgvalidator.py:31-227 | Non-forced validation of a generated image, on any client: accepts if and only if the client is on the platform of the server, no listed added path exists there and each file with a reported change kept its kind and matches the old snapshot in mode, uid, gid and link count, plus size and both hashes for files |
| AnyImage.AcceptedExact | src/myscm/myscm-cli/myscm/client/sysimgvalidator.py:31-227 | Validation of any image, whoever made it, plain or forced: accepted if and only if each line of its three reports is blank, a comment that names no other platform, or a row that holds on the client. An added path is not there and the image has it; a changed path is there with the kind, mode, owner, links, size and hashes of before, and with its new content or patch in the image where the hash changed; forced, the values need not agree but must be readable as far as the source asks |
| ValidationTheorem.HolderIsAccepted | src/myscm/myscm-cli/myscm/client/sysimgvalidator.py:112-227 | A client that holds the old snapshot, link counts included, is accepted if and only if it is on the platform of the server and no tracked file changed its kind |
| ValidationTheorem.TrackedHolderExact | src/myscm/myscm-cli/myscm/client/sysimgvalidator.py:112-227 | A client with the old tracked state, whatever else it holds, is accepted if and only if it is on the platform of the server, no tracked file changed its kind and no file with a reported change has another link count there than in the snapshot |
| ValidationTheorem.KindChangeIsRefused | src/myscm/myscm-cli/myscm/client/sysimgvalidator.py:270-299 | An image made over a change of kind fails validation on every client, forced or not |
| ValidationTheorem.PastHeader | src/myscm/myscm-cli/myscm/client/sysimgvalidator.py:482-507 | A report with its header raises nothing if and only if the client is on the platform of the server and the rows raise nothing |
| ValidationTheorem.ForceOnlyDowngrades | src/myscm/myscm-cli/myscm/client/sysimgvalidator.py:87-130 | On any file, whole, with reports missing or not readable at all: forced validation accepts all that plain validation accepts, never stops for an error that becomes a warning, and stops for every other one that plain validation stops for, malformed numbers apart |
| ValidationTheorem.ChangedLineExact | src/myscm/myscm-cli/myscm/client/sysimgvalidator.py:160-227 | The line of one changed file passes if and only if it is a comment or the file is there, kept its kind and looks as in the old snapshot |
| ValidationTheorem.AddedReportExact | src/myscm/myscm-cli/myscm/client/sysimgvalidator.py:112-135 | The lines of the added report behind its header pass if and only if no listed path exists locally |
| SysImgValidator.RunForEachReportLine | src/myscm/myscm-cli/myscm/client/sysimgvalidator.py:482-507 | The loop over a report stops with the first error, else counts the lines with values |
| SysImgValidator.AllLinesPass | src/myscm/myscm-cli/myscm/client/sysimgvalidator.py:482-507 | A report raises no error if and only if none of its lines does |
| SysImgValidator.SysImgValidator.AssertSysImgValid | src/myscm/myscm-cli/myscm/client/sysimgvalidator.py:31-56 | Added, changed and removed reports are checked in that order, each for being there first; the counts are stored only if all pass |
| SysImgValidator.SysImgValidator.AssertSummaryValid | src/myscm/myscm-cli/myscm/client/sysimgvalidator.py:80-107 | A missing report is an error, or, forced, a warning after which it cannot be extracted; else its lines decide |
| SysImgValidator.OnlyCompleteIsAccepted | src/myscm/myscm-cli/myscm/client/sysimgvalidator.py:80-107 | Forced or not, only an archive with all three reports is accepted, and then exactly when the image it holds is |
| SysImgValidator.LeftIsAcceptedExact | src/myscm/myscm-srv/myscm/server/sysimggenerator.py:220-223 | What a generation leaves under the name of the image is accepted if and only if the generation went through and its image is accepted |
| SysImgExtractor.SysImgExtractor.ApplySysImg | src/myscm/myscm-cli/myscm/client/sysimgextractor.py:39-69 | A refused run and a dry run leave the disk alone; a run that stops leaves the version alone, its extraction directory behind and the disk exactly as the parts before the fault made it; a completed one gives the disk of the three parts and, unless dry, raises the version strictly to the target |
| SysImgExtractor.SysImgExtractor.MoveTree | src/myscm/myscm-cli/myscm/client/sysimgextractor.py:162-290 | The walk moves entry after entry, renaming within a file system and copying between two, up to the first fault, and the disk is as it was by then; a dry run moves nothing |
| SysImgExtractor.SysImgExtractor.ApplyAddedFiles | src/myscm/myscm-cli/myscm/client/sysimgextractor.py:113-152 | The tree is moved and the list of added files read through once more for its packages |
| SysImgExtractor.SysImgExtractor.GetPackagesOfAddedFiles | src/myscm/myscm-cli/myscm/client/sysimgextractor.py:132-160 | Reading the list fails if and only if one of its lines is foreign or corrupted; else exactly the packages named in its lines are found, the unknown one apart |
| SysImgExtractor.SysImgExtractor.ApplyChangedFile | src/myscm/myscm-cli/myscm/client/sysimgextractor.py:384-431 | A staged patch is applied to a text and removed, else the staged file replaces an existing one, else nothing; a dry run leaves the disk alone |
| SysImgExtractor.SysImgExtractor.ChangeFilePermissions | src/myscm/myscm-cli/myscm/client/sysimgextractor.py:352-359 | The new octal mode is set unless the old value is the dot; a dry run leaves the disk alone |
| SysImgExtractor.SysImgExtractor.ChangeFileUidGid | src/myscm/myscm-cli/myscm/client/sysimgextractor.py:361-382 | Owner and group are set where changed; a failing change of owner is only logged |
| SysImgExtractor.SysImgExtractor.ChangedFilesPerLine | src/myscm/myscm-cli/myscm/client/sysimgextractor.py:326-350 | Content, then permissions, then owner, stopping at the first fault |
| SysImgExtractor.SysImgExtractor.ApplyChangedFiles | src/myscm/myscm-cli/myscm/client/sysimgextractor.py:300-324 | All rows in order; comments and blank lines are skipped; a dry run leaves the disk alone |
| SysImgExtractor.SysImgExtractor.ApplyRemovedFiles | src/myscm/myscm-cli/myscm/client/sysimgextractor.py:437-471 | All listed paths in order; a dry run leaves the disk alone |
| SysImgGenerator.GenerateImage | src/myscm/myscm-srv/myscm/server/sysimggenerator.py:210-235 | The image made in the order added, removed, changed, each report behind its header, is the specified one, or the first error; the file is left as far as it was written |
| SysImgGenerator.LeftByExact | src/myscm/myscm-srv/myscm/server/sysimggenerator.py:220-223 | What is left is the whole image if and only if the generation went through; else the last report is missing |
| SysImgGenerator.AddChangedEntries | src/myscm/myscm-srv/myscm/server/sysimggenerator.py:465-488 | The loop over the changed entries stops at the first error, with the files added by then |
| SysImgGenerator.AddChangedEntry | src/myscm/myscm-srv/myscm/server/sysimggenerator.py:465-542 | One changed entry: skipped if it has a template, else its row and its patch, whole file or nothing; an error if a patch is due and one version cannot be read as text |
| Templates.TemplatedIsLeftOut | src/myscm/myscm-srv/myscm/server/sysimggenerator.py:349-367 | If a regular file that is no template has its template beside it, it is never listed as added, and the image is the one made without it among the changed files; each other changed path has exactly one row, in the order of the report |
| DeltaRows.RowIsRead | src/myscm/myscm-srv/myscm/server/aideentry.py:251-319 | For every changed entry the server makes a row from which the client reads: the kind, the size mark, and for size, mode, uid, gid, link count and both hashes exactly the old values |
| DeltaRows.RowSurvives | src/myscm/myscm-srv/myscm/server/sysimggenerator.py:570-590 | Printed and read back the row is the same 18 columns, or a skipped comment if no change in it was reported |
| DeltaRows.EntryAccepted | src/myscm/myscm-srv/myscm/server/aideentry.py:288-319 | An entry whose info string tells the truth is never rejected |
| DeltaRows.PropertyMeans | src/myscm/myscm-cli/myscm/client/sysimgvalidator.py:349-352 | Each property column reads as the old value, and as (new, dot) or (new, old) |
| ChangedReport.GetAideChangedProperties | src/myscm/myscm-srv/myscm/server/aideentry.py:251-286 | The columns of an entry: leading columns, one or two per info character, the package, and the comment mark if nothing was reported |
| ChangedReport.AppendProperty | src/myscm/myscm-srv/myscm/server/aideentry.py:288-319 | One info character appends its columns or raises: an unknown mark, or values that differ though the mark says they do not |
| ChangedReport.RowShape | src/myscm/myscm-srv/myscm/server/aideentry.py:251-319 | An accepted entry gives 18 columns: name, link name, info string, attributes, kind, size mark, size and old size, ten property columns with their marks accepted, package; the first column is commented out exactly if no property is reported |
| ChangedReport.MarkPassesExact | src/myscm/myscm-srv/myscm/server/aideentry.py:288-310 | A mark passes if and only if it is the letter of the property, or the property is unchanged and the mark is a dot, colon, space, plus or minus |
| ReportLines.PrintChangedRow | src/myscm/myscm-srv/myscm/server/sysimggenerator.py:570-590 | The padded line, or the error for a wrong number of columns |
| ReportLines.ChangedRowReadBack | src/myscm/myscm-cli/myscm/client/sysimgvalidator.py:482-507 | A printed row is read back as the same values if and only if each of them is free of white space at its ends |
| ReportLines.EntryReadBack | src/myscm/myscm-srv/myscm/server/sysimggenerator.py:435-438 | A printed added or removed path and its package are read back if and only if both are free of white space at their ends |
| ReportLines.CommentedRowIsSkipped | src/myscm/myscm-cli/myscm/client/sysimgvalidator.py:492-493 | A commented row is skipped |
| ReportLines.ExpectedIsOldExact | src/myscm/myscm-cli/myscm/client/sysimgvalidator.py:349-352 | The expected value is the old one if and only if the mark is the reference character or the dot; with space, colon, plus or minus it is not read back |
| ReportLines.MarkIsTakenForValue | src/myscm/myscm-cli/myscm/client/sysimgvalidator.py:349-352 | Each of the marks colon, plus and minus is taken for the old value itself |
| ReportLines.ExpectedSizeIsOld | src/myscm/myscm-cli/myscm/client/sysimgvalidator.py:371-374 | The expected size is the old size |
| ReportLines.LowerExact | src/myscm/myscm-cli/myscm/client/sysimgvalidator.py:546-547 | Two texts compare as equal if and only if they have the same length and at each place the same character or the same letter in its two cases |
| AddedEntries.AddedLoopIsSound | src/myscm/myscm-srv/myscm/server/sysimggenerator.py:258-311 | For any added paths on disk: no member is written twice, the list never holds a path and one above it, and the archive is what lies below the listed paths and covers every added path |
| AddedEntries.AddEntries | src/myscm/myscm-srv/myscm/server/sysimggenerator.py:258-311 | The loop with its common path, member guard and error for a missing path is the specified one |
| AddedEntries.RunKeepsInvariant | src/myscm/myscm-srv/myscm/server/sysimggenerator.py:289-295 | The member guard repairs what the prefix test misses, at every step |
| Pruning.PruneDescendants | src/myscm/myscm-srv/myscm/server/sysimggenerator.py:385-412 | The loop over the sorted removed paths keeps the specified ones |
| Pruning.CoverageExact | src/myscm/myscm-srv/myscm/server/scanner.py:108-119 | Every path has a kept path at or above it if and only if the path that sorts first does not lie below the made-up initial path |
| Pruning.ExpansionIsInput | src/myscm/myscm-srv/myscm/server/sysimggenerator.py:385-412 | For entries closed under descendants in their tree, what lies at or below the kept paths is exactly the entries |
| Pruning.IncomparableExact | src/myscm/myscm-srv/myscm/server/sysimggenerator.py:397-403 | No kept path lies above another if and only if nothing foreign sorts into the subtree of a topmost path |
| Pruning.NoLowCharactersContiguous | src/myscm/myscm-srv/myscm/server/sysimggenerator.py:385-403 | That is so when no character of the paths sorts below the slash |
| Pruning.DashDefeatsTheTest | src/myscm/myscm-srv/myscm/server/sysimggenerator.py:397-403 | /a, /a-b, /a/c are all kept |
| Pruning.SortPathsSorts | src/myscm/myscm-srv/myscm/server/sysimggenerator.py:386 | Sorting gives an ascending permutation |
| Paths.CommonPathTest | src/myscm/myscm-srv/myscm/server/sysimggenerator.py:397 | The test with the common path holds exactly for the path itself and what is below it |
| FileTree.ParentIsAbove | src/myscm/myscm-cli/myscm/client/sysimgextractor.py:185 | The directory a path is put into is above it |
| AideCheckParser.ReportIsRead | src/myscm/myscm-srv/myscm/server/aidecheckparser.py:51-93 | Three maps printed as sections, in any order, any of them absent, with any lines before each and any number of blank lines in it, are read back as the same three maps |
| CheckReport.CheckReportIsRead | src/myscm/myscm-srv/myscm/server/sysimggenerator.py:196-208 | The report printed for the difference of a snapshot and a disk, whatever lines surround its sections, is read back as exactly its three lists, each path with its info string |
| AideCheckParser.RepeatIsRejected | src/myscm/myscm-srv/myscm/server/aidecheckparser.py:65-82 | A section repeated among the first three is rejected at its title |
| AideCheckParser.UnknownIsRejected | src/myscm/myscm-srv/myscm/server/aidecheckparser.py:72-82 | After fewer than three sections the report is accepted if and only if a closing title follows |
| AideCheckParser.ReadAllEntries | src/myscm/myscm-srv/myscm/server/aidecheckparser.py:51-84 | The reader on the shared line iterator gives the specified result, errors included |
| AideCheckParser.CreateSimpleEntries | src/myscm/myscm-srv/myscm/server/aidecheckparser.py:133-153 | Entries are read past leading empty lines up to the next empty line, the iterator left behind it |
| AideCheckParser.ReadToLine | src/myscm/myscm-srv/myscm/server/aidecheckparser.py:172-184 | The iterator is left behind the first line looked for, if there is one |
| AideCheckParser.EntryLineReads | src/myscm/myscm-srv/myscm/server/aidecheckparser.py:155-169 | An entry line gives its info string and path for every info without a colon and every absolute path |
| Samples.SampleReport | src/myscm/myscm-srv/myscm/server/aidecheckparser.py:51-93 | A report letter by letter, with each of the three titles and each of the two closing ones |
| AideDbParser.TableIsRead | src/myscm/myscm-srv/myscm/server/aidedbparser.py:78-158 | A printed table gives, for every order of its columns and any lines before the header, for each requested path in it the requested properties of its last row |
| AideDbParser.OnePassExact | src/myscm/myscm-srv/myscm/server/aidedbparser.py:128-158 | The pass fails if and only if there is a blank row or a requested row of a wrong length; else it gives exactly the requested paths in the table, with exactly the requested properties of the last row of each |
| AideDbParser.RestrictionCommutes | src/myscm/myscm-srv/myscm/server/aidedbparser.py:136-154 | Reading some paths and properties is reading more of the table and restricting the result |
| AideDbParser.NoSpecIsRejected | src/myscm/myscm-srv/myscm/server/aidedbparser.py:110-126 | A file without a header is always rejected, though its last line is taken for one |
| Samples.SampleFrame | src/myscm/myscm-srv/myscm/server/aidedbparser.py:78-158 | A database letter by letter: its first line, its last line and the start of the line with the names |
| AideDbParser.SplitOnceExact | src/myscm/myscm-srv/myscm/server/aidedbparser.py:110-126 | What is taken for the names when there is no header: the first word of the last line, and the rest from its second word on |
| AideDbParser.GetFilesPropertiesValues | src/myscm/myscm-srv/myscm/server/aidedbparser.py:128-158 | The row loop with its checks, the closing line last |
| AideDbParser.GetAllInfilePropertiesNames | src/myscm/myscm-srv/myscm/server/aidedbparser.py:110-126 | The search for the header line |
| AideDbParser.GetFilesProperties | src/myscm/myscm-srv/myscm/server/aidedbparser.py:53-98 | The whole read in its order of checks |
| AideDbParser.EnumerateColumns | src/myscm/myscm-srv/myscm/server/aidedbparser.py:100-108 | The column numbers by name |
| AideDbParser.EnumeratedDistinct | src/myscm/myscm-srv/myscm/server/aidedbparser.py:100-108 | With different names each name has its own column |
| Samples.SampleInfos | src/myscm/myscm-srv/myscm/server/aideentry.py:21-34 | An entry can be made exactly with seventeen characters of which the first is one of the eleven types of files |
| CheckReport.InfosFit | src/myscm/myscm-srv/myscm/server/aideentry.py:231-249 | An entry can be made with each info string of the report AIDE prints for two disks |
| AideDbParser.GetFilesEntries | src/myscm/myscm-srv/myscm/server/aidedbparser.py:28-51 | Entries are made if and only if every listed path is in the database and has an info string of the right length that begins with a type of file, each with its own row |
| AideDbParser.SetChangedPropertiesPrevValues | src/myscm/myscm-srv/myscm/server/aidecheckparser.py:117-131 | Each changed entry gets the row of the client database for its path, if there is one, and nothing else changes |
| AideDbManager.AideDatabasesManager.Scan | src/myscm/myscm-srv/myscm/server/scanner.py:27-90 | After k scans the stored version is k-1, the current directory holds scan k-1, the archives are exactly 0 to k-2, each with its own database and its copies, if their directory could be made; an up-to-date server is not scanned again |
| AideDbManager.AideDatabasesManager.ReplaceOldAideDbWithNewOne | src/myscm/myscm-srv/myscm/server/aidedbmanager.py:26-42 | The renames and the version step in their order; after an error the directories are as the renames before it made them |
| AideDbManager.RotationExact | src/myscm/myscm-srv/myscm/server/aidedbmanager.py:30-42 | Whatever number the version file gave, a rotation breaks off if and only if a scan is archived under it, leaving the current directory with its database renamed; else the current scan is archived under it and every archive stays |
| AideDbManager.NoLaterScanIsKept | src/myscm/myscm-srv/myscm/server/aidedbmanager.py:44-51 | Once a rotation broke off, no sequence of later scans and numbers changes any directory but that of new results |
| AideDbManager.UnreadableVersionLosesScan | src/myscm/myscm-srv/myscm/server/aidedbmanager.py:114-119 | With an unreadable version file the rotation goes through, the scan that was current is kept as aide.db.-1, and the archived numbers an image can start from stay what they were |
| AideDbManager.AideDatabasesManager.GetRecentAideDbVersion | src/myscm/myscm-srv/myscm/server/aidedbmanager.py:105-135 | The version read from the file; the check against the directories never raises since the sorted list is None |
| AideDbManager.AideDatabasesManager.GetAideDbVerList | src/myscm/myscm-srv/myscm/server/aidedbmanager.py:137-150 | Exactly the numbers in the names of the archive directories |
| AideDbManager.AideDatabasesManager.GetClientDb | src/myscm/myscm-srv/myscm/server/sysimggenerator.py:91-114 | The database file archived under that number, if it is there; in the layout of completed scans it is there if and only if the version is archived, and is the one scanned then |
| AideDbManager.ClientDbExact | src/myscm/myscm-srv/myscm/server/sysimggenerator.py:91-114 | In the layout of completed scans every scan but the last is found under its number, with its copies, and no other is |
| AideDbManager.RotationKeepsLayout | src/myscm/myscm-srv/myscm/server/aidedbmanager.py:44-103 | No rotation fails and none overwrites an archive |
| AideDbManager.ConsistencyCheckNeverFires | src/myscm/myscm-srv/myscm/server/aidedbmanager.py:121-135 | In a history of completed scans neither the check as it is nor the one that was meant, on the sorted list, ever fires, and nothing would be reported missing |
| AideDbManager.DeadCheckExact | src/myscm/myscm-srv/myscm/server/aidedbmanager.py:121-135 | The check as it is and the one that was meant differ if and only if a number beyond the version read is archived |
| AideDbManager.StaleVersionPasses | src/myscm/myscm-srv/myscm/server/aidedbmanager.py:121-135 | Scan 5 archived and version 0 in the file: the meant check raises, the check as it is does not |
| AideDbManager.GetMissingAideDbFilesRanges | src/myscm/myscm-srv/myscm/server/aidedbmanager.py:193-213 | The loop gives the texts of the specified ranges; None for an empty list |
| AideDbManager.MissingRangesExact | src/myscm/myscm-srv/myscm/server/aidedbmanager.py:193-213 | For every non-decreasing list the ranges are in order, disjoint and maximal, and contain exactly the numbers below the last one that are not in the list |
| VersionFiles.WrittenIsRead | src/myscm/myscm-common/myscm/common/versionfile.py:54-87 | Every integer at or above the start is read back as written; every other one is refused |
| VersionFiles.LineIsRead | src/myscm/myscm-common/myscm/common/versionfile.py:54-87 | So is every integer with a line end behind it |
| VersionFiles.InstalledFilesAreRead | src/myscm/myscm-common/myscm/common/versionfile.py:54-87 | The files that are installed are read as 0 and -1 |
| VersionFiles.TooManyLinesExact | src/myscm/myscm-common/myscm/common/versionfile.py:62-72 | A file has too many lines if and only if its first line is not blank and a character follows the first line end |
| VersionFiles.EmptyFileExact | src/myscm/myscm-common/myscm/common/versionfile.py:62-69 | A file is empty if and only if its first line is blank |
| VersionFiles.VersionFile.Parse | src/myscm/myscm-common/myscm/common/versionfile.py:54-87 | The version read, or the error; a missing file is created on request |
| VersionFiles.VersionFile.Increment | src/myscm/myscm-common/myscm/common/versionfile.py:89-97 | The file holds the next version, or is as before after an error |
| VersionFiles.VersionFile.SetValue | src/myscm/myscm-common/myscm/common/versionfile.py:99-108 | File and field hold the value |
| VersionFiles.VersionFile.Create | src/myscm/myscm-common/myscm/common/versionfile.py:113-114 | File and field hold the starting value |
| ImageNames.ImageNameParses | src/myscm/myscm-cli/myscm/client/sysimgmanager.py:94-120 | The name of an image tells its two versions, for all numbers |
| ImageNames.ParsedNameExact | src/myscm/myscm-cli/myscm/client/sysimgmanager.py:94-120 | A name that parses is the name of the image with these numbers if and only if its dots are dots and neither number has a leading zero |
| NamePatterns.ParseExact | src/myscm/myscm-cli/myscm/client/sysimgmanager.py:94-120 | A name is read exactly if the pattern matches it, the two versions being the values of its groups, of which the first is as long as it can be |
| NamePatterns.TargetExact | src/myscm/myscm-cli/myscm/client/sftpdownloader.py:125-151 | A name offers a target exactly if the pattern matches it with the client's version as the first group, and the target is the value of the second |
| NamePatterns.ArchivedExact | src/myscm/myscm-srv/myscm/server/aidedbmanager.py:137-150 | A directory counts as an archived scan exactly if the pattern matches its name, under the value of the group |
| ImageNames.OneNumberParsesAsTwo | src/myscm/myscm-srv/myscm/server/sysimggenerator.py:38 | An input where it is not: myscm-img.123.tar.gz passes for 1 and 3 |
| PeerSearch.DownloadFromRandomHost | src/myscm/myscm-cli/myscm/client/sysimgupdater.py:43-90 | For any order of drawing: only eligible peers are tried and none twice; the search ends with the first one drawn that gives an image or raises an error that is not caught, all before it passed over; nothing is found if and only if every eligible peer is passed over, and then each was tried |
| PeerSearch.Download | src/myscm/myscm-cli/myscm/client/sftpdownloader.py:26-46 | A download gives the newest image offered if a file of that name can be fetched; it fails if the error is one the downloader turns into its own, a missing file among them, and raises every other error |
| PeerSearch.OneOutcome | src/myscm/myscm-cli/myscm/client/sftpdownloader.py:26-46 | It comes to one thing only |
| PeerSearch.CaughtIsPassedOver | src/myscm/myscm-cli/myscm/client/sftpdownloader.py:31-43 | A peer is passed over for an error if and only if that is one of authentication, of a missing file or of SSH |
| PeerSearch.GetNewestImageName | src/myscm/myscm-cli/myscm/client/sftpdownloader.py:125-151 | The name with the greatest target offered for the current version; none if and only if none is offered |
| PeerSearch.NewestIsThereExact | src/myscm/myscm-cli/myscm/client/sftpdownloader.py:148-151 | The name with the greatest target is on the peer if and only if one of the names offering it has dots for dots and no leading zero |
| PeerSearch.LeadingZeroMisleads | src/myscm/myscm-cli/myscm/client/sftpdownloader.py:127-151 | A listing with a leading zero: the client asks for a file that is not there and the download fails |
| PeerSearch.UncaughtErrorEndsSearch | src/myscm/myscm-cli/myscm/client/sysimgupdater.py:60-72 | Two peers, one that does not let its directory be listed and one with the image: drawn first, the former ends the search |
| TemplateFile.Substitution.ReplacePlaceholdersWithValues | src/myscm/myscm-cli/myscm/client/templatefile.py:27-33 | Line by line substitution equals substitution in the whole text at once; a template made of text and placeholders comes out with the first value of each known variable in its place and all else as it was, if neither text nor values open a placeholder |
| TemplateFile.Substitution.ReplaceInLine | src/myscm/myscm-cli/myscm/client/templatefile.py:50-59 | The same for a line; the function is called again for each such line, but its first value stays |
| TemplateFile.ReplaceConcat | src/myscm/myscm-cli/myscm/client/templatefile.py:56-59 | Replacing a text of one line does not reach over line ends |
| TemplateFile.ReplaceFirst | src/myscm/myscm-cli/myscm/client/templatefile.py:59 | An occurrence that no other one comes before or reaches into is replaced by the value, and what follows apart from it |
| TemplateFile.TemplateFills | src/myscm/myscm-cli/myscm/client/templatefile.py:50-59 | The whole text of any pieces comes out with each known variable replaced and every other piece as it was |
| TemplateFile.ValueIsReplacedToo | src/myscm/myscm-cli/myscm/client/templatefile.py:50-59 | A value that is itself the placeholder of a later variable is replaced in turn |
| Transfer.TransferIsSafe | src_old/server/protocol/proto_upgrade_response.c:49-74 | For every archive, interleaving and splitting of calls: written, in-flight and unsent bytes make up the archive, the counter of the receiver is in-flight plus the counter of the sender, neither wraps, and a receiver that is done has the archive |
| Transfer.NextConserves | src_old/client/protocol/recv_upgrade_response.c:54-69 | Each step of either end keeps that |
| Transfer.NeverStuck | src_old/client/protocol/recv_upgrade_response.c:54-69 | Unless an end has failed or both are done, one of them can go on |
| Transfer.TransferEnds | src_old/server/protocol/proto_upgrade_response.c:49-76 | A run without failures has at most 17 + 2n steps for n bytes |
| Transfer.SendUpgradeResponse | src_old/server/protocol/proto_upgrade_response.c:23-77 | Only a start of packet and file is ever sent; sending succeeds if and only if no send falls short, no read fails, and the announced length is that of the file or a whole number of chunks within a longer one; for such a length that is if and only if exactly what was announced was sent, and with any other the whole file goes out before the error |
| Transfer.SendHeader | src_old/server/protocol/proto_upgrade_response.c:28-41 | The packet is sent, or a part of it from the start and the send is short |
| Transfer.SendChunk | src_old/server/protocol/proto_upgrade_response.c:51-66 | Up to a chunk is read at the offset and a part of it from the start is sent; the calls that failed or fell short are counted |
| Transfer.RecvUpgradeResponse | src_old/client/protocol/recv_upgrade_response.c:24-77 | Receiving succeeds if and only if the first read gets a whole packet of the right type, no other read and no write fails and the file can be created and closed; the file then is what followed the packet, gapless and in order, as long as the counter said, up to whole turns of 64 bits; every call, successful or not, is a path of the step system |
| Transfer.RecvChunk | src_old/client/protocol/recv_upgrade_response.c:55-69 | What one read gets is appended to the file, or a part of it from the start and the write fails |
| Transfer.SenderCallIsRun | src_old/server/protocol/proto_upgrade_response.c:23-77 | Whatever part of packet and archive a call of the sender has sent, a run of its steps puts the same on the wire, done if all was sent and failed if not |
| Transfer.CallsAreRun | src_old/client/protocol/recv_upgrade_response.c:24-77 | A call of the sender and one of the receiver that gets what was sent make a run of the step system; so a receiver that succeeds has the archive and the sender had sent all of it |
| Transfer.WrapExact | src_old/server/protocol/proto_upgrade_response.c:49-66 | Some round makes the counter of the sender wrap if and only if the file is longer than announced and the announced length is no whole number of chunks |
| Transfer.LongerFileWraps | src_old/server/protocol/proto_upgrade_response.c:49-66 | A file of two bytes announced as one: the counter wraps and sending cannot succeed |
| Transfer.ReceivedIsSent | src_old/client/protocol/recv_upgrade_response.c:54-69 | A successful receiver of one packet with its archive has the archive |
| Transfer.PacketIsRead | src_old/include/common/protocol/packets.h:67-71 | The client reads the type and the length the server wrote, for every 64-bit length |
| Samples.SamplePacket | src_old/include/common/protocol/packets.h:67-71 | The packet that announces 258 bytes, byte by byte |
| BulkIo.BulkRead | src_old/common/misc.c:42-54 | All that is available up to the size is in the buffer, however the single reads split it, or, if and only if one of them failed, the error |
| BulkIo.BulkPread | src_old/common/misc.c:56-68 | The same from an offset, leaving the position of the file alone |
| BulkIo.BulkWrite | src_old/common/misc.c:70-80 | The whole buffer is appended, or, if and only if a write failed, a part of it from the start and the error |
| ThreadAdmission.CountsAndOwnership | src_old/server/main_loop.c:32-79 | Without a lapse, in every interleaving: the counter is the threads not yet counted out plus the reservation of the main thread, within 0 and the maximum; each socket is closed and each argument freed at most once, never while in use, exactly once when the handler is finished |
| ThreadAdmission.CleanedUpOnceExact | src_old/server/main_loop.c:100-141 | Once all is quiet a connection was cleaned up exactly once if and only if its thread was not reported as failed after it had started, else twice, and the counter is short by the number of those lapses |
| ThreadAdmission.LapseCleansUpTwice | src_old/server/main_loop.c:121-124 | A run in which one failing pthread_attr_destroy closes a socket twice, frees an argument twice and leaves the counter at -1 |
| ThreadAdmission.HistoryExact | src_old/server/main_loop.c:85-141 | In every run a connection has a thread argument, a thread and a lapse if and only if calloc, pthread_create and pthread_attr_destroy came out that way for it |
| ThreadAdmission.QuietExact | src_old/server/main_loop.c:230-273 | In every reachable state all threads are finished and the main thread waits, if and only if no step but accepting a connection is left |
| ThreadAdmission.StepsBounded | src_old/server/main_loop.c:59-273 | A run has at most eleven steps for each connection that was accepted, whatever fails and however the threads are interleaved |
| ThreadAdmission.RunAccounts | src_old/server/main_loop.c:243-273 | The accounting of counter, sockets and arguments in every reachable state, lapses included |
| PackagesManager.AppendPkgList | src_old/server/packages_manager.c:63-147 | The command ends as the prefix and a space and name for each kept line in order; every store is inside the buffer; the r-th enlargement happens only when 4096 * 2^(r-1) characters or more are needed |
| PackagesManager.AppendPkg | src_old/server/packages_manager.c:118-136 | One name is appended with its space and null, the buffer enlarged first if it is needed |
| PackagesManager.TrimWhitespace | src_old/server/packages_manager.c:44-61 | Trimming in place leaves the trimmed string at the returned start |
| Samples.SampleSpaces | src_old/server/packages_manager.c:48-55 | White space off the two ends of a name is the blank and the five control characters from tab to carriage return; what the Python parts strip is that and the separators of Unicode |
| PackagesManager.TrimExact | src_old/server/packages_manager.c:44-61 | Trimming takes white space off both ends, all of it and nothing else |
| PackagesManager.AppendedHas | src_old/server/packages_manager.c:132-136 | The name of every kept line is in the command, behind a space |
| PackagesManager.LineExact | src_old/server/packages_manager.c:19-136 | Exactly what one line adds: a space and its trimmed text if that is known, not empty, no comment and made of letters, digits, backslash, underscore, dot and plus; else nothing |
| PackagesManager.AsMeantExact | src_old/server/packages_manager.c:19-42 | The command is what the pattern means to give if and only if no known package of the config set has a dash in a name the pattern means to accept, or a backslash in one it does accept |
| PackagesManager.DashIsLost | src_old/server/packages_manager.c:19-42 | A config set with the known package apt-utils appends nothing |
| ReportHeader.HeaderExact | src/myscm/myscm-srv/myscm/server/sysimggenerator.py:592-621 | A header is passed over if and only if system, distribution and processor of the client are those of the server, case aside; else one of its lines is foreign |
| ReportHeader.TitleExact | src/myscm/myscm-srv/myscm/server/sysimggenerator.py:592-621 | A distribution is written with a capital at the head of each run of letters, its other letters small, and nothing else changed |
| ReportHeader.InfoLineReads | src/myscm/myscm-cli/myscm/client/sysimgvalidator.py:564-568 | A key and its value are read back from a header line, and another name finds nothing in it |
| ReportHeader.OtherInfoIsHarmless | src/myscm/myscm-srv/myscm/server/sysimggenerator.py:600-619 | The other lines of the header name none of the three, whatever their values |
| Samples.SampleIdentity | src/myscm/myscm-srv/myscm/server/sysimggenerator.py:603-621 | The lines of a header that name system, distribution and processor, letter by letter |
| Samples.SampleColumns | src/myscm/myscm-srv/myscm/server/aideentry.py:50-63 | The fourteen columns a database must have, and that they are enough |
| Samples.SampleNames | src/myscm/myscm-srv/myscm/server/sysimggenerator.py:36-38 | The names of an image and of archived scans, letter by letter |
| Samples.SampleColumnsOfRow | src/myscm/myscm-srv/myscm/server/aideentry.py:209-230 | Where the columns of a row of changed.txt begin |
| Samples.SampleNumbers | src/myscm/myscm-common/myscm/common/versionfile.py:72-82 | A number is read with a sign of either kind and white space about it; a sign alone is none |
| Samples.SampleLines | src/myscm/myscm-srv/myscm/server/sysimggenerator.py:592-621 | A line of a header without a value and a line of the list of added files, letter by letter |
| ValidationTheorem.OwnPlatformExact | src/myscm/myscm-cli/myscm/client/sysimgvalidator.py:524-547 | A holder of the old snapshot on the platform of the server is accepted if and only if that platform could say what it is and no tracked file changed its kind |
| ValidationTheorem.OtherPlatformIsRefused | src/myscm/myscm-cli/myscm/client/sysimgvalidator.py:524-547 | A client on another platform refuses every image of the server, whatever is on its disk, forced or not |
| Witnesses.SameSizeEditIsLost | src/myscm/myscm-cli/myscm/client/sysimgextractor.py:329-334 | A file edited from x to y: the image is made and applied, and the state of the server is not reached |
| Witnesses.RemovedDirectoryStops | src/myscm/myscm-cli/myscm/client/sysimgextractor.py:467-468 | A removed directory: the image is made, and applying it stops |
| Witnesses.ChangedKindIsRefused | src/myscm/myscm-cli/myscm/client/sysimgvalidator.py:293-299 | A file that became a directory: the image is made, and every client refuses it |
| Witnesses.LostTextStopsGeneration | src/myscm/myscm-srv/myscm/server/sysimggenerator.py:522-526 | A file kept as text that became a directory or is no text any more: no image, but an archive with two of the three reports stays under its name, and every client refuses it, forced or not |
| Witnesses.OwnerIsLost | src/myscm/myscm-cli/myscm/client/sysimgextractor.py:263-281 | A file of user 5 moved in from another file system by root: applied, and its owner is lost |
| Witnesses.OwnerIsMapped | src/myscm/myscm-cli/myscm/client/sysimgextractor.py:101 | A file of a user who is 110 on the server and 113 on the client, on one file system: applied, and it belongs to 113 |
| Witnesses.ExtraLinkIsRefused | src/myscm/myscm-cli/myscm/client/sysimgvalidator.py:222-227 | A file with new permissions on the server that has one more link on a client with the old tracked state: the image is made and that client refuses it |
| Witnesses.TemplatedIsNotSent | src/myscm/myscm-srv/myscm/server/sysimggenerator.py:469-473 | A disk with one template: the changed file beside it has neither a row nor any content in the image |
| Witnesses.OtherDistroIsRefused | src/myscm/myscm-cli/myscm/client/sysimgvalidator.py:524-547 | A client ubuntu refuses every image a server debian can make, forced or not, and a client Debian on LINUX is the same platform |

## Left out

- Symbolic links, devices, pipes and sockets in the file tree: disks hold regular files and directories.
- Times, inode and block count are reported and printed but are no part of the state that is carried over; link counts
  are checked by validation only.
- The archive filter for templates, which looks at names in the archive and not on the disk. The theorems on applying and
  validating an image are about disks without templates; `Templates` says what a template does to an image on any disk.
  Placeholders for environment variables.
- Paths that the text formats cannot carry (white space at an end, a null or a line end in them) or that end in one of
  the tool's own extensions are kept out of the main theorems; `ReportLines` says exactly when a row is read back.
- The wording of titles, descriptions and dates in the report headers, which are any lines that name none of the three
  compared values; lines are modelled as a sequence without their line ends. Lower case beyond ASCII, digits
  beyond ASCII and underscores in `int`, and newline translation in text mode.
- Files changing between the check for an outdated database and reading them, and between stat and read elsewhere; the
  kernel clearing set-id bits on a change of owner; full disks.
- Forced apply beyond the checks it turns into warnings and the removal of a left-over extraction directory.
- What a directory shipped under CHANGED has below it.
- Which files of a selected directory the scan copies as text: the copies of a scan are a parameter.
- `aide.conf` parsing, tar, gzip, signatures, SFTP, TLS, command lines, logging, progress bars and listings.
- Conversion of AIDE's base64 columns; properties are modelled as the values they decode to.
- Failing `malloc`, `realloc`, `fgets` and `regcomp` in the package list, and the command that asks whether a package
  exists, which is a parameter.
- The request packet, header flags and protocol failure packets; poll timeouts; a write that makes no progress.
- Failing `close` and `accept` in the main loop, which change neither counter nor ownership.
- Fleet.RunsAreSafe: says nothing of the disk of a client that is not clean, that is, after a local change of a tracked
  file, a run that failed midway, or an image that is lossy in the sense of Fleet.AppliedHolds, because such a client
  holds no snapshot in general.
- Running the client without root: extracting then gives everything to the runner, and `chown` of a new directory fails.
  Set-group-id directories, which decide the group of a copied file.
- How far an archive was written when the machine itself stops: the remains of such a generation are any archive without
  its last report, or nothing that can be read. Signature files, which come and are fetched after the image.
- A client without a version file that searches its peers: reading the version raises there.
