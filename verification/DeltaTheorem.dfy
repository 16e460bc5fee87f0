/** The image generated from a snapshot and the server's disk, applied to a client that holds the snapshot. */
module DeltaTheorem {
  import opened Text
  import opened Paths
  import opened Pruning
  import opened AddedEntries
  import opened FileTree
  import opened ChangedReport
  import opened ReportLines
  import opened ReportHeader
  import opened SysImgGenerator
  import opened SysImgValidator
  import opened SysImgExtractor
  import opened DeltaRows
  import opened DeltaAdded
  import opened DeltaChanged

  /******* the removed part *******/

  lemma ListedLineReads(w: World, p: Path, host: Host)
    requires Lawful(w) && OrdinaryPath(p)
    ensures ReadLine(PrintEntry(p, w.package(p)), 2, host) == Values([p, w.package(p)])
  {
    hide IsPath, IsUnder, ReadLine, PrintEntry, Trimmed;
    LawfulPackage(w, p);
    OrdinaryStart(p);
    OrdinaryStartsClean(p);
    EntryReadBack(p, w.package(p), host);
  }

  lemma OrdinaryStartsClean(p: Path)
    requires OrdinaryPath(p)
    ensures p != "" && !IsSpace(p[0]) && p[0] != '#'
  {
    PathStartsWithSlash(p);
  }

  /** Deleting listed files works exactly when each of them is there once and is no directory. */
  lemma {:induction false} RemovalExact(w: World, host: Host, disk: Disk, paths: seq<Path>)
    requires Lawful(w) && Distinct(paths) && forall p :: p in paths ==> OrdinaryPath(p)
    ensures RemoveLines(host, false, disk, EntryLines(w, paths)).Done? <==>
              forall p :: p in paths ==> p in disk && !IsDir(disk[p])
    ensures RemoveLines(host, false, disk, EntryLines(w, paths)).Done? ==>
              RemoveLines(host, false, disk, EntryLines(w, paths)).state == disk - (set p | p in paths)
  {
    hide Lawful, OrdinaryPath, IsDir, ReadLine, PrintEntry;
    var lines := EntryLines(w, paths);
    if paths != [] {
      var n := |paths| - 1;
      var init, last := paths[..n], paths[n];
      RemovalExact(w, host, disk, init);
      assert lines[..n] == EntryLines(w, init);
      ListedLineReads(w, last, host);
      assert forall p :: p in paths <==> p in init || p == last;
      assert last !in init;
      assert (set p | p in paths) == (set p | p in init) + {last};
      RemovalStep(host, disk, init, last, lines);
    }
  }

  /** However far it gets, removing listed paths leaves every other path alone. */
  lemma {:induction false} RemovalKeepsOthers(w: World, host: Host, disk: Disk, paths: seq<Path>, p: Path)
    requires Lawful(w) && (forall q :: q in paths ==> OrdinaryPath(q)) && p in disk && p !in paths
    ensures var d := RemoveLines(host, false, disk, EntryLines(w, paths)).state; p in d && d[p] == disk[p]
  {
    hide Lawful, OrdinaryPath, IsDir, ReadLine, PrintEntry;
    var lines := EntryLines(w, paths);
    if paths != [] {
      var n := |paths| - 1;
      RemovalKeepsOthers(w, host, disk, paths[..n], p);
      assert lines[..n] == EntryLines(w, paths[..n]);
      ListedLineReads(w, paths[n], host);
    }
  }

  lemma RemovalStep(host: Host, disk: Disk, init: seq<Path>, last: Path, lines: seq<string>)
    requires lines != [] && last !in init
    requires exists package :: ReadLine(lines[|lines| - 1], 2, host) == Values([last, package])
    requires RemoveLines(host, false, disk, lines[..|lines| - 1]).Done? ==>
               RemoveLines(host, false, disk, lines[..|lines| - 1]).state == disk - (set p | p in init)
    ensures RemoveLines(host, false, disk, lines).Done? <==>
              RemoveLines(host, false, disk, lines[..|lines| - 1]).Done? && last in disk && !IsDir(disk[last])
    ensures RemoveLines(host, false, disk, lines).Done? ==>
              RemoveLines(host, false, disk, lines).state == disk - ((set p | p in init) + {last})
  {
    hide ReadLine, IsDir;
    var before := RemoveLines(host, false, disk, lines[..|lines| - 1]);
    if before.Done? {
      assert before.state - {last} == disk - ((set p | p in init) + {last});
    }
  }

  lemma {:induction false} PrunedDistinct(s: seq<Path>, common: Path)
    requires Distinct(s)
    ensures Distinct(Pruned(s, common))
  {
    hide CommonPath;
    if s != [] {
      PrunedDistinct(s[1..], common);
      PrunedDistinct(s[1..], s[0]);
      PrunedSubset(s[1..], s[0]);
      assert s[0] !in s[1..];
    }
  }

  lemma {:induction false} DistinctByCount(s: seq<Path>)
    ensures Distinct(s) <==> forall p :: multiset(s)[p] <= 1
  {
    if s != [] {
      var n := |s| - 1;
      var init, last := s[..n], s[n];
      DistinctByCount(init);
      assert s == init + [last];
      assert forall p :: multiset(s)[p] == multiset(init)[p] + (if p == last then 1 else 0);
      assert last in init <==> last in multiset(init);
      if Distinct(s) {
        assert Distinct(init) && last !in init;
      } else {
        var i, j :| 0 <= i < j < |s| && s[i] == s[j];
        if j < n {
          assert init[i] == init[j];
        } else {
          assert init[i] == last;
        }
      }
    }
  }

  lemma TopPathsDistinct(paths: seq<Path>)
    requires Distinct(paths)
    ensures Distinct(TopPaths(paths))
  {
    hide Pruned;
    SortPathsSorts(paths);
    DistinctByCount(paths);
    DistinctByCount(SortPaths(paths));
    PrunedDistinct(SortPaths(paths), SENTINEL);
  }

  /******* past the headers *******/

  ghost predicate AllSkipped(lines: seq<string>, host: Host) {
    forall i :: 0 <= i < |lines| ==> IsSkipped(lines[i], host)
  }

  lemma {:induction false} AppliedPastHeader(w: World, host: Host, run: Runner, dry: bool, st: Work,
                                             header: seq<string>, lines: seq<string>)
    requires AllSkipped(header, host)
    ensures ApplyLines(w, host, run, dry, st, header + lines) == ApplyLines(w, host, run, dry, st, lines)
    decreases |lines|, |header|
  {
    hide ApplyRow, ReadLine;
    var both := header + lines;
    if lines != [] {
      assert both[..|both| - 1] == header + lines[..|lines| - 1];
      AppliedPastHeader(w, host, run, dry, st, header, lines[..|lines| - 1]);
    } else if header != [] {
      assert both == header && header[..|header| - 1] + [] == header[..|header| - 1];
      AppliedPastHeader(w, host, run, dry, st, header[..|header| - 1], []);
      SkippedAnyway(header[|header| - 1], COLUMN_COUNT, host);
    }
  }

  lemma {:induction false} RemovedPastHeader(host: Host, dry: bool, disk: Disk, header: seq<string>,
                                             lines: seq<string>)
    requires AllSkipped(header, host)
    ensures RemoveLines(host, dry, disk, header + lines) == RemoveLines(host, dry, disk, lines)
    decreases |lines|, |header|
  {
    hide RemoveOne, ReadLine;
    var both := header + lines;
    if lines != [] {
      assert both[..|both| - 1] == header + lines[..|lines| - 1];
      RemovedPastHeader(host, dry, disk, header, lines[..|lines| - 1]);
    } else if header != [] {
      assert both == header && header[..|header| - 1] + [] == header[..|header| - 1];
      RemovedPastHeader(host, dry, disk, header[..|header| - 1], []);
      SkippedAnyway(header[|header| - 1], 2, host);
    }
  }

  /** The header of each report is passed over exactly when the client is what the server is. */
  lemma HeaderOfExact(w: World, t: Txt, host: Host)
    requires Lawful(w)
    ensures AllSkipped(HeaderOf(w, t), host) <==> HostFits(w.identity, host)
    ensures forall i, n: nat :: 0 <= i < |HeaderOf(w, t)| ==>
              IsSkipped(HeaderOf(w, t)[i], host) || ReadLine(HeaderOf(w, t)[i], n, host) == ForeignSystem
  {
    hide HeaderLines, HostFits, IsSkipped, ReadLine;
    LawfulServer(w, t);
    HeaderExact(w.identity, w.notes(t), host);
    forall i, n: nat | 0 <= i < |HeaderOf(w, t)| && !IsSkipped(HeaderOf(w, t)[i], host)
      ensures ReadLine(HeaderOf(w, t)[i], n, host) == ForeignSystem
    {
      ForeignAnyway(HeaderOf(w, t)[i], n, host);
    }
  }

  lemma LawfulServer(w: World, t: Txt)
    requires Lawful(w)
    ensures ValidIdentity(w.identity) && HarmlessNotes(w.notes(t))
  {
    hide Harmless;
  }

  lemma ForeignAnyway(raw: string, n: nat, host: Host)
    ensures ReadLine(raw, 0, host) == ForeignSystem <==> ReadLine(raw, n, host) == ForeignSystem
  {
    hide Strip, Split, CommentFits;
  }

  /** The list of added files is read through exactly when the client is what the server is. */
  lemma AddedReportReads(w: World, host: Host, listed: seq<Path>)
    requires Lawful(w) && forall l :: l in listed ==> OrdinaryPath(l)
    ensures ReportReads(HeaderOf(w, AddedTxt) + EntryLines(w, listed), 2, host) <==> HostFits(w.identity, host)
  {
    hide Lawful, OrdinaryPath, ReadLine, PrintEntry, HeaderOf, HostFits, IsSkipped;
    var header, lines := HeaderOf(w, AddedTxt), EntryLines(w, listed);
    var both := header + lines;
    HeaderOfExact(w, AddedTxt, host);
    forall i | 0 <= i < |header|
      ensures !ReadLine(both[i], 2, host).Corrupted?
              && (ReadLine(both[i], 2, host).ForeignSystem? <==> !IsSkipped(header[i], host))
    {
      assert both[i] == header[i];
      SkippedAnyway(header[i], 2, host);
    }
    forall i | |header| <= i < |both| ensures ReadLine(both[i], 2, host).Values? {
      var k := i - |header|;
      assert both[i] == lines[k] && listed[k] in listed;
      ListedLineReads(w, listed[k], host);
    }
    if !AllSkipped(header, host) {
      var i :| 0 <= i < |header| && !IsSkipped(header[i], host);
      assert ReadLine(both[i], 2, host).ForeignSystem?;
    }
  }

  /** The packages the client finds in the list are those the server named for the listed paths, the unknown one
      apart. */
  lemma PackagesAre(w: World, host: Host, listed: seq<Path>)
    requires Lawful(w) && HostFits(w.identity, host) && forall l :: l in listed ==> OrdinaryPath(l)
    ensures PackagesIn(HeaderOf(w, AddedTxt) + EntryLines(w, listed), host) ==
              set l | l in listed && w.package(l) != "?" :: w.package(l)
  {
    hide Lawful, OrdinaryPath, ReadLine, PrintEntry, HeaderOf, HostFits, IsSkipped;
    var header, lines := HeaderOf(w, AddedTxt), EntryLines(w, listed);
    var both := header + lines;
    HeaderOfExact(w, AddedTxt, host);
    forall i | 0 <= i < |header| ensures PackageIn(both[i], host) == None {
      assert both[i] == header[i];
      SkippedIsNoPackage(header[i], host);
    }
    forall k | 0 <= k < |listed|
      ensures PackageIn(both[|header| + k], host) ==
                if w.package(listed[k]) != "?" then Some(w.package(listed[k])) else None
    {
      assert both[|header| + k] == lines[k] && listed[k] in listed;
      ListedLineReads(w, listed[k], host);
    }
    forall l | l in listed && w.package(l) != "?" ensures w.package(l) in PackagesIn(both, host) {
      var k :| 0 <= k < |listed| && listed[k] == l;
      assert PackageIn(both[|header| + k], host).Some?;
    }
    forall x | x in PackagesIn(both, host) ensures x in set l | l in listed && w.package(l) != "?" :: w.package(l) {
      var i :| 0 <= i < |both| && PackageIn(both[i], host) == Some(x);
      var k := i - |header|;
      assert both[|header| + k] == both[i] && listed[k] in listed;
    }
  }

  lemma SkippedIsNoPackage(raw: string, host: Host)
    requires IsSkipped(raw, host)
    ensures PackageIn(raw, host) == None
  {
    hide ReadLine;
    SkippedAnyway(raw, 2, host);
  }

  /******* the whole image *******/

  ghost predicate RemovesFilesOnly(base: Snapshot, r: Report) {
    forall p :: p in r.removed && p in base.files ==> IsFile(base.files[p])
  }

  /** No tracked file was edited without changing its size. */
  ghost predicate ContentShowsInSize(base: Snapshot, now: Disk, r: Report) {
    forall p :: p in r.changed && p in base.files && p in now && IsFile(now[p]) && IsFile(base.files[p]) ==>
      base.files[p].content == now[p].content || Size(base.files[p]) != Size(now[p])
  }

  /** An added file has here the owner it has on the server. */
  predicate OwnerArrives(run: Runner, now: Disk, p: Path)
    requires p in now
  {
    Arrived(run, p, now[p]).uid == now[p].uid && Arrived(run, p, now[p]).gid == now[p].gid
  }

  /** A file that is replaced by one from the image has here the owner it has on the server, unless the row sets it. */
  predicate OwnerStays(run: Runner, base: Snapshot, now: Disk, p: Path)
    requires p in base.files && p in now
  {
    Replaced(run, base, now, p) ==>
      && (base.files[p].uid == now[p].uid ==> run.uidOf(now[p].uid) == now[p].uid)
      && (base.files[p].gid == now[p].gid ==> run.gidOf(now[p].gid) == now[p].gid)
  }

  /** Every file that comes out of the image keeps its owner on the way. */
  ghost predicate OwnersArrive(run: Runner, base: Snapshot, now: Disk, r: Report) {
    && (forall p :: p in r.added && p in now ==> OwnerArrives(run, now, p))
    && (forall p :: p in r.changed && p in base.files && p in now ==> OwnerStays(run, base, now, p))
  }

  /** What is asked of an added directory, of an added file on the file system of the extraction directory, and of one
      on another. */
  lemma OwnerArrivesExact(run: Runner, now: Disk, p: Path)
    requires p in now
    ensures OwnerArrives(run, now, p) <==>
              if IsDir(now[p]) || run.sameFs(p)
              then run.uidOf(now[p].uid) == now[p].uid && run.gidOf(now[p].gid) == now[p].gid
              else run.uid == now[p].uid && run.gid == now[p].gid
  {
  }

  lemma SettingFits(w: World, tracked: iset<Path>, base: Snapshot, now: Disk, r: Report)
    requires Origin(w, tracked, base, now, r)
    ensures ReportFits(r, base, now) && ChangedSetting(w, base, now, r.changed)
  {
    hide IsPath, IsUnder, Trimmed, Differs, IsFile, IsDir, Lawful, SameTracked;
    forall p | p in r.changed
      ensures p in base.files && p in now && OrdinaryPath(p) && KnownKind(base.files[p]) && KnownKind(now[p])
    {
      AddedIff(w, tracked, base, now, r, p);
    }
    AddedIff(w, tracked, base, now, r, "/");
  }

  /** What a generated image consists of. */
  ghost predicate ImageOf(w: World, base: Snapshot, now: Disk, r: Report, image: Image) {
    && MembersOf(image.added, now, r)
    && Run(DiskSource(now), SortPaths(r.added)).Progress?
    && image.addedTxt == HeaderOf(w, AddedTxt) + EntryLines(w, Run(DiskSource(now), SortPaths(r.added)).listed)
    && image.removedTxt == HeaderOf(w, RemovedTxt) + EntryLines(w, TopPaths(r.removed))
    && FilesOf(w, base, now, r.changed, image.changed)
    && exists rows :: image.changedTxt == HeaderOf(w, ChangedTxt) + rows && LinesOf(w, base, now, r.changed, rows)
  }

  /** An image is made exactly when each file shipped as a patch is still a file and both its versions are text. */
  lemma GeneratedIs(w: World, tracked: iset<Path>, base: Snapshot, now: Disk, r: Report)
    requires Origin(w, tracked, base, now, r)
    ensures ReportFits(r, base, now)
    ensures Generate(w, base, now, r).Ok? <==>
              forall p :: p in r.changed && ShipsPatch(base, now, p) ==> Patchable(w, base, now, p)
    ensures Generate(w, base, now, r).Ok? ==> ImageOf(w, base, now, r, Generate(w, base, now, r).value)
  {
    hide Origin, Run, SortPaths, DiskSource, AddAllChanged, ChangedSetting, FilesOf, LinesOf, UnderAdded, IsFile,
      ShipsPatch, TopPaths, HeaderOf, Patchable;
    SettingFits(w, tracked, base, now, r);
    ArchiveIs(w, tracked, base, now, r);
    ChangedPartIs(w, base, now, r.changed);
  }

  /** What the added part brings: all added paths as they are on the server, besides only what is not tracked. */
  ghost predicate Additions(run: Runner, tracked: iset<Path>, now: Disk, r: Report, client: Disk, g: Disk) {
    && (forall q :: q in g ==> q !in client && q in now && IsPath(q) && KnownKind(g[q]))
    && (forall q :: q in r.added ==> q in g)
    && (forall q :: q in g && q in tracked ==> q in r.added && g[q] == Arrived(run, q, now[q]))
    && (forall b, q :: q in g && IsPath(b) && IsUnder(b, q) && b != q ==> b in g || b in client)
    && (forall b, q :: q in g && IsPath(b) && IsUnder(b, q) && b != q && b in g ==> IsDir(g[b]))
    && (forall b, q :: q in g && IsPath(b) && IsUnder(b, q) && b != q && b in client ==> IsDir(client[b]))
  }

  lemma GrownAreAdditions(w: World, run: Runner, tracked: iset<Path>, base: Snapshot, now: Disk, r: Report,
                          client: Disk, m: Disk)
    requires Setting(w, tracked, base, now, r, client) && MembersOf(m, now, r) && ClearWay(r, client)
    ensures Additions(run, tracked, now, r, client, Grown(run, client, m))
  {
    hide Setting, MembersOf, IsPath, IsUnder, IsDir, Grown, KnownKind, Origin;
    var g := Grown(run, client, m);
    SettingFacts(w, tracked, base, now, r, client);
    forall q | q in g ensures q !in client && q in now && IsPath(q) && KnownKind(g[q]) {
      var top := GrownFacts(w, run, tracked, base, now, r, client, m, q);
      ImpliedDirIsKnown();
      if q in m {
        ArrivedIsKnown(run, q, m[q]);
      }
    }
    forall q | q in r.added ensures q in g {
      AddedIsPath(w, tracked, base, now, r, q);
      AddedIsMember(w, tracked, base, now, r, m, q);
      MemberIsGrown(run, client, m, q);
    }
    forall q | q in g && q in tracked ensures q in r.added && g[q] == Arrived(run, q, now[q]) {
      TrackedGrown(w, run, tracked, base, now, r, client, m, q);
    }
    forall b, q | q in g && IsPath(b) && IsUnder(b, q) && b != q
      ensures b in g || b in client
      ensures b in g ==> IsDir(g[b])
      ensures b in client ==> IsDir(client[b])
    {
      AboveGrown(w, run, tracked, base, now, r, client, m, b, q);
    }
  }

  lemma ArrivedIsKnown(run: Runner, p: Path, n: Node)
    ensures KnownKind(Arrived(run, p, n)) <==> KnownKind(n)
  {
  }

  lemma ImpliedDirIsKnown()
    ensures KnownKind(IMPLIED_DIR)
  {
  }

  lemma MemberIsGrown(run: Runner, client: Disk, m: Disk, q: Path)
    requires q in m
    ensures q in Grown(run, client, m)
  {
    hide ImpliedDirs;
  }

  /** A new path that is tracked was reported as added. */
  lemma TrackedGrown(w: World, run: Runner, tracked: iset<Path>, base: Snapshot, now: Disk, r: Report, client: Disk,
                     m: Disk, q: Path)
    requires Setting(w, tracked, base, now, r, client) && MembersOf(m, now, r) && q in Grown(run, client, m)
             && q in tracked
    ensures q in r.added && Grown(run, client, m)[q] == Arrived(run, q, now[q])
  {
    hide IsPath, IsUnder, IsDir, Grown, KnownKind, Lawful, ReportOf, OrdinaryDisk, ValidDisk, OrdinaryPath, UnderAdded;
    var top := GrownFacts(w, run, tracked, base, now, r, client, m, q);
    AddedIff(w, tracked, base, now, r, q);
    AddedIsMember(w, tracked, base, now, r, m, q);
  }

  /** The disk after the added and the changed part. */
  ghost predicate Reworked(run: Runner, base: Snapshot, now: Disk, r: Report, client: Disk, g: Disk, disk: Disk) {
    && disk.Keys == client.Keys + g.Keys
    && (forall q :: q in g ==> disk[q] == g[q])
    && (forall q :: q in client && q !in g && q !in r.changed ==> disk[q] == client[q])
    && (forall q :: q in r.changed ==> q in base.files && q in now && q in client && q !in g)
    && (forall q :: q in r.changed ==> q in disk && Effect(run, base, now, q, client[q], disk[q]))
  }

  lemma ChangedApplies(w: World, host: Host, run: Runner, tracked: iset<Path>, base: Snapshot, now: Disk, r: Report,
                       client: Disk, image: Image, g: Disk)
    returns (work: Work)
    requires Setting(w, tracked, base, now, r, client) && NoKindChange(base, now, r) && ImageOf(w, base, now, r, image)
    requires Additions(run, tracked, now, r, client, g)
    requires HostFits(w.identity, host)
    ensures ApplyLines(w, host, run, false, Work(client + g, ExtractedMembers(run, image.changed)),
              image.changedTxt) == Done(work)
    ensures Reworked(run, base, now, r, client, g, work.disk)
  {
    hide Setting, NoKindChange, MembersOf, FilesOf, LinesOf, RowsSetting, Applied, ApplyLines, Additions, HeaderOf,
      HostFits, Origin;
    var d := client + g;
    SettingFacts(w, tracked, base, now, r, client);
    ChangedOnClient(w, run, tracked, base, now, r, client, g);
    var rows :| image.changedTxt == HeaderOf(w, ChangedTxt) + rows && LinesOf(w, base, now, r.changed, rows);
    LinesCount(w, base, now, r.changed, rows);
    work := RowsApply(w, host, run, base, now, r.changed, rows, d, image.changed, |rows|);
    assert rows[..|rows|] == rows;
    HeaderOfExact(w, ChangedTxt, host);
    var before := Work(d, ExtractedMembers(run, image.changed));
    AppliedPastHeader(w, host, run, false, before, HeaderOf(w, ChangedTxt), rows);
    AppliedIsReworked(w, run, tracked, base, now, r, client, g, work);
  }

  lemma LinesCount(w: World, base: Snapshot, now: Disk, paths: seq<Path>, lines: seq<string>)
    requires LinesOf(w, base, now, paths, lines)
    ensures |lines| == |paths|
  {
  }

  lemma ChangedOnClient(w: World, run: Runner, tracked: iset<Path>, base: Snapshot, now: Disk, r: Report,
                        client: Disk, g: Disk)
    requires Setting(w, tracked, base, now, r, client) && NoKindChange(base, now, r)
             && Additions(run, tracked, now, r, client, g)
    ensures RowsSetting(w, base, now, r.changed, client + g)
    ensures forall p :: p in r.changed ==> p in client && p !in g
  {
    hide ChangedSetting, KnownKind, Lawful, OrdinaryDisk, ReportOf, KindChar, SameState, Distinct, UnderAdded,
      ValidDisk, OrdinaryPath;
    SettingFits(w, tracked, base, now, r);
    forall p | p in r.changed
      ensures p in client && p !in g && p in base.files && p in now
      ensures SameKind(base.files[p], now[p]) && SameState(base.files[p], client[p])
    {
      AddedIff(w, tracked, base, now, r, p);
    }
  }

  lemma AppliedIsReworked(w: World, run: Runner, tracked: iset<Path>, base: Snapshot, now: Disk, r: Report,
                          client: Disk, g: Disk, work: Work)
    requires Setting(w, tracked, base, now, r, client) && Additions(run, tracked, now, r, client, g)
    requires RowsSetting(w, base, now, r.changed, client + g) && forall p :: p in r.changed ==> p in client && p !in g
    requires Applied(w, run, base, now, r.changed, |r.changed|, client + g, work)
    ensures Reworked(run, base, now, r, client, g, work.disk)
  {
    hide Setting, Additions, Lawful, OrdinaryDisk, OrdinaryPath, KnownKind, SameKind, SameState, Distinct, Staged,
      Effect;
    var all := r.changed;
    assert all[..|all|] == all;
    forall q | q in g ensures work.disk[q] == g[q] {
      assert q !in all && (client + g)[q] == g[q];
    }
    forall q | q in all ensures Effect(run, base, now, q, client[q], work.disk[q]) {
      var i :| 0 <= i < |all| && all[i] == q;
      assert (client + g)[q] == client[q];
    }
  }

  /******* the removed part, on the reworked disk *******/

  lemma RemovedFacts(w: World, run: Runner, tracked: iset<Path>, base: Snapshot, now: Disk, r: Report, client: Disk,
                     g: Disk, disk: Disk, p: Path)
    requires Setting(w, tracked, base, now, r, client) && Additions(run, tracked, now, r, client, g) && p in r.removed
    requires Reworked(run, base, now, r, client, g, disk)
    ensures p in base.files && p in client && p in disk && disk[p] == client[p] && p in tracked && p !in now
    ensures OrdinaryPath(p) && !IsUnder(SENTINEL, p) && IsPath(p)
    ensures IsDir(disk[p]) <==> !IsFile(base.files[p])
  {
    hide IsPath, IsUnder, Trimmed, Lawful, ReportOf, ValidDisk, OrdinaryDisk, UnderAdded, Effect;
    AddedIff(w, tracked, base, now, r, p);
    assert SameState(base.files[p], client[p]);
    assert KnownKind(base.files[p]);
  }

  lemma TopsFacts(w: World, run: Runner, tracked: iset<Path>, base: Snapshot, now: Disk, r: Report, client: Disk,
                  g: Disk, disk: Disk)
    requires Setting(w, tracked, base, now, r, client) && Additions(run, tracked, now, r, client, g)
    requires Reworked(run, base, now, r, client, g, disk)
    ensures Distinct(TopPaths(r.removed))
    ensures forall p :: p in TopPaths(r.removed) ==> p in r.removed && OrdinaryPath(p)
    ensures forall p :: p in r.removed ==> Covered(p, TopPaths(r.removed))
  {
    hide Setting, Additions, IsPath, IsUnder, OrdinaryPath, Pruned, SortPaths, Reworked, Origin, ValidDisk;
    SettingFacts(w, tracked, base, now, r, client);
    AddedIff(w, tracked, base, now, r, "/");
    TopPathsDistinct(r.removed);
    SortPathsSorts(r.removed);
    PrunedSubset(SortPaths(r.removed), SENTINEL);
    forall p | p in r.removed ensures OrdinaryPath(p) && IsPath(p) && !IsUnder(SENTINEL, p) {
      RemovedFacts(w, run, tracked, base, now, r, client, g, disk, p);
    }
    CoverageExact(r.removed);
    if r.removed != [] {
      assert SortPaths(r.removed)[0] in r.removed;
    }
  }

  /** What lies above a removed path and is removed itself is a directory. */
  lemma RemovedAbove(w: World, run: Runner, tracked: iset<Path>, base: Snapshot, now: Disk, r: Report, client: Disk,
                     g: Disk, disk: Disk, k: Path, p: Path)
    requires Setting(w, tracked, base, now, r, client) && Additions(run, tracked, now, r, client, g)
             && k in r.removed && p in r.removed
    requires Reworked(run, base, now, r, client, g, disk) && IsUnder(k, p) && k != p
    ensures !IsFile(base.files[k])
  {
    hide Setting, Additions, IsPath, IsUnder, OrdinaryPath, Reworked, IsFile, IsDir, ValidDisk;
    RemovedFacts(w, run, tracked, base, now, r, client, g, disk, k);
    RemovedFacts(w, run, tracked, base, now, r, client, g, disk, p);
    SettingFacts(w, tracked, base, now, r, client);
    DirAbove(client, k, p);
  }

  /** The pruned paths are all files on the client exactly when only files were removed, and are then all removed
      paths. */
  lemma TopsRemovable(w: World, run: Runner, tracked: iset<Path>, base: Snapshot, now: Disk, r: Report, client: Disk,
                      g: Disk, disk: Disk)
    requires Setting(w, tracked, base, now, r, client) && Additions(run, tracked, now, r, client, g)
    requires Reworked(run, base, now, r, client, g, disk)
    ensures (forall p :: p in TopPaths(r.removed) ==> p in disk && !IsDir(disk[p])) <==> RemovesFilesOnly(base, r)
    ensures RemovesFilesOnly(base, r) ==> (set p | p in TopPaths(r.removed)) == (set p | p in r.removed)
  {
    hide Setting, Additions, IsPath, IsUnder, OrdinaryPath, Reworked, IsFile, IsDir, Lawful, TopPaths;
    var tops := TopPaths(r.removed);
    TopsFacts(w, run, tracked, base, now, r, client, g, disk);
    forall p | p in r.removed
      ensures p in base.files && p in disk && (IsDir(disk[p]) <==> !IsFile(base.files[p]))
    {
      RemovedFacts(w, run, tracked, base, now, r, client, g, disk, p);
    }
    forall p, k | p in r.removed && k in tops && IsUnder(k, p) && k != p ensures !IsFile(base.files[k]) {
      RemovedAbove(w, run, tracked, base, now, r, client, g, disk, k, p);
    }
    if !RemovesFilesOnly(base, r) {
      var p :| p in r.removed && p in base.files && !IsFile(base.files[p]);
      var k :| k in tops && IsUnder(k, p);
    }
  }

  /** The removed part goes through exactly when only files were removed, and then removes exactly those. */
  lemma RemovedPartExact(w: World, host: Host, run: Runner, tracked: iset<Path>, base: Snapshot, now: Disk, r: Report,
                         client: Disk, g: Disk, disk: Disk)
    requires Setting(w, tracked, base, now, r, client) && Additions(run, tracked, now, r, client, g)
    requires Reworked(run, base, now, r, client, g, disk)
    ensures var res := RemoveLines(host, false, disk, EntryLines(w, TopPaths(r.removed)));
            && (res.Done? <==> RemovesFilesOnly(base, r))
            && (res.Done? ==> res.state == disk - (set p | p in r.removed))
            && forall p :: p in disk && p !in r.removed ==> p in res.state && res.state[p] == disk[p]
  {
    hide Setting, Additions, OrdinaryPath, Reworked, IsDir, Lawful, TopPaths, RemoveLines, RemovesFilesOnly, Covered,
      Distinct, EntryLines, Origin;
    var tops := TopPaths(r.removed);
    SettingFacts(w, tracked, base, now, r, client);
    TopsFacts(w, run, tracked, base, now, r, client, g, disk);
    TopsRemovable(w, run, tracked, base, now, r, client, g, disk);
    RemovalExact(w, host, disk, tops);
    forall p | p in disk && p !in r.removed
      ensures var d := RemoveLines(host, false, disk, EntryLines(w, tops)).state; p in d && d[p] == disk[p]
    {
      RemovalKeepsOthers(w, host, disk, tops, p);
    }
  }

  /******* the end result *******/

  /** What is asked of a tracked file that was there before. */
  predicate CarriedOver(run: Runner, base: Snapshot, now: Disk, r: Report, p: Path)
    requires p in base.files && p in now
  {
    p in r.changed ==>
      && (IsFile(now[p]) && IsFile(base.files[p]) ==>
            base.files[p].content == now[p].content || Size(base.files[p]) != Size(now[p]))
      && OwnerStays(run, base, now, p)
  }

  /** Every tracked path after an apply that went through. */
  lemma TrackedAfter(w: World, run: Runner, tracked: iset<Path>, base: Snapshot, now: Disk, r: Report, client: Disk,
                     g: Disk, disk: Disk, p: Path)
    requires Setting(w, tracked, base, now, r, client) && Additions(run, tracked, now, r, client, g)
             && NoKindChange(base, now, r)
    requires Reworked(run, base, now, r, client, g, disk) && p in tracked
    ensures p in now <==> p in disk && p !in r.removed
    ensures p in now && p !in r.added ==>
              p in base.files && (SameState(now[p], disk[p]) <==> CarriedOver(run, base, now, r, p))
    ensures p in now && p in r.added ==> p !in r.changed && (SameState(now[p], disk[p]) <==> OwnerArrives(run, now, p))
  {
    hide IsPath, IsUnder, OrdinaryPath, Lawful, ReportOf, ValidDisk, OrdinaryDisk, UnderAdded;
    AddedIff(w, tracked, base, now, r, p);
    if p in now && p in base.files {
      assert SameState(base.files[p], client[p]);
    }
  }

  /** Untracked files of the client stay as they are. */
  lemma UntrackedAfter(w: World, run: Runner, tracked: iset<Path>, base: Snapshot, now: Disk, r: Report, client: Disk,
                       g: Disk, disk: Disk, p: Path)
    requires Setting(w, tracked, base, now, r, client) && Additions(run, tracked, now, r, client, g)
    requires Reworked(run, base, now, r, client, g, disk) && p !in tracked && p in client
    ensures p in disk && p !in r.removed && disk[p] == client[p]
  {
    hide IsPath, IsUnder, OrdinaryPath, Lawful, ReportOf, ValidDisk, OrdinaryDisk, UnderAdded, Effect, SameTracked;
    AddedIff(w, tracked, base, now, r, p);
  }

  lemma KindAfter(w: World, run: Runner, tracked: iset<Path>, base: Snapshot, now: Disk, r: Report, client: Disk,
                  g: Disk, disk: Disk, p: Path)
    requires Setting(w, tracked, base, now, r, client) && Additions(run, tracked, now, r, client, g)
             && NoKindChange(base, now, r)
    requires Reworked(run, base, now, r, client, g, disk) && p in disk
    ensures IsPath(p) && KnownKind(disk[p])
    ensures p !in g ==> p in client && (IsDir(disk[p]) <==> IsDir(client[p]))
  {
    hide IsPath, IsUnder, OrdinaryPath, Lawful, ReportOf, UnderAdded;
    AddedIff(w, tracked, base, now, r, p);
    if p in r.changed {
      assert SameState(base.files[p], client[p]);
    }
  }

  /** Whatever is above a path that stays is a directory that stays. */
  lemma AboveAfter(w: World, run: Runner, tracked: iset<Path>, base: Snapshot, now: Disk, r: Report, client: Disk,
                   g: Disk, disk: Disk, a: Path, p: Path)
    requires Setting(w, tracked, base, now, r, client) && Additions(run, tracked, now, r, client, g)
             && NoKindChange(base, now, r)
    requires Reworked(run, base, now, r, client, g, disk) && RemovesFilesOnly(base, r)
    requires p in disk && IsPath(a) && IsUnder(a, p) && a != p
    ensures a in disk && a !in r.removed && IsDir(disk[a])
  {
    hide Setting, NoKindChange, Additions, IsPath, IsUnder, OrdinaryPath, Effect, IsDir, IsFile, ValidDisk;
    SettingFacts(w, tracked, base, now, r, client);
    if p in g {
      AboveAddition(run, tracked, now, r, client, g, a, p);
    } else {
      DirAbove(client, a, p);
      NotAnAddition(run, tracked, now, r, client, g, a);
    }
    KindAfter(w, run, tracked, base, now, r, client, g, disk, a);
    if a in r.removed {
      RemovedFacts(w, run, tracked, base, now, r, client, g, disk, a);
      NotAnAddition(run, tracked, now, r, client, g, a);
    }
  }

  lemma AboveAddition(run: Runner, tracked: iset<Path>, now: Disk, r: Report, client: Disk, g: Disk, b: Path, q: Path)
    requires Additions(run, tracked, now, r, client, g) && q in g && IsPath(b) && IsUnder(b, q) && b != q
    ensures (b in g && IsDir(g[b])) || (b !in g && b in client && IsDir(client[b]))
  {
    hide IsPath, IsUnder, IsDir, KnownKind;
  }

  lemma NotAnAddition(run: Runner, tracked: iset<Path>, now: Disk, r: Report, client: Disk, g: Disk, b: Path)
    requires Additions(run, tracked, now, r, client, g) && b in client
    ensures b !in g
  {
    hide IsPath, IsUnder, IsDir, KnownKind;
  }

  lemma ValidAfter(w: World, run: Runner, tracked: iset<Path>, base: Snapshot, now: Disk, r: Report, client: Disk,
                   g: Disk, disk: Disk)
    requires Setting(w, tracked, base, now, r, client) && Additions(run, tracked, now, r, client, g)
             && NoKindChange(base, now, r)
    requires Reworked(run, base, now, r, client, g, disk) && RemovesFilesOnly(base, r)
    ensures ValidDisk(disk - (set p | p in r.removed))
  {
    hide Setting, NoKindChange, Additions, IsPath, IsUnder, OrdinaryPath, Reworked, IsFile, IsDir, RemovesFilesOnly;
    var res := disk - (set p | p in r.removed);
    forall p | p in res ensures IsPath(p) && KnownKind(res[p]) {
      KindAfter(w, run, tracked, base, now, r, client, g, disk, p);
    }
    forall a, p | p in res && IsPath(a) && IsUnder(a, p) && a != p ensures a in res && IsDir(res[a]) {
      AboveAfter(w, run, tracked, base, now, r, client, g, disk, a, p);
    }
  }

  lemma SameTrackedExact(w: World, run: Runner, tracked: iset<Path>, base: Snapshot, now: Disk, r: Report,
                         client: Disk, g: Disk, disk: Disk)
    requires Setting(w, tracked, base, now, r, client) && Additions(run, tracked, now, r, client, g)
             && NoKindChange(base, now, r)
    requires Reworked(run, base, now, r, client, g, disk)
    ensures SameTracked(tracked, now, disk - (set p | p in r.removed)) <==>
              ContentShowsInSize(base, now, r) && OwnersArrive(run, base, now, r)
  {
    hide Setting, NoKindChange, Additions, IsPath, IsUnder, OrdinaryPath, Reworked, IsFile, Size, SameState,
      OwnerArrives, Origin, OwnerStays;
    var res := disk - (set p | p in r.removed);
    SettingFacts(w, tracked, base, now, r, client);
    forall p | p in tracked
      ensures p in now <==> p in res
      ensures p in now && p !in r.added ==>
                p in base.files && (SameState(now[p], res[p]) <==> CarriedOver(run, base, now, r, p))
      ensures p in now && p in r.added ==> p !in r.changed && (SameState(now[p], res[p]) <==> OwnerArrives(run, now, p))
    {
      TrackedAfter(w, run, tracked, base, now, r, client, g, disk, p);
    }
    forall p | p in r.changed ensures p in tracked && p !in r.added && p in base.files && p in now {
      AddedIff(w, tracked, base, now, r, p);
      if p in base.files {
        SnapshotIsTracked(w, tracked, base, now, r, client, p);
      }
    }
    forall p | p in r.added ensures p in tracked && p in now {
      AddedIff(w, tracked, base, now, r, p);
    }
  }

  lemma SnapshotIsTracked(w: World, tracked: iset<Path>, base: Snapshot, now: Disk, r: Report, client: Disk, p: Path)
    requires Setting(w, tracked, base, now, r, client) && p in base.files
    ensures p in tracked
  {
    hide Lawful, OrdinaryDisk, ValidDisk, OrdinaryPath, KnownKind, SameTracked, ReportOf;
  }

  /** The client can be stopped in the added part only before anything but new entries was written. */
  lemma StoppedMoveKeeps(w: World, run: Runner, tracked: iset<Path>, base: Snapshot, now: Disk, r: Report,
                         client: Disk, m: Disk, walk: seq<Path>, p: Path)
    requires Setting(w, tracked, base, now, r, client) && MembersOf(m, now, r)
             && WalkOf(walk, ExtractedTree(run, m)) && p in client
    ensures forall q :: q in walk ==> q in ExtractedTree(run, m)
    ensures var d := MoveAll(run, ExtractedTree(run, m), walk, client).state; p in d && d[p] == client[p]
  {
    hide Setting, MembersOf, IsUnder, IsPath, Moved, MoveAll, WalkOf, ExtractedTree, Grown;
    var k := MoveLeaves(w, run, tracked, base, now, r, client, m, walk, |walk|);
    assert walk[..|walk|] == walk;
    NotBoth(w, run, tracked, base, now, r, client, m, p);
    MovedKeys(client, Grown(run, client, m), walk[..k]);
  }

  /** The main result. The image made from a snapshot and a disk, applied to any client whose tracked files are those
      of the snapshot: it goes through exactly when the client is what the server is, nothing but directories is in the
      way of the added files and no directory was removed. It then leaves the client with the tracked state of the disk
      exactly when every edited file also changed its size and every file out of the image keeps its owner on the way.
      Whether it goes through or not, no untracked file of the client is touched. */
  lemma ApplyExact(w: World, host: Host, run: Runner, tracked: iset<Path>, base: Snapshot, now: Disk, r: Report,
                   client: Disk, image: Image, walk: seq<Path>)
    requires Setting(w, tracked, base, now, r, client) && NoKindChange(base, now, r) && ReportFits(r, base, now)
    requires Generate(w, base, now, r) == Ok(image) && WalkOf(walk, ExtractedTree(run, image.added))
    ensures var res := ApplyParts(w, host, run, false, image, walk, client);
            && (res.Done? <==> HostFits(w.identity, host) && ClearWay(r, client) && RemovesFilesOnly(base, r))
            && (res.Done? ==>
                (SameTracked(tracked, now, res.state) <==>
                    ContentShowsInSize(base, now, r) && OwnersArrive(run, base, now, r)))
            && (res.Done? ==> ValidDisk(res.state))
            && (forall p :: p in client && p !in tracked ==> p in res.state && res.state[p] == client[p])
  {
    hide Setting, NoKindChange, MembersOf, Additions, WalkOf, FilesOf, LinesOf, Reworked, ExtractedTree, MoveAll,
      ApplyLines, RemoveLines, Generate, Run, SortPaths, DiskSource, TopPaths, ValidDisk, SameTracked,
      RemovesFilesOnly, OwnersArrive, ContentShowsInSize, ClearWay, Grown, HeaderOf, HostFits, ReportReads,
      EntryLines, Origin, AllSkipped;
    SettingFacts(w, tracked, base, now, r, client);
    GeneratedIs(w, tracked, base, now, r);
    AddedPartExact(w, run, tracked, base, now, r, client, image.added, walk);
    ListedAreOrdinary(w, tracked, base, now, r);
    AddedReportReads(w, host, Run(DiskSource(now), SortPaths(r.added)).listed);
    forall p | p in client
      ensures var d := MoveAll(run, ExtractedTree(run, image.added), walk, client).state; p in d && d[p] == client[p]
    {
      StoppedMoveKeeps(w, run, tracked, base, now, r, client, image.added, walk, p);
    }
    if ClearWay(r, client) && HostFits(w.identity, host) {
      var g := Grown(run, client, image.added);
      GrownAreAdditions(w, run, tracked, base, now, r, client, image.added);
      var work := ChangedApplies(w, host, run, tracked, base, now, r, client, image, g);
      HeaderOfExact(w, RemovedTxt, host);
      RemovedPastHeader(host, false, work.disk, HeaderOf(w, RemovedTxt), EntryLines(w, TopPaths(r.removed)));
      RemovedPartExact(w, host, run, tracked, base, now, r, client, g, work.disk);
      SameTrackedExact(w, run, tracked, base, now, r, client, g, work.disk);
      if RemovesFilesOnly(base, r) {
        ValidAfter(w, run, tracked, base, now, r, client, g, work.disk);
      }
      forall p | p in client && p !in tracked ensures p in work.disk && p !in r.removed && work.disk[p] == client[p] {
        UntrackedAfter(w, run, tracked, base, now, r, client, g, work.disk, p);
      }
    }
  }

  lemma ListedAreOrdinary(w: World, tracked: iset<Path>, base: Snapshot, now: Disk, r: Report)
    requires Origin(w, tracked, base, now, r)
    ensures var st := Run(DiskSource(now), SortPaths(r.added)); st.Progress? && forall l :: l in st.listed ==>
              OrdinaryPath(l) && l in r.added
  {
    hide Origin, Run, SortPaths, DiskSource, OrdinaryPath, IsUnder, Lawful;
    ArchiveIs(w, tracked, base, now, r);
    OriginDisk(w, tracked, base, now, r);
    forall l | l in Run(DiskSource(now), SortPaths(r.added)).listed ensures OrdinaryPath(l) && l in r.added {
      AddedIff(w, tracked, base, now, r, l);
      OrdinaryFacts(now, l);
    }
  }

  lemma OriginDisk(w: World, tracked: iset<Path>, base: Snapshot, now: Disk, r: Report)
    requires Origin(w, tracked, base, now, r)
    ensures OrdinaryDisk(now) && Lawful(w)
  {
  }
}
