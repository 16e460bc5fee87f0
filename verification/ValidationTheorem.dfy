/** Validation of a generated image accepts exactly the clients whose files look as the old snapshot says. */
module ValidationTheorem {
  import opened Text
  import opened Paths
  import opened Pruning
  import opened AddedEntries
  import opened FileTree
  import opened ChangedReport
  import opened ReportLines
  import opened ReportHeader
  import opened SysImgGenerator
  import opened SysImgValidator
  import opened DeltaRows
  import opened DeltaAdded
  import opened DeltaChanged
  import opened DeltaTheorem

  /** The client's file as far as validation can tell: kind, permissions, owner, group, link count, and for a file
      its size and both hashes. */
  ghost predicate LooksLike(w: World, a: Node, c: Node) {
    && a.mode == c.mode && a.uid == c.uid && a.gid == c.gid && a.lcount == c.lcount
    && (IsFile(a) ==>
        Size(a) == Size(c) && w.md5(a.content) == w.md5(c.content) && w.sha1(a.content) == w.sha1(c.content))
  }

  /******* one column *******/

  lemma NumberCheck(path: Path, property: string, old_: nat, cur: nat, local: nat)
    requires ReadsAs(property, Numeral(old_, 10), Numeral(cur, 10))
    ensures CheckNumber(path, property, local, false) == None <==> local == old_
  {
    hide ExpectedValue, GetNewOld, Numeral, ParseInt;
    ParseIntNumeral(old_, 10);
  }

  lemma PermissionCheck(path: Path, property: string, a: Node, b: Node, c: Node)
    requires ReadsAs(property, Numeral(a.mode, 8), Numeral(b.mode, 8))
    ensures CheckPermissions(path, property, c, false) == None <==> c.mode == a.mode
  {
    hide ExpectedValue, GetNewOld, Numeral;
    SameNumeral(a.mode, c.mode, 8);
  }

  lemma SizeCheck(path: Path, property: string, a: Node, c: Node)
    requires ExpectedValue(property) == Some(IntText(Size(a)))
    ensures CheckSize(path, property, c, false) == None <==> Size(c) == Size(a)
  {
    hide ExpectedValue, ParseInt, Size;
    ParseIntText(Size(a));
  }

  lemma HashCheck(path: Path, property: string, a: Node, c: Node, hash: string -> string, len: nat)
    requires IsFile(a) && IsFile(c) && ExpectedValue(property) == Some(HashText(a, hash)) && |hash(a.content)| == len
    ensures CheckHash(path, property, len, c, hash, false) == None <==> hash(c.content) == hash(a.content)
  {
    hide ExpectedValue, IsFile;
  }

  /** What a row promises to ship is in the image. */
  lemma ShippedCheck(w: World, base: Snapshot, now: Disk, r: Report, image: Image, p: Path, property: string)
    requires ReportFits(r, base, now) && p in r.changed && OrdinaryPath(p)
    requires FilesOf(w, base, now, r.changed, image.changed)
    requires GetNewOld(property) == Some((HashText(now[p], w.sha1),
               if ContentOf(base.files[p]) == ContentOf(now[p]) then "." else HashText(base.files[p], w.sha1)))
    ensures CheckShipped(p, property, image) == None
  {
    hide OrdinaryPath, GetNewOld, HashText, ContentOf, IsFile, TextNode;
  }

  lemma HashLengths(w: World, c: string)
    requires Lawful(w)
    ensures |w.md5(c)| == MD5_LEN && |w.sha1(c)| == SHA1_LEN
  {
  }

  /******* one row *******/

  /** The row of a file whose kind changed on the server is refused if the file is there, even when forced. */
  lemma KindChangeInRow(w: World, image: Image, disk: Disk, force: bool, p: Path, a: Node, b: Node, values: seq<string>)
    requires RowMeans(w, p, a, b, values) && Reported(a, b) && KindChar(a) != KindChar(b) && p in disk
    ensures CheckChanged(w, image, disk, force, values) == Some(KindUnknown(p))
  {
    hide Reported, ReadsAs, ExpectedValue, GetNewOld, Numeral, IntText, HashText, CheckFile, CheckPermissions,
      CheckNumber, KindChar;
    assert values[4] == ['!'];
    assert values[4][0] == '!';
  }

  lemma KindCheck(p: Path, kind: string, a: Node, c: Node)
    requires KnownKind(a) && KnownKind(c) && kind == [KindChar(a)]
    ensures CheckKind(p, kind, c, false) == None <==> a.mode / KIND_UNIT == c.mode / KIND_UNIT
  {
    assert kind[0] == KindChar(a);
  }

  lemma RowAccepted(w: World, base: Snapshot, now: Disk, r: Report, image: Image, client: Disk, p: Path,
                    values: seq<string>)
    requires Lawful(w) && ReportFits(r, base, now) && p in r.changed && OrdinaryPath(p)
    requires FilesOf(w, base, now, r.changed, image.changed)
    requires p in client ==> KnownKind(client[p])
    requires KnownKind(base.files[p]) && KnownKind(now[p]) && KindChar(base.files[p]) == KindChar(now[p])
    requires RowMeans(w, p, base.files[p], now[p], values) && Reported(base.files[p], now[p])
    ensures CheckChanged(w, image, client, false, values) == None <==>
              p in client && LooksLike(w, base.files[p], client[p])
  {
    hide Lawful, Reported, ReadsAs, ExpectedValue, GetNewOld, Numeral, IntText, HashText, OrdinaryPath, FilesOf,
      CheckKind, CheckHash, CheckSize, CheckShipped, CheckPermissions, CheckNumber, ContentOf, KindChar, Size;
    if p in client {
      var a, b, c := base.files[p], now[p], client[p];
      KindCheck(p, values[4], a, c);
      KindsOf(a, b, values[4]);
      PermissionCheck(p, values[8], a, b, c);
      NumberCheck(p, values[9], a.uid, b.uid, c.uid);
      NumberCheck(p, values[10], a.gid, b.gid, c.gid);
      NumberCheck(p, values[14], a.lcount, b.lcount, c.lcount);
      SizeCheck(p, values[6], a, c);
      ShippedCheck(w, base, now, r, image, p, values[16]);
      HashLengths(w, a.content);
      if IsFile(a) && IsFile(c) {
        HashCheck(p, values[15], a, c, w.md5, MD5_LEN);
        HashCheck(p, values[16], a, c, w.sha1, SHA1_LEN);
      }
    }
  }

  lemma KindsOf(a: Node, b: Node, kind: string)
    requires KnownKind(a) && kind == [KindChar(b)] && KindChar(a) == KindChar(b)
    ensures kind == "f" <==> IsFile(a)
    ensures kind == [KindChar(a)]
  {
    assert kind[0] == KindChar(a);
  }

  /** The line of one changed file, checked by the client. */
  lemma ChangedLineExact(w: World, host: Host, tracked: iset<Path>, base: Snapshot, now: Disk, r: Report,
                         image: Image, client: Disk, p: Path)
    requires Lawful(w) && ReportFits(r, base, now) && p in r.changed && OrdinaryPath(p)
    requires FilesOf(w, base, now, r.changed, image.changed)
    requires p in client ==> KnownKind(client[p])
    requires KnownKind(base.files[p]) && KnownKind(now[p])
    ensures RowOf(w, p, base.files[p], now[p]).Ok? && |RowOf(w, p, base.files[p], now[p]).value| == COLUMN_COUNT
    ensures CheckLine(PrintRow(RowOf(w, p, base.files[p], now[p]).value), COLUMN_COUNT, host,
              ChangedCheck(w, image, client, false)) == None
       <==> (Reported(base.files[p], now[p]) ==>
               p in client && KindChar(base.files[p]) == KindChar(now[p]) && LooksLike(w, base.files[p], client[p]))
  {
    hide Lawful, Reported, RowMeans, OrdinaryPath, FilesOf, RowOf, PrintRow, ReadLine, CheckChanged, LooksLike,
      KindChar, KnownKind;
    var a, b := base.files[p], now[p];
    RowIsRead(w, p, a, b);
    RowSurvives(w, p, a, b, host);
    var row := RowOf(w, p, a, b).value;
    if Reported(a, b) {
      if p !in client {
        MissingIsRefused(w, image, client, false, p, a, b, row);
      } else if KindChar(a) == KindChar(b) {
        RowAccepted(w, base, now, r, image, client, p, row);
      } else {
        KindChangeInRow(w, image, client, false, p, a, b, row);
      }
    }
  }

  lemma MissingIsRefused(w: World, image: Image, disk: Disk, force: bool, p: Path, a: Node, b: Node,
                         values: seq<string>)
    requires RowMeans(w, p, a, b, values) && Reported(a, b) && p !in disk
    ensures CheckChanged(w, image, disk, force, values) == Some(ChangedMissing(p))
  {
    hide Reported, ReadsAs, ExpectedValue, GetNewOld, Numeral, IntText, HashText, CheckFile, CheckPermissions,
      CheckNumber, KindChar, CheckKind;
  }

  /******* whole reports *******/

  /** The first error of two stretches of lines. */
  lemma {:induction false} RejectionOfConcat(a: seq<string>, b: seq<string>, n: nat, host: Host,
                                             check: seq<string> -> Option<Rejection>)
    ensures FirstRejection(a + b, n, host, check)
              == Then(FirstRejection(a, n, host, check), FirstRejection(b, n, host, check))
  {
    hide CheckLine;
    if b == [] {
      assert a + b == a;
    } else {
      assert (a + b)[..|a + b| - 1] == a + b[..|b| - 1];
      RejectionOfConcat(a, b[..|b| - 1], n, host, check);
    }
  }

  /** A report passes exactly when its header and its rows do. */
  lemma PastHeader(w: World, t: Txt, lines: seq<string>, n: nat, host: Host, check: seq<string> -> Option<Rejection>)
    requires Lawful(w)
    ensures FirstRejection(HeaderOf(w, t) + lines, n, host, check) == None
       <==> HostFits(w.identity, host) && FirstRejection(lines, n, host, check) == None
  {
    hide Lawful, HeaderOf, HostFits, FirstRejection, CheckLine, IsSkipped;
    var header := HeaderOf(w, t);
    RejectionOfConcat(header, lines, n, host, check);
    HeaderOfExact(w, t, host);
    AllLinesPass(header, n, host, check);
    forall i | 0 <= i < |header| ensures CheckLine(header[i], n, host, check) == None <==> IsSkipped(header[i], host) {
      HeaderLineCheck(header[i], n, host, check);
    }
  }

  lemma HeaderLineCheck(raw: string, n: nat, host: Host, check: seq<string> -> Option<Rejection>)
    requires IsSkipped(raw, host) || ReadLine(raw, n, host) == ForeignSystem
    ensures CheckLine(raw, n, host, check) == None <==> IsSkipped(raw, host)
  {
    hide ReadLine;
    SkippedAnyway(raw, n, host);
  }

  lemma AddedLineExact(w: World, host: Host, image: Image, client: Disk, p: Path)
    requires Lawful(w) && OrdinaryPath(p) && p in image.added
    ensures CheckLine(PrintEntry(p, w.package(p)), 2, host, AddedCheck(image, client, false)) == None <==> p !in client
  {
    hide Lawful, OrdinaryPath, PrintEntry, ReadLine;
    ListedLineReads(w, p, host);
  }

  lemma AddedReportExact(w: World, host: Host, image: Image, client: Disk, listed: seq<Path>)
    requires Lawful(w) && forall l :: l in listed ==> OrdinaryPath(l) && l in image.added
    ensures FirstRejection(EntryLines(w, listed), 2, host, AddedCheck(image, client, false)) == None
       <==> forall l :: l in listed ==> l !in client
  {
    hide Lawful, OrdinaryPath, PrintEntry, CheckLine, FirstRejection, AddedCheck;
    var lines := EntryLines(w, listed);
    AllLinesPass(lines, 2, host, AddedCheck(image, client, false));
    forall i | 0 <= i < |lines|
      ensures CheckLine(lines[i], 2, host, AddedCheck(image, client, false)) == None <==> listed[i] !in client
    {
      assert listed[i] in listed;
      AddedLineExact(w, host, image, client, listed[i]);
    }
    if forall i :: 0 <= i < |lines| ==> CheckLine(lines[i], 2, host, AddedCheck(image, client, false)) == None {
      forall l | l in listed ensures l !in client {
        var i :| 0 <= i < |listed| && listed[i] == l;
        assert CheckLine(lines[i], 2, host, AddedCheck(image, client, false)) == None;
      }
    }
  }

  lemma RemovedReportPasses(w: World, host: Host, paths: seq<Path>)
    requires Lawful(w) && forall p :: p in paths ==> OrdinaryPath(p)
    ensures FirstRejection(EntryLines(w, paths), 2, host, RemovedCheck()) == None
  {
    hide Lawful, OrdinaryPath, PrintEntry, ReadLine, FirstRejection;
    var lines := EntryLines(w, paths);
    AllLinesPass(lines, 2, host, RemovedCheck());
    forall i | 0 <= i < |lines| ensures CheckLine(lines[i], 2, host, RemovedCheck()) == None {
      assert paths[i] in paths;
      ListedLineReads(w, paths[i], host);
    }
  }

  /** Every changed file with a reported property kept its kind and looks on the client as in the snapshot. */
  ghost predicate ChangedLookOld(w: World, base: Snapshot, now: Disk, paths: seq<Path>, client: Disk) {
    forall p :: p in paths && p in base.files && p in now && Reported(base.files[p], now[p]) ==>
      p in client && KindChar(base.files[p]) == KindChar(now[p]) && LooksLike(w, base.files[p], client[p])
  }

  lemma ChangedReportExact(w: World, host: Host, tracked: iset<Path>, base: Snapshot, now: Disk, r: Report,
                           image: Image, client: Disk, lines: seq<string>)
    requires Lawful(w) && ReportFits(r, base, now)
    requires forall p :: p in r.changed ==> OrdinaryPath(p) && KnownKind(base.files[p]) && KnownKind(now[p])
    requires forall p :: p in client ==> KnownKind(client[p])
    requires FilesOf(w, base, now, r.changed, image.changed) && LinesOf(w, base, now, r.changed, lines)
    ensures FirstRejection(lines, COLUMN_COUNT, host, ChangedCheck(w, image, client, false)) == None
       <==> ChangedLookOld(w, base, now, r.changed, client)
  {
    hide Lawful, OrdinaryPath, PrintRow, CheckLine, FirstRejection, ChangedCheck, FilesOf, RowOf, Reported, LooksLike,
      KindChar, KnownKind;
    var paths := r.changed;
    var check := ChangedCheck(w, image, client, false);
    AllLinesPass(lines, COLUMN_COUNT, host, check);
    forall i | 0 <= i < |lines|
      ensures CheckLine(lines[i], COLUMN_COUNT, host, check) == None
         <==> (Reported(base.files[paths[i]], now[paths[i]]) ==>
                 paths[i] in client && KindChar(base.files[paths[i]]) == KindChar(now[paths[i]])
                 && LooksLike(w, base.files[paths[i]], client[paths[i]]))
    {
      assert paths[i] in paths;
      ChangedLineExact(w, host, tracked, base, now, r, image, client, paths[i]);
    }
    if forall i :: 0 <= i < |lines| ==> CheckLine(lines[i], COLUMN_COUNT, host, check) == None {
      forall p | p in paths && Reported(base.files[p], now[p])
        ensures p in client && KindChar(base.files[p]) == KindChar(now[p]) && LooksLike(w, base.files[p], client[p])
      {
        var i :| 0 <= i < |paths| && paths[i] == p;
        assert CheckLine(lines[i], COLUMN_COUNT, host, check) == None;
      }
    } else {
      var i :| 0 <= i < |lines| && CheckLine(lines[i], COLUMN_COUNT, host, check) != None;
      assert paths[i] in paths;
    }
  }

  /******* the whole image *******/

  /** The client is what the server is, nothing of what is listed as added is on it, and every changed file looks as in
      the snapshot. */
  ghost predicate Acceptable(w: World, host: Host, base: Snapshot, now: Disk, r: Report, client: Disk) {
    && HostFits(w.identity, host)
    && (var st := Run(DiskSource(now), SortPaths(r.added)); st.Progress? && forall l :: l in st.listed ==> l !in client)
    && ChangedLookOld(w, base, now, r.changed, client)
  }

  lemma ListedAreMembers(w: World, tracked: iset<Path>, base: Snapshot, now: Disk, r: Report, image: Image)
    requires Origin(w, tracked, base, now, r) && ReportFits(r, base, now) && Generate(w, base, now, r) == Ok(image)
    ensures ImageOf(w, base, now, r, image) && Run(DiskSource(now), SortPaths(r.added)).Progress?
    ensures forall l :: l in Run(DiskSource(now), SortPaths(r.added)).listed ==>
                OrdinaryPath(l) && l in image.added && l in r.added
  {
    hide Origin, Generate, Run, SortPaths, DiskSource, FilesOf, LinesOf, OrdinaryPath, IsUnder;
    GeneratedIs(w, tracked, base, now, r);
    ArchiveIs(w, tracked, base, now, r);
    OriginFacts(w, tracked, base, now, r);
    forall l | l in Run(DiskSource(now), SortPaths(r.added)).listed
      ensures OrdinaryPath(l) && l in image.added && l in r.added
    {
      AddedIff(w, tracked, base, now, r, l);
      OrdinaryFacts(now, l);
      UnderReflexive(l);
      IntroUnderAdded(r, l, l);
    }
  }

  lemma OriginFacts(w: World, tracked: iset<Path>, base: Snapshot, now: Disk, r: Report)
    requires Origin(w, tracked, base, now, r)
    ensures Lawful(w) && OrdinaryDisk(now)
    ensures forall p :: p in r.changed ==>
              p in base.files && p in now && OrdinaryPath(p) && KnownKind(base.files[p]) && KnownKind(now[p])
    ensures forall p :: p in TopPaths(r.removed) ==> OrdinaryPath(p)
  {
    hide IsPath, IsUnder, Trimmed, Differs, IsFile, IsDir, Lawful, SortPaths, Pruned, OrdinaryPath;
    SettingFits(w, tracked, base, now, r);
    SortPathsSorts(r.removed);
    PrunedSubset(SortPaths(r.removed), SENTINEL);
    forall p | p in TopPaths(r.removed) ensures OrdinaryPath(p) {
      AddedIff(w, tracked, base, now, r, p);
    }
  }

  /** Non-forced validation of a generated image, on any client whatever: it accepts exactly when the client is what
      the server is, no listed path is on it and every file with a reported change kept its kind and looks as in the
      snapshot. */
  lemma ValidationExact(w: World, host: Host, tracked: iset<Path>, base: Snapshot, now: Disk, r: Report, image: Image,
                        client: Disk)
    requires Origin(w, tracked, base, now, r) && ReportFits(r, base, now) && Generate(w, base, now, r) == Ok(image)
    requires forall p :: p in client ==> KnownKind(client[p])
    ensures Validate(w, host, image, client, false) == None <==> Acceptable(w, host, base, now, r, client)
  {
    hide Origin, Generate, Run, SortPaths, DiskSource, FilesOf, LinesOf, OrdinaryPath, IsUnder, MembersOf, TopPaths,
      KnownKind, FirstRejection, AddedCheck, ChangedCheck, ChangedLookOld, Lawful, OrdinaryDisk, EntryLines, HeaderOf,
      HostFits;
    ListedAreMembers(w, tracked, base, now, r, image);
    OriginFacts(w, tracked, base, now, r);
    var listed := Run(DiskSource(now), SortPaths(r.added)).listed;
    AddedReportExact(w, host, image, client, listed);
    PastHeader(w, AddedTxt, EntryLines(w, listed), 2, host, AddedCheck(image, client, false));
    var rows :| image.changedTxt == HeaderOf(w, ChangedTxt) + rows && LinesOf(w, base, now, r.changed, rows);
    ChangedReportExact(w, host, tracked, base, now, r, image, client, rows);
    PastHeader(w, ChangedTxt, rows, COLUMN_COUNT, host, ChangedCheck(w, image, client, false));
    RemovedReportPasses(w, host, TopPaths(r.removed));
    PastHeader(w, RemovedTxt, EntryLines(w, TopPaths(r.removed)), 2, host, RemovedCheck());
  }

  /** Every file with a reported change has the link count of the snapshot on the client. */
  ghost predicate LinkCountsFit(base: Snapshot, now: Disk, r: Report, client: Disk) {
    forall p :: p in r.changed && p in base.files && p in now && p in client && Reported(base.files[p], now[p]) ==>
      base.files[p].lcount == client[p].lcount
  }

  /** A client with the tracked state of the old snapshot is turned away exactly when it is not what the server is, a
      tracked file changed its kind, or a file with a reported change has another link count here. */
  lemma TrackedHolderExact(w: World, host: Host, tracked: iset<Path>, base: Snapshot, now: Disk, r: Report,
                           image: Image, client: Disk)
    requires Origin(w, tracked, base, now, r) && ReportFits(r, base, now) && Generate(w, base, now, r) == Ok(image)
    requires SameTracked(tracked, base.files, client) && ValidDisk(client)
    ensures Validate(w, host, image, client, false) == None <==>
              HostFits(w.identity, host) && NoKindChange(base, now, r) && LinkCountsFit(base, now, r, client)
  {
    hide Origin, Generate, Run, SortPaths, DiskSource, FilesOf, LinesOf, IsUnder, IsPath, MembersOf, TopPaths,
      OrdinaryPath, Validate, Lawful, OrdinaryDisk, EntryLines, ImageOf, HostFits, Reported;
    ListedAreMembers(w, tracked, base, now, r, image);
    OriginFacts(w, tracked, base, now, r);
    forall l | l in r.added ensures l !in client {
      AddedIff(w, tracked, base, now, r, l);
    }
    forall p | p in r.changed
      ensures p in client && (LooksLike(w, base.files[p], client[p]) <==> base.files[p].lcount == client[p].lcount)
    {
      assert p in tracked by { SnapshotTracked(w, tracked, base, now, r, p); }
    }
    forall p | p in r.changed && KindChar(base.files[p]) != KindChar(now[p]) ensures Reported(base.files[p], now[p]) {
      KindIsReported(base.files[p], now[p]);
    }
    ValidationExact(w, host, tracked, base, now, r, image, client);
  }

  /** The client holds the old snapshot, link counts included. */
  ghost predicate HoldsSnapshot(tracked: iset<Path>, base: Snapshot, client: Disk) {
    && SameTracked(tracked, base.files, client)
    && forall p :: p in base.files && p in client ==>
         base.files[p].lcount == client[p].lcount
  }

  /** A client that holds the old snapshot is never turned away, unless it is not what the server is or a tracked file
      changed its kind. */
  lemma HolderIsAccepted(w: World, host: Host, tracked: iset<Path>, base: Snapshot, now: Disk, r: Report,
                         image: Image, client: Disk)
    requires Origin(w, tracked, base, now, r) && ReportFits(r, base, now) && Generate(w, base, now, r) == Ok(image)
    requires HoldsSnapshot(tracked, base, client) && ValidDisk(client)
    ensures Validate(w, host, image, client, false) == None <==>
              HostFits(w.identity, host) && NoKindChange(base, now, r)
  {
    hide Origin, Generate, Validate, NoKindChange, HostFits, ValidDisk, ReportFits, SameTracked, Reported;
    TrackedHolderExact(w, host, tracked, base, now, r, image, client);
  }

  /** Another platform is turned away by every image, whatever is on its disk and with whatever force. */
  lemma OtherPlatformIsRefused(w: World, host: Host, base: Snapshot, now: Disk, r: Report, image: Image, client: Disk,
                               force: bool)
    requires Lawful(w) && ReportFits(r, base, now) && Generate(w, base, now, r) == Ok(image)
    requires !HostFits(w.identity, host)
    ensures Validate(w, host, image, client, force).Some?
  {
    hide Lawful, Run, SortPaths, DiskSource, EntryLines, HeaderOf, HostFits, FirstRejection, AddedCheck, TopPaths,
      AddAllChanged;
    var listed := Run(DiskSource(now), SortPaths(r.added)).listed;
    PastHeader(w, AddedTxt, EntryLines(w, listed), 2, host, AddedCheck(image, client, force));
  }

  /** On the server's own platform a holder is turned away for the platform exactly when the platform has no name. */
  lemma OwnPlatformExact(w: World, tracked: iset<Path>, base: Snapshot, now: Disk, r: Report, image: Image,
                         client: Disk)
    requires Origin(w, tracked, base, now, r) && ReportFits(r, base, now) && Generate(w, base, now, r) == Ok(image)
    requires HoldsSnapshot(tracked, base, client) && ValidDisk(client)
    ensures Validate(w, w.identity, image, client, false) == None <==>
              w.identity.system != "" && w.identity.distro != "" && w.identity.machine != ""
                && NoKindChange(base, now, r)
  {
    hide Origin, Generate, Validate, NoKindChange, HostFits, HoldsSnapshot, ValidDisk, ReportFits;
    HolderIsAccepted(w, w.identity, tracked, base, now, r, image, client);
    OwnHostExact(w.identity);
  }

  lemma SnapshotTracked(w: World, tracked: iset<Path>, base: Snapshot, now: Disk, r: Report, p: Path)
    requires Origin(w, tracked, base, now, r) && p in base.files
    ensures p in tracked
  {
    hide Lawful, OrdinaryDisk, OrdinaryPath, KnownKind, ReportOf;
  }

  /** A tracked file that changed its kind makes every client refuse the image, even when forced. */
  lemma KindChangeIsRefused(w: World, host: Host, tracked: iset<Path>, base: Snapshot, now: Disk, r: Report,
                            image: Image, client: Disk, force: bool, p: Path)
    requires Origin(w, tracked, base, now, r) && ReportFits(r, base, now) && Generate(w, base, now, r) == Ok(image)
    requires p in r.changed && KindChar(base.files[p]) != KindChar(now[p])
    ensures Validate(w, host, image, client, force).Some?
  {
    hide Origin, Generate, Run, SortPaths, DiskSource, FilesOf, LinesOf, OrdinaryPath, IsUnder, MembersOf, TopPaths,
      KnownKind, FirstRejection, AddedCheck, ChangedCheck, Lawful, OrdinaryDisk, EntryLines, HeaderOf, KindChar;
    ListedAreMembers(w, tracked, base, now, r, image);
    OriginFacts(w, tracked, base, now, r);
    var rows :| image.changedTxt == HeaderOf(w, ChangedTxt) + rows && LinesOf(w, base, now, r.changed, rows);
    KindChangedInReport(w, host, base, now, r, image, client, force, p, rows);
  }

  lemma KindChangedInReport(w: World, host: Host, base: Snapshot, now: Disk, r: Report, image: Image, client: Disk,
                            force: bool, p: Path, rows: seq<string>)
    requires Lawful(w) && LinesOf(w, base, now, r.changed, rows) && p in r.changed && p in base.files && p in now
             && OrdinaryPath(p)
    requires KnownKind(base.files[p]) && KnownKind(now[p]) && KindChar(base.files[p]) != KindChar(now[p])
    ensures FirstRejection(HeaderOf(w, ChangedTxt) + rows, COLUMN_COUNT, host,
              ChangedCheck(w, image, client, force)).Some?
  {
    hide Lawful, OrdinaryPath, FirstRejection, HeaderOf, RowOf, PrintRow, ReadLine, RowMeans, Reported, CheckChanged,
      KnownKind, KindChar;
    var a, b := base.files[p], now[p];
    var i :| 0 <= i < |r.changed| && r.changed[i] == p;
    var header, check := HeaderOf(w, ChangedTxt), ChangedCheck(w, image, client, force);
    var lines := header + rows;
    assert lines[|header| + i] == rows[i];
    AllLinesPass(lines, COLUMN_COUNT, host, check);
    RowIsRead(w, p, a, b);
    RowSurvives(w, p, a, b, host);
    KindIsReported(a, b);
    var row := RowOf(w, p, a, b).value;
    if p in client {
      KindChangeInRow(w, image, client, force, p, a, b, row);
    } else {
      MissingIsRefused(w, image, client, force, p, a, b, row);
    }
    assert CheckLine(lines[|header| + i], COLUMN_COUNT, host, check).Some?;
  }

  lemma KindIsReported(a: Node, b: Node)
    requires KnownKind(a) && KnownKind(b) && KindChar(a) != KindChar(b)
    ensures Reported(a, b)
  {
  }

  /******* forced validation *******/

  /** The errors that `--force-apply` turns into warnings. */
  predicate IsWarningWhenForced(why: Rejection) {
    why.ReportMissing? || why.AddedExists? || why.KindDiffers? || why.HashDiffers? || why.SizeDiffers?
      || why.PermissionsDiffer? || why.NumberDiffers?
  }

  /** The first check made without force, or one that comes after warnings only. */
  ghost predicate Downgrades(plain: Option<Rejection>, forced: Option<Rejection>) {
    && (plain == None ==> forced == None)
    && (forced.Some? ==> !IsWarningWhenForced(forced.value))
    && (plain.Some? && !IsWarningWhenForced(plain.value) && !plain.value.NumberMalformed? ==> forced == plain)
  }

  lemma ThenDowngrades(a: Option<Rejection>, b: Option<Rejection>, fa: Option<Rejection>, fb: Option<Rejection>)
    requires Downgrades(a, fa) && Downgrades(b, fb)
    ensures Downgrades(Then(a, b), Then(fa, fb))
  {
  }

  lemma AddedDowngrades(image: Image, disk: Disk, values: seq<string>)
    ensures Downgrades(CheckAdded(image, disk, false, values), CheckAdded(image, disk, true, values))
  {
  }

  lemma FileDowngrades(w: World, image: Image, node: Node, values: seq<string>)
    requires |values| == COLUMN_COUNT
    ensures Downgrades(CheckFile(w, image, node, false, values), CheckFile(w, image, node, true, values))
  {
    hide ExpectedValue, GetNewOld, ParseInt, Size, Downgrades;
    PartsDowngrade(w, image, node, values);
    var path := values[0];
    var plain, forced := CheckShipped(path, values[16], image), CheckShipped(path, values[16], image);
    var a, fa := CheckSize(path, values[6], node, false), CheckSize(path, values[6], node, true);
    ThenDowngrades(a, plain, fa, forced);
    plain, forced := Then(a, plain), Then(fa, forced);
    a, fa := CheckHash(path, values[16], SHA1_LEN, node, w.sha1, false),
        CheckHash(path, values[16], SHA1_LEN, node, w.sha1, true);
    ThenDowngrades(a, plain, fa, forced);
    plain, forced := Then(a, plain), Then(fa, forced);
    a, fa := CheckHash(path, values[15], MD5_LEN, node, w.md5, false),
        CheckHash(path, values[15], MD5_LEN, node, w.md5, true);
    ThenDowngrades(a, plain, fa, forced);
  }

  lemma PartsDowngrade(w: World, image: Image, node: Node, values: seq<string>)
    requires |values| == COLUMN_COUNT
    ensures var path := values[0];
            && Downgrades(CheckHash(path, values[15], MD5_LEN, node, w.md5, false),
                CheckHash(path, values[15], MD5_LEN, node, w.md5, true))
            && Downgrades(CheckHash(path, values[16], SHA1_LEN, node, w.sha1, false),
                CheckHash(path, values[16], SHA1_LEN, node, w.sha1, true))
            && Downgrades(CheckSize(path, values[6], node, false), CheckSize(path, values[6], node, true))
            && Downgrades(CheckShipped(path, values[16], image), CheckShipped(path, values[16], image))
  {
    hide ExpectedValue, GetNewOld, ParseInt, Size;
  }

  lemma NumberDowngrades(path: Path, property: string, local: nat)
    ensures Downgrades(CheckNumber(path, property, local, false), CheckNumber(path, property, local, true))
    ensures Downgrades(None, None)
  {
    hide ExpectedValue, ParseInt;
  }

  lemma PermissionsDowngrade(path: Path, property: string, kind: string, node: Node)
    ensures Downgrades(CheckPermissions(path, property, node, false), CheckPermissions(path, property, node, true))
    ensures Downgrades(CheckKind(path, kind, node, false), CheckKind(path, kind, node, true))
  {
    hide ExpectedValue, Numeral;
  }

  lemma ChangedDowngrades(w: World, image: Image, disk: Disk, values: seq<string>)
    ensures Downgrades(CheckChanged(w, image, disk, false, values), CheckChanged(w, image, disk, true, values))
  {
    hide CheckKind, CheckFile, CheckPermissions, CheckNumber, Downgrades;
    if |values| == COLUMN_COUNT && values[0] in disk {
      var path := values[0];
      var node := disk[path];
      NumberDowngrades(path, values[14], node.lcount);
      var plain, forced := CheckNumber(path, values[14], node.lcount, false),
          CheckNumber(path, values[14], node.lcount, true);
      NumberDowngrades(path, values[10], node.gid);
      var a, fa := CheckNumber(path, values[10], node.gid, false), CheckNumber(path, values[10], node.gid, true);
      ThenDowngrades(a, plain, fa, forced);
      plain, forced := Then(a, plain), Then(fa, forced);
      NumberDowngrades(path, values[9], node.uid);
      a, fa := CheckNumber(path, values[9], node.uid, false), CheckNumber(path, values[9], node.uid, true);
      ThenDowngrades(a, plain, fa, forced);
      plain, forced := Then(a, plain), Then(fa, forced);
      PermissionsDowngrade(path, values[8], values[4], node);
      a, fa := CheckPermissions(path, values[8], node, false), CheckPermissions(path, values[8], node, true);
      ThenDowngrades(a, plain, fa, forced);
      plain, forced := Then(a, plain), Then(fa, forced);
      FileDowngrades(w, image, node, values);
      a, fa := if values[4] == "f" then CheckFile(w, image, node, false, values) else None,
               if values[4] == "f" then CheckFile(w, image, node, true, values) else None;
      ThenDowngrades(a, plain, fa, forced);
      plain, forced := Then(a, plain), Then(fa, forced);
      ThenDowngrades(CheckKind(path, values[4], node, false), plain, CheckKind(path, values[4], node, true), forced);
    } else {
      NotForcible(values);
    }
  }

  lemma NotForcible(values: seq<string>)
    ensures Downgrades(Some(LineCorrupted), Some(LineCorrupted)) && Downgrades(Some(SystemDiffers), Some(SystemDiffers))
    ensures Downgrades(None, None)
    ensures |values| > 0 ==> Downgrades(Some(ChangedMissing(values[0])), Some(ChangedMissing(values[0])))
  {
  }

  lemma {:induction false} ReportDowngrades(lines: seq<string>, n: nat, host: Host,
                                            check: seq<string> -> Option<Rejection>,
                                            forced: seq<string> -> Option<Rejection>)
    requires forall values :: Downgrades(check(values), forced(values))
    ensures Downgrades(FirstRejection(lines, n, host, check), FirstRejection(lines, n, host, forced))
  {
    hide Downgrades, ReadLine;
    NotForcible([]);
    if lines != [] {
      var init, last := lines[..|lines| - 1], lines[|lines| - 1];
      ReportDowngrades(init, n, host, check, forced);
      ThenDowngrades(FirstRejection(init, n, host, check), CheckLine(last, n, host, check),
                     FirstRejection(init, n, host, forced), CheckLine(last, n, host, forced));
    }
  }

  lemma PresentDowngrades(t: Txt, txt: Option<seq<string>>, plain: Option<Rejection>, forced: Option<Rejection>)
    requires Downgrades(plain, forced)
    ensures Downgrades(CheckPresent(t, txt, false, plain), CheckPresent(t, txt, true, forced))
  {
  }

  /** Forced validation accepts all that plain validation accepts, never stops for one of the errors that become
      warnings, and stops for any other error that plain validation stops for, but for malformed numbers. */
  lemma ForceOnlyDowngrades(w: World, host: Host, file: ImageFile, disk: Disk)
    ensures Downgrades(ValidateFile(w, host, file, disk, false), ValidateFile(w, host, file, disk, true))
  {
    hide Downgrades, FirstRejection, CheckPresent;
    match file {
      case Torn => BrokenDowngrades();
      case Readable(a) => ArchiveDowngrades(w, host, a, disk);
    }
  }

  lemma BrokenDowngrades()
    ensures Downgrades(Some(ArchiveUnreadable), Some(ArchiveUnreadable))
  {
  }

  lemma ArchiveDowngrades(w: World, host: Host, archive: Archive, disk: Disk)
    ensures Downgrades(ValidateArchive(w, host, archive, disk, false), ValidateArchive(w, host, archive, disk, true))
  {
    hide Downgrades, FirstRejection, CheckPresent;
    var image := Filled(archive);
    ReportsDowngrade(w, host, image, disk);
    var a, fa := FirstRejection(image.addedTxt, 2, host, AddedCheck(image, disk, false)),
                 FirstRejection(image.addedTxt, 2, host, AddedCheck(image, disk, true));
    var c, fc := FirstRejection(image.changedTxt, COLUMN_COUNT, host, ChangedCheck(w, image, disk, false)),
                 FirstRejection(image.changedTxt, COLUMN_COUNT, host, ChangedCheck(w, image, disk, true));
    var removed := FirstRejection(image.removedTxt, 2, host, RemovedCheck());
    PresentDowngrades(AddedTxt, archive.addedTxt, a, fa);
    PresentDowngrades(ChangedTxt, archive.changedTxt, c, fc);
    PresentDowngrades(RemovedTxt, archive.removedTxt, removed, removed);
    a, fa := CheckPresent(AddedTxt, archive.addedTxt, false, a), CheckPresent(AddedTxt, archive.addedTxt, true, fa);
    c, fc := CheckPresent(ChangedTxt, archive.changedTxt, false, c),
        CheckPresent(ChangedTxt, archive.changedTxt, true, fc);
    var last, flast := CheckPresent(RemovedTxt, archive.removedTxt, false, removed),
                       CheckPresent(RemovedTxt, archive.removedTxt, true, removed);
    ThenDowngrades(c, last, fc, flast);
    ThenDowngrades(a, Then(c, last), fa, Then(fc, flast));
  }

  lemma ReportsDowngrade(w: World, host: Host, image: Image, disk: Disk)
    ensures Downgrades(FirstRejection(image.addedTxt, 2, host, AddedCheck(image, disk, false)),
                       FirstRejection(image.addedTxt, 2, host, AddedCheck(image, disk, true)))
    ensures Downgrades(FirstRejection(image.changedTxt, COLUMN_COUNT, host, ChangedCheck(w, image, disk, false)),
                       FirstRejection(image.changedTxt, COLUMN_COUNT, host, ChangedCheck(w, image, disk, true)))
    ensures Downgrades(FirstRejection(image.removedTxt, 2, host, RemovedCheck()),
                       FirstRejection(image.removedTxt, 2, host, RemovedCheck()))
  {
    hide Downgrades, FirstRejection;
    forall values ensures Downgrades(AddedCheck(image, disk, false)(values), AddedCheck(image, disk, true)(values)) {
      AddedDowngrades(image, disk, values);
    }
    forall values
      ensures Downgrades(ChangedCheck(w, image, disk, false)(values), ChangedCheck(w, image, disk, true)(values))
    {
      ChangedDowngrades(w, image, disk, values);
    }
    forall values: seq<string> ensures Downgrades(RemovedCheck()(values), RemovedCheck()(values)) {
      NotForcible([]);
    }
    ReportDowngrades(image.addedTxt, 2, host, AddedCheck(image, disk, false), AddedCheck(image, disk, true));
    ReportDowngrades(image.changedTxt, COLUMN_COUNT, host, ChangedCheck(w, image, disk, false),
                     ChangedCheck(w, image, disk, true));
    ReportDowngrades(image.removedTxt, 2, host, RemovedCheck(), RemovedCheck());
  }
}
