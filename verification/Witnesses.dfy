/** For each way an image can fall short, a server and a client on which it does. */
module Witnesses {
  import opened Text
  import opened Paths
  import opened Pruning
  import opened AddedEntries
  import opened FileTree
  import opened ChangedReport
  import opened ReportLines
  import opened ReportHeader
  import opened SysImgGenerator
  import opened SysImgValidator
  import opened SysImgExtractor
  import opened DeltaRows
  import opened DeltaAdded
  import opened DeltaChanged
  import opened DeltaTheorem
  import opened ValidationTheorem

  /******* a world in which all laws hold *******/

  function Same(n: nat): string -> string {
    s => Repeat('0', n)
  }

  const DEBIAN := Host("Linux", "debian", "x86_64")

  /** A patch is the new text; a text has no null in it. */
  function Tools(): World {
    World(Same(MD5_LEN), Same(SHA1_LEN), (a, b) => b, (patch, a) => patch, c => NUL !in c, p => "?", DEBIAN,
        t => Notes([], []))
  }

  lemma ToolsAreLawful()
    ensures Lawful(Tools()) && HostFits(Tools().identity, DEBIAN)
  {
    assert forall n: nat :: n > 0 ==> Plain(Repeat('0', n));
  }

  predicate Tracked(p: Path) {
    true
  }

  /** Every path is tracked. */
  ghost function All(): iset<Path> {
    iset p | Tracked(p)
  }

  /******* disks with a root and at most one entry *******/

  const ROOT: Node := Node(0x41ed, 0, 0, "", 4, 2, 0, 0, 0, 0, 0)

  function FileWith(content: string, uid: nat): Node {
    Node(0x81a4, uid, 0, content, 0, 1, 0, 0, 0, 0, 0)
  }

  function RootOnly(): Disk {
    map["/" := ROOT]
  }

  function RootAnd(n: Node): Disk {
    map["/" := ROOT, "/a" := n]
  }

  lemma SmallPaths()
    ensures OrdinaryPath("/") && OrdinaryPath("/a")
    ensures forall a: Path :: IsPath(a) && IsUnder(a, "/a") <==> a == "/" || a == "/a"
    ensures forall a: Path :: IsPath(a) && IsUnder(a, "/") <==> a == "/"
  {
    assert IsName("a") && IsPathOf("/a", ["a"]);
    forall a: Path | IsPath(a) && IsUnder(a, "/a") ensures a == "/" || a == "/a" {
      PathStartsWithSlash(a);
    }
    forall a: Path | IsPath(a) && IsUnder(a, "/") ensures a == "/" {
      PathStartsWithSlash(a);
    }
    assert |SENTINEL| > 2 && |PATCH_EXT| > 2 && |TEMPLATE_EXT| > 2;
  }

  lemma SmallDisks(n: Node)
    requires KnownKind(n)
    ensures OrdinaryDisk(RootOnly()) && OrdinaryDisk(RootAnd(n))
  {
    hide OrdinaryPath, IsUnder, IsPath;
    SmallPaths();
    AreBothPaths();
  }

  lemma AreBothPaths()
    ensures IsPath("/") && IsPath("/a")
  {
    assert IsName("a") && IsPathOf("/a", ["a"]);
  }

  /** The client holds the snapshot as it is. */
  lemma SameDiskHolds(d: Disk)
    ensures SameTracked(All(), d, d)
  {
  }

  lemma AllOf(d: Disk)
    ensures TrackedPart(All(), d) == d
  {
  }

  /** An entry was edited on the server. */
  lemma EditedSetting(a: Node, b: Node, copied: set<Path>)
    requires KnownKind(a) && KnownKind(b) && Differs(a, b)
    ensures Setting(Tools(), All(), Snapshot(RootAnd(a), copied), RootAnd(b), Report([], [], ["/a"]), RootAnd(a))
    ensures ReportFits(Report([], [], ["/a"]), Snapshot(RootAnd(a), copied), RootAnd(b))
  {
    hide OrdinaryPath, OrdinaryDisk, ValidDisk, Lawful, Differs, KnownKind;
    ToolsAreLawful();
    SmallDisks(a);
    SmallDisks(b);
    SmallPaths();
    SameDiskHolds(RootAnd(a));
    AllOf(RootAnd(b));
    OrdinaryIsValid(RootAnd(a));
    RootIsSame();
    EditedReport(a, b);
  }

  lemma EditedReport(a: Node, b: Node)
    requires Differs(a, b)
    ensures ReportOf(Report([], [], ["/a"]), RootAnd(a), RootAnd(b))
  {
    hide Differs;
    RootIsSame();
  }

  lemma OrdinaryIsValid(d: Disk)
    requires OrdinaryDisk(d)
    ensures ValidDisk(d)
  {
  }

  lemma RootIsSame()
    ensures !Differs(ROOT, ROOT) && KnownKind(ROOT)
  {
  }

  /** With nothing added there is nothing to move. */
  lemma NothingAdded(w: World, base: Snapshot, now: Disk, r: Report, image: Image, client: Disk)
    requires ReportFits(r, base, now) && Generate(w, base, now, r) == Ok(image) && r.added == []
             && ImageOf(w, base, now, r, image)
    ensures image.added == map[] && ClearWay(r, client)
    ensures forall run :: ExtractedTree(run, image.added) == map[] && WalkOf([], ExtractedTree(run, image.added))
  {
    hide Generate, FilesOf, LinesOf, HeaderOf, Run, IsUnder, EntryLines;
  }

  /******* the witnesses *******/

  /** A file edited from "x" to "y": the image is made and applied, and the client does not have the server's state. */
  lemma SameSizeEditIsLost() returns (base: Snapshot, now: Disk, r: Report, client: Disk, image: Image)
    ensures Setting(Tools(), All(), base, now, r, client) && NoKindChange(base, now, r) && ReportFits(r, base, now)
    ensures Generate(Tools(), base, now, r) == Ok(image)
    ensures forall run :: WalkOf([], ExtractedTree(run, image.added))
    ensures forall run :: var o := ApplyParts(Tools(), DEBIAN, run, false, image, [], client);
                          o.Done? && !SameTracked(All(), now, o.state)
  {
    hide Setting, Generate, ApplyParts, ImageOf, SameTracked, Lawful, ReportFits, HostFits;
    var a, b := FileWith("x", 0), FileWith("y", 0);
    base, now, r, client := Snapshot(RootAnd(a), {}), RootAnd(b), Report([], [], ["/a"]), RootAnd(a);
    ToolsAreLawful();
    EditedSetting(a, b, {});
    SettingFacts(Tools(), All(), base, now, r, client);
    GeneratedIs(Tools(), All(), base, now, r);
    image := Generate(Tools(), base, now, r).value;
    NothingAdded(Tools(), base, now, r, image, client);
    assert !ContentShowsInSize(base, now, r) by {
      assert "/a" in r.changed && a.content[0] != b.content[0];
    }
    forall run
      ensures var o := ApplyParts(Tools(), DEBIAN, run, false, image, [], client);
              o.Done? && !SameTracked(All(), now, o.state)
    {
      ApplyExact(Tools(), DEBIAN, run, All(), base, now, r, client, image, []);
    }
  }

  /** A removed directory: the image is made, and applying it stops. */
  lemma RemovedDirectoryStops() returns (base: Snapshot, now: Disk, r: Report, client: Disk, image: Image)
    ensures Setting(Tools(), All(), base, now, r, client) && NoKindChange(base, now, r) && ReportFits(r, base, now)
    ensures Generate(Tools(), base, now, r) == Ok(image)
    ensures forall run :: WalkOf([], ExtractedTree(run, image.added))
    ensures forall run :: ApplyParts(Tools(), DEBIAN, run, false, image, [], client).Stopped?
  {
    hide Setting, Generate, ApplyParts, ImageOf, SameTracked, Lawful, HostFits;
    base, now, r, client := Snapshot(RootAnd(ROOT), {}), RootOnly(), Report([], ["/a"], []), RootAnd(ROOT);
    RemovedSetting();
    SettingFacts(Tools(), All(), base, now, r, client);
    GeneratedIs(Tools(), All(), base, now, r);
    image := Generate(Tools(), base, now, r).value;
    NothingAdded(Tools(), base, now, r, image, client);
    assert "/a" in r.removed && !IsFile(base.files["/a"]);
    forall run ensures ApplyParts(Tools(), DEBIAN, run, false, image, [], client).Stopped? {
      ApplyExact(Tools(), DEBIAN, run, All(), base, now, r, client, image, []);
    }
  }

  lemma RemovedSetting()
    ensures Setting(Tools(), All(), Snapshot(RootAnd(ROOT), {}), RootOnly(), Report([], ["/a"], []), RootAnd(ROOT))
  {
    hide OrdinaryPath, OrdinaryDisk, ValidDisk, Lawful, Differs, KnownKind;
    ToolsAreLawful();
    RootIsSame();
    SmallDisks(ROOT);
    SmallPaths();
    SameDiskHolds(RootAnd(ROOT));
    AllOf(RootOnly());
    OrdinaryIsValid(RootAnd(ROOT));
  }

  /** A file that became a directory: the image is made, and every client refuses it, forced or not. */
  lemma ChangedKindIsRefused() returns (base: Snapshot, now: Disk, r: Report, client: Disk, image: Image)
    ensures Setting(Tools(), All(), base, now, r, client) && ReportFits(r, base, now)
            && Generate(Tools(), base, now, r) == Ok(image)
    ensures forall force, host, other :: Validate(Tools(), host, image, other, force).Some?
  {
    hide Setting, Generate, ImageOf, SameTracked, Lawful, ReportFits, Validate;
    var a := FileWith("x", 0);
    base, now, r, client := Snapshot(RootAnd(a), {}), RootAnd(ROOT), Report([], [], ["/a"]), RootAnd(a);
    RootIsSame();
    EditedSetting(a, ROOT, {});
    SettingFacts(Tools(), All(), base, now, r, client);
    GeneratedIs(Tools(), All(), base, now, r);
    image := Generate(Tools(), base, now, r).value;
    forall force, host, other ensures Validate(Tools(), host, image, other, force).Some? {
      KindChangeIsRefused(Tools(), host, All(), base, now, r, image, other, force, "/a");
    }
  }

  /** A file kept as text that became a directory, or is no text any more: no image is made, but an archive with two of
      the three reports stays under the image's name. Every client refuses it, forced or not. */
  lemma LostTextStopsGeneration(b: Node) returns (base: Snapshot, now: Disk, r: Report, client: Disk)
    requires b == ROOT || b == FileWith([NUL], 0)
    ensures Setting(Tools(), All(), base, now, r, client) && ReportFits(r, base, now)
    ensures Generate(Tools(), base, now, r).Err?
    ensures var left := LeftBy(Tools(), base, now, r);
            && left.addedTxt.Some? && left.removedTxt.Some? && left.changedTxt == None
            && forall host, other, force :: ValidateFile(Tools(), host, FileOf(left), other, force).Some?
  {
    hide Setting, Generate, ImageOf, SameTracked, Lawful, ReportFits, LeftBy, ValidateFile;
    var a := FileWith("x", 0);
    base, now, r, client := Snapshot(RootAnd(a), {"/a"}), RootAnd(b), Report([], [], ["/a"]), RootAnd(a);
    RootIsSame();
    assert a.content[0] == 'x' && (b != ROOT ==> b.content[0] == NUL);
    EditedSetting(a, b, {"/a"});
    SettingFacts(Tools(), All(), base, now, r, client);
    GeneratedIs(Tools(), All(), base, now, r);
    assert "/a" in r.changed && ShipsPatch(base, now, "/a") && !Patchable(Tools(), base, now, "/a");
    LeftByExact(Tools(), base, now, r);
    TwoReportsLeft(Tools(), base, now, r);
    forall host, other, force
      ensures ValidateFile(Tools(), host, FileOf(LeftBy(Tools(), base, now, r)), other, force).Some?
    {
      LeftIsAcceptedExact(Tools(), base, now, r, host, other, force);
    }
  }

  lemma TwoReportsLeft(w: World, base: Snapshot, now: Disk, r: Report)
    requires ReportFits(r, base, now) && r.added == []
    ensures LeftBy(w, base, now, r).addedTxt.Some? && LeftBy(w, base, now, r).removedTxt.Some?
  {
    hide AddAllChanged, EntryLines, HeaderOf, TopPaths, ChangedFiles;
  }

  /** A file added by user 5, moved in from another file system by root: applied, and the owner is lost. */
  lemma OwnerIsLost()
    returns (base: Snapshot, now: Disk, r: Report, client: Disk, image: Image, run: Runner, walk: seq<Path>)
    ensures !run.sameFs("/a") && forall n :: run.uidOf(n) == n && run.gidOf(n) == n
    ensures Setting(Tools(), All(), base, now, r, client) && NoKindChange(base, now, r) && ReportFits(r, base, now)
    ensures Generate(Tools(), base, now, r) == Ok(image) && WalkOf(walk, ExtractedTree(run, image.added))
    ensures var o := ApplyParts(Tools(), DEBIAN, run, false, image, walk, client);
            o.Done? && !SameTracked(All(), now, o.state)
  {
    hide *;
    run := Runner(p => false, 0, 0, n => n, n => n);
    base, now, r, client, image, walk := AddedWithOtherOwner(run, 5);
  }

  /** A file added by a user who is number 110 on the server and 113 here, on the same file system: applied, and it
      belongs to 113. */
  lemma OwnerIsMapped()
    returns (base: Snapshot, now: Disk, r: Report, client: Disk, image: Image, run: Runner, walk: seq<Path>)
    ensures run.sameFs("/a") && run.uidOf(110) == 113
    ensures Setting(Tools(), All(), base, now, r, client) && NoKindChange(base, now, r) && ReportFits(r, base, now)
    ensures Generate(Tools(), base, now, r) == Ok(image) && WalkOf(walk, ExtractedTree(run, image.added))
    ensures var o := ApplyParts(Tools(), DEBIAN, run, false, image, walk, client);
            o.Done? && !SameTracked(All(), now, o.state)
  {
    hide *;
    run := Runner(p => true, 0, 0, n => if n == 110 then 113 else n, n => n);
    base, now, r, client, image, walk := AddedWithOtherOwner(run, 110);
  }

  /** One added file, whose owner arrives as another one. */
  lemma AddedWithOtherOwner(run: Runner, uid: nat)
    returns (base: Snapshot, now: Disk, r: Report, client: Disk, image: Image, walk: seq<Path>)
    requires (if run.sameFs("/a") then run.uidOf(uid) else run.uid) != uid
    ensures Setting(Tools(), All(), base, now, r, client) && NoKindChange(base, now, r) && ReportFits(r, base, now)
    ensures Generate(Tools(), base, now, r) == Ok(image) && WalkOf(walk, ExtractedTree(run, image.added))
    ensures var o := ApplyParts(Tools(), DEBIAN, run, false, image, walk, client);
            o.Done? && !SameTracked(All(), now, o.state)
  {
    hide Setting, Generate, ApplyParts, ImageOf, SameTracked, Lawful, HostFits, ExtractedTree;
    var b := FileWith("x", uid);
    base, now, r, client := Snapshot(RootOnly(), {}), RootAnd(b), Report(["/a"], [], []), RootOnly();
    walk := ["/", "/a"];
    ToolsAreLawful();
    AddedSetting(b);
    SettingFacts(Tools(), All(), base, now, r, client);
    GeneratedIs(Tools(), All(), base, now, r);
    image := Generate(Tools(), base, now, r).value;
    MembersOfImage(Tools(), base, now, r, image);
    OneAdded(run, image.added, b);
    assert "/a" in r.added && !OwnerArrives(run, now, "/a");
    ApplyExact(Tools(), DEBIAN, run, All(), base, now, r, client, image, walk);
    OnlyRootAbove(r, client);
  }

  /** A file that got new permissions on the server, and on the client has one more link: the image is made, and a
      client that holds the old tracked state refuses it. */
  lemma ExtraLinkIsRefused() returns (base: Snapshot, now: Disk, r: Report, client: Disk, image: Image)
    ensures Setting(Tools(), All(), base, now, r, client) && NoKindChange(base, now, r) && ReportFits(r, base, now)
    ensures Generate(Tools(), base, now, r) == Ok(image)
    ensures Validate(Tools(), DEBIAN, image, client, false).Some?
  {
    hide Setting, Generate, ImageOf, SameTracked, Lawful, ReportFits, Validate, HostFits, ValidDisk;
    var a := FileWith("x", 0);
    var b, c := a.(mode := 0x8180), a.(lcount := 2);
    base, now, r, client := Snapshot(RootAnd(a), {}), RootAnd(b), Report([], [], ["/a"]), RootAnd(c);
    EditedSetting(a, b, {});
    LinkedSetting(a, b, c);
    SettingFacts(Tools(), All(), base, now, r, client);
    GeneratedIs(Tools(), All(), base, now, r);
    image := Generate(Tools(), base, now, r).value;
    assert !LinkCountsFit(base, now, r, client) by {
      assert "/a" in r.changed && Reported(a, b);
    }
    HolderFacts(base, now, r, client);
    TrackedHolderExact(Tools(), DEBIAN, All(), base, now, r, image, client);
  }

  /** Link counts are no part of the tracked state. */
  lemma LinkedSetting(a: Node, b: Node, c: Node)
    requires KnownKind(a) && c == a.(lcount := 2)
    requires Setting(Tools(), All(), Snapshot(RootAnd(a), {}), RootAnd(b), Report([], [], ["/a"]), RootAnd(a))
    ensures Setting(Tools(), All(), Snapshot(RootAnd(a), {}), RootAnd(b), Report([], [], ["/a"]), RootAnd(c))
  {
    hide OrdinaryPath, OrdinaryDisk, ValidDisk, Lawful, Differs, KnownKind, ReportOf;
    KindOfLinked(a, c);
    SmallDisks(c);
    OrdinaryIsValid(RootAnd(c));
  }

  lemma KindOfLinked(a: Node, c: Node)
    requires KnownKind(a) && c == a.(lcount := 2)
    ensures KnownKind(c)
  {
  }

  lemma HolderFacts(base: Snapshot, now: Disk, r: Report, client: Disk)
    requires Setting(Tools(), All(), base, now, r, client)
    ensures Origin(Tools(), All(), base, now, r) && SameTracked(All(), base.files, client) && ValidDisk(client)
  {
    hide OrdinaryPath, OrdinaryDisk, ValidDisk, Lawful, Differs, KnownKind, ReportOf, SameTracked;
  }

  /** A changed file with an unchanged template beside it: the image has neither a row nor any content of it. */
  lemma TemplatedIsNotSent() returns (base: Snapshot, now: Disk, r: Report, image: Image)
    ensures IsFileOn(now, "/a") && IsFileOn(now, "/a.myscm-template") && ReportOf(r, base.files, now)
    ensures "/a" in r.changed && ReportFits(r, base, now) && Generate(Tools(), base, now, r) == Ok(image)
    ensures image.changed == map[] && image.changedTxt == HeaderOf(Tools(), ChangedTxt)
  {
    var a, b, t := FileWith("x", 0), FileWith("yy", 0), FileWith("t", 0);
    base := Snapshot(map["/" := ROOT, "/a" := a, "/a.myscm-template" := t], {});
    now, r := map["/" := ROOT, "/a" := b, "/a.myscm-template" := t], Report([], [], ["/a"]);
    assert |a.content| != |b.content|;
    assert "/a" + TEMPLATE_EXT == "/a.myscm-template" && |TEMPLATE_EXT| > |"/a"|;
    assert HasTemplate(now, "/a");
    hide HasTemplate, HeaderOf;
    OneTemplated(Tools(), base, now);
    image := Generate(Tools(), base, now, r).value;
  }

  lemma OneTemplated(w: World, base: Snapshot, now: Disk)
    requires "/a" in base.files && HasTemplate(now, "/a")
    ensures "/a" in now && ReportFits(Report([], [], ["/a"]), base, now)
    ensures var g := Generate(w, base, now, Report([], [], ["/a"]));
            && g.Ok? && g.value.changed == map[] && g.value.changedTxt == HeaderOf(w, ChangedTxt)
  {
    hide HeaderOf, DiskSource;
    assert ["/a"][..0] == [];
    assert AddAllChanged(w, base, now, ["/a"][..0]) == Ok(ChangedPart(map[], []));
    assert HeaderOf(w, ChangedTxt) + [] == HeaderOf(w, ChangedTxt);
  }

  const UBUNTU := Host("Linux", "ubuntu", "x86_64")

  /** A client that differs from the server in its distribution alone refuses every image the server can make, forced or
      not; one that writes the name in capitals does not count as different. */
  lemma OtherDistroIsRefused(base: Snapshot, now: Disk, r: Report, image: Image, client: Disk, force: bool)
    requires ReportFits(r, base, now) && Generate(Tools(), base, now, r) == Ok(image)
    ensures Validate(Tools(), UBUNTU, image, client, force).Some?
    ensures HostFits(Tools().identity, Host("LINUX", "Debian", "X86_64"))
  {
    hide Generate, Validate, Lawful, Lower;
    ToolsAreLawful();
    LowerExact("ubuntu", "debian");
    assert "ubuntu"[0] == 'u' && "debian"[0] == 'd';
    LowerExact("LINUX", "Linux");
    LowerExact("Debian", "debian");
    LowerExact("X86_64", "x86_64");
    OtherPlatformIsRefused(Tools(), UBUNTU, base, now, r, image, client, force);
  }

  lemma MembersOfImage(w: World, base: Snapshot, now: Disk, r: Report, image: Image)
    requires ImageOf(w, base, now, r, image)
    ensures MembersOf(image.added, now, r)
  {
    hide MembersOf, FilesOf, LinesOf, HeaderOf, Run;
  }

  lemma AddedSetting(b: Node)
    requires KnownKind(b)
    ensures Setting(Tools(), All(), Snapshot(RootOnly(), {}), RootAnd(b), Report(["/a"], [], []), RootOnly())
  {
    hide OrdinaryPath, OrdinaryDisk, ValidDisk, Lawful, Differs, KnownKind;
    ToolsAreLawful();
    RootIsSame();
    SmallDisks(b);
    SmallPaths();
    SameDiskHolds(RootOnly());
    AllOf(RootAnd(b));
    OrdinaryIsValid(RootOnly());
  }

  lemma OneAdded(run: Runner, m: Disk, b: Node)
    requires MembersOf(m, RootAnd(b), Report(["/a"], [], []))
    ensures m == map["/a" := b] && ExtractedTree(run, m).Keys == {"/", "/a"}
    ensures WalkOf(["/", "/a"], ExtractedTree(run, m))
  {
    hide *;
    OneMember(m, b);
    TreeOfOne(run, m);
    RootFirst(ExtractedTree(run, m));
  }

  lemma OneMember(m: Disk, b: Node)
    requires MembersOf(m, RootAnd(b), Report(["/a"], [], []))
    ensures m == map["/a" := b]
  {
    hide IsUnder, IsPath;
    SmallPaths();
    UnderReflexive("/a");
    IntroUnderAdded(Report(["/a"], [], []), "/a", "/a");
    assert !UnderAdded(Report(["/a"], [], []), "/") by { RootIsNotBelow(); }
  }

  lemma RootIsNotBelow()
    ensures !IsUnder("/a", "/")
  {
  }

  lemma TreeOfOne(run: Runner, m: Disk)
    requires m.Keys == {"/a"}
    ensures ExtractedTree(run, m).Keys == {"/", "/a"}
  {
    assert "/a"[1] != '/';
    assert Ancestors("/a") == {"/"};
    assert ImpliedDirs(m) == {"/"};
  }

  lemma RootFirst(tree: Disk)
    requires tree.Keys == {"/", "/a"}
    ensures WalkOf(["/", "/a"], tree)
  {
    RootIsNotBelow();
    hide IsUnder;
  }

  lemma OnlyRootAbove(r: Report, client: Disk)
    requires r.added == ["/a"] && client == RootOnly()
    ensures ClearWay(r, client)
  {
    hide IsPath, IsUnder;
  }
}
