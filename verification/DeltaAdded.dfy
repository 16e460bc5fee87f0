/** The added part of an image: which members it has, and what moving them in does to a client. */
module DeltaAdded {
  import opened Text
  import opened Paths
  import opened Pruning
  import opened AddedEntries
  import opened FileTree
  import opened ReportLines
  import opened SysImgGenerator
  import opened SysImgExtractor
  import opened DeltaRows

  ghost predicate OrdinaryDisk(d: Disk) {
    ValidDisk(d) && forall p :: p in d ==> OrdinaryPath(p)
  }

  /** An image is made from snapshot `base` and the disk `now`. */
  ghost predicate Origin(w: World, tracked: iset<Path>, base: Snapshot, now: Disk, r: Report) {
    && Lawful(w)
    && OrdinaryDisk(now)
    && (forall p :: p in base.files ==> p in tracked && OrdinaryPath(p) && KnownKind(base.files[p]))
    && ReportOf(r, base.files, TrackedPart(tracked, now))
  }

  /** The image meets a client whose tracked files are those of the snapshot. */
  ghost predicate Setting(w: World, tracked: iset<Path>, base: Snapshot, now: Disk, r: Report, client: Disk) {
    && Origin(w, tracked, base, now, r)
    && ValidDisk(client) && SameTracked(tracked, base.files, client)
  }

  /** What the client has above an added path is a directory. */
  ghost predicate ClearWay(r: Report, client: Disk) {
    forall a, p :: p in r.added && IsPath(a) && IsUnder(a, p) && a != p && a in client ==> IsDir(client[a])
  }

  ghost predicate NoKindChange(base: Snapshot, now: Disk, r: Report) {
    forall p :: p in r.changed && p in base.files && p in now ==> KindChar(base.files[p]) == KindChar(now[p])
  }

  /** A path is reported as added exactly when it is tracked, on the server's disk and not in the snapshot. */
  lemma AddedIff(w: World, tracked: iset<Path>, base: Snapshot, now: Disk, r: Report, p: Path)
    requires Origin(w, tracked, base, now, r)
    ensures p in r.added <==> p in now && p in tracked && p !in base.files
    ensures p in r.removed <==> p in base.files && p !in now
    ensures p in r.changed <==> p in base.files && p in now && Differs(base.files[p], now[p])
    ensures Distinct(r.added) && Distinct(r.removed) && Distinct(r.changed)
  {
    hide ValidDisk, OrdinaryPath, OrdinaryDisk, SameTracked, Lawful, Differs, Distinct, KnownKind;
  }

  lemma NoTemplates(d: Disk, p: Path)
    requires OrdinaryDisk(d)
    ensures !HasTemplate(d, p)
  {
    hide IsPath, IsUnder, IsFile, Trimmed;
    assert (p + TEMPLATE_EXT)[|p|..] == TEMPLATE_EXT;
    assert EndsWith(p + TEMPLATE_EXT, TEMPLATE_EXT);
  }

  lemma DiskIsValidSource(d: Disk)
    requires OrdinaryDisk(d)
    ensures ValidSource(DiskSource(d)) && DiskSource(d).templated == {}
  {
    hide IsPath, IsUnder, HasTemplate, OrdinaryPath, IsFile, IsDir;
    forall p ensures !HasTemplate(d, p) {
      NoTemplates(d, p);
    }
  }

  /** Some added path is the path itself or lies above it. */
  ghost predicate UnderAdded(r: Report, q: Path) {
    exists a :: a in r.added && IsUnder(a, q)
  }

  /** The archive holds exactly what the disk has at and below the added paths. */
  lemma ArchiveIs(w: World, tracked: iset<Path>, base: Snapshot, now: Disk, r: Report)
    requires Origin(w, tracked, base, now, r)
    ensures var st := Run(DiskSource(now), SortPaths(r.added));
            && st.Progress?
            && (forall q :: q in st.archive <==> q in now && UnderAdded(r, q))
            && (forall l :: l in st.listed ==> l in r.added)
            && (forall a :: a in r.added ==> Covered(a, st.listed))
  {
    hide IsUnder, IsPath, ValidDisk, OrdinaryPath, SameTracked, Lawful, ReportOf, Run, SortPaths, DiskSource;
    var src := DiskSource(now);
    DiskIsValidSource(now);
    forall p | p in r.added ensures p in src.tree && !IsUnder(SENTINEL, p) && IsPath(p) {
      AddedIff(w, tracked, base, now, r, p);
      SourceTree(now);
      OrdinaryFacts(now, p);
    }
    AddedLoopIsSound(src, r.added);
    SourceTree(now);
    var st := Run(src, SortPaths(r.added));
    forall q ensures q in st.archive <==> q in now && UnderAdded(r, q) {
      if q in st.archive {
        var l :| l in st.listed && IsUnder(l, q);
        assert l in r.added;
      }
      if q in now && UnderAdded(r, q) {
        var a :| a in r.added && IsUnder(a, q);
        assert a in st.archive;
        var l :| l in st.listed && IsUnder(l, a);
        UnderTransitive(l, a, q);
        assert Covered(q, st.listed);
      }
    }
  }

  lemma SourceTree(now: Disk)
    ensures DiskSource(now).tree == now.Keys
  {
  }

  lemma OrdinaryFacts(d: Disk, p: Path)
    requires OrdinaryDisk(d) && p in d
    ensures IsPath(p) && !IsUnder(SENTINEL, p) && OrdinaryPath(p)
  {
  }

  /******* where the members meet the client's disk *******/

  /** The members of an image made in this setting. */
  ghost predicate MembersOf(m: Disk, now: Disk, r: Report) {
    forall q :: (q in m <==> q in now && UnderAdded(r, q)) && (q in m ==> m[q] == now[q])
  }

  /** Nothing at or below an added path is on the client, tracked or not. */
  lemma MembersAreNew(w: World, tracked: iset<Path>, base: Snapshot, now: Disk, r: Report, client: Disk, q: Path)
    requires Setting(w, tracked, base, now, r, client) && UnderAdded(r, q)
    ensures q !in client && q !in base.files
  {
    hide IsPath, OrdinaryPath, Lawful, ReportOf, IsUnder;
    var a :| a in r.added && IsUnder(a, q);
    AddedIff(w, tracked, base, now, r, a);
    OrdinaryFacts(now, a);
    assert a !in client;
    assert q !in client;
  }

  lemma AddedAbove(r: Report, q: Path) returns (a: Path)
    requires UnderAdded(r, q)
    ensures a in r.added && IsUnder(a, q)
  {
    a :| a in r.added && IsUnder(a, q);
  }

  lemma IntroUnderAdded(r: Report, a: Path, q: Path)
    requires a in r.added && IsUnder(a, q)
    ensures UnderAdded(r, q)
  {
  }

  lemma DirAbove(d: Disk, a: Path, p: Path)
    requires ValidDisk(d) && p in d && IsPath(a) && IsUnder(a, p) && a != p
    ensures a in d && IsDir(d[a])
  {
  }

  /******* moving the tree *******/

  lemma AncestorsAreAbove(p: Path, b: Path)
    requires IsPath(p) && b in Ancestors(p)
    ensures IsPath(b) && IsUnder(b, p)
  {
    hide IsPath;
    PathStartsWithSlash(p);
    RootIsPath();
    if b != "/" {
      var i :| 0 < i < |p| && p[i] == '/' && b == p[..i];
      CutIsAbove(p, i);
    }
  }

  lemma RootIsPath()
    ensures IsPath("/")
  {
  }

  /** What is new on the client once the tree is moved: the members, and the directories above them it did not have. */
  function Grown(run: Runner, client: Disk, m: Disk): Disk {
    (map a | a in ImpliedDirs(m) && a !in client :: IMPLIED_DIR) + (map p | p in m :: Arrived(run, p, m[p]))
  }

  /** A member as it is where nothing was before: its owner goes by name, and a file from another file system belongs
      to the runner. */
  function Arrived(run: Runner, p: Path, node: Node): (n: Node)
    ensures IsDir(n) == IsDir(node) && IsFile(n) == IsFile(node) && n.mode == node.mode && n.content == node.content
  {
    var e := Extracted(run, node);
    if IsDir(node) || run.sameFs(p) then e else e.(uid := run.uid, gid := run.gid)
  }

  /** The new entries moved so far, on top of the client's disk. */
  function Moved(client: Disk, g: Disk, walk: seq<Path>): Disk {
    client + map p | p in g && p in walk :: g[p]
  }

  predicate ParentReady(disk: Disk, p: Path) {
    p == "/" || (Parent(p) in disk && IsDir(disk[Parent(p)]))
  }

  lemma SettingFacts(w: World, tracked: iset<Path>, base: Snapshot, now: Disk, r: Report, client: Disk)
    requires Setting(w, tracked, base, now, r, client)
    ensures ValidDisk(client) && OrdinaryDisk(now) && ValidDisk(now) && Lawful(w)
    ensures Origin(w, tracked, base, now, r)
  {
  }

  lemma MemberFacts(w: World, tracked: iset<Path>, base: Snapshot, now: Disk, r: Report, client: Disk, m: Disk, p: Path)
    requires Setting(w, tracked, base, now, r, client) && MembersOf(m, now, r) && p in m
    ensures p !in client && p in now && m[p] == now[p] && IsPath(p) && KnownKind(m[p]) && UnderAdded(r, p)
  {
    hide UnderAdded, IsPath, OrdinaryPath, Lawful, ReportOf, IsUnder, SameTracked;
    MembersAreNew(w, tracked, base, now, r, client, p);
  }

  /** What is new is a member or above one. */
  lemma GrownFacts(w: World, run: Runner, tracked: iset<Path>, base: Snapshot, now: Disk, r: Report, client: Disk,
                   m: Disk, p: Path)
    returns (q: Path)
    requires Setting(w, tracked, base, now, r, client) && MembersOf(m, now, r) && p in Grown(run, client, m)
    ensures p !in client && IsPath(p) && q in m && IsUnder(p, q)
    ensures p in m ==> Grown(run, client, m)[p] == Arrived(run, p, m[p]) && m[p] == now[p] && KnownKind(m[p])
    ensures p !in m ==> Grown(run, client, m)[p] == IMPLIED_DIR && IsDir(now[p])
    ensures p in now
  {
    hide Setting, MembersOf, IsUnder, IsPath, Ancestors, IsDir, KnownKind, ValidDisk;
    SettingFacts(w, tracked, base, now, r, client);
    if p in m {
      q := p;
      MemberFacts(w, tracked, base, now, r, client, m, p);
      UnderReflexive(p);
    } else {
      q :| q in m && p in Ancestors(q);
      MemberFacts(w, tracked, base, now, r, client, m, q);
      AncestorsAreAbove(q, p);
      DirAbove(now, p, q);
    }
  }

  lemma AboveIsAncestor(b: Path, q: Path)
    requires IsPath(b) && IsUnder(b, q) && b != q
    ensures b in Ancestors(q)
  {
    hide IsPath;
    if b != "/" {
      assert q[..|b|] == b && q[|b|] == '/';
      PathStartsWithSlash(b);
    }
  }

  /** What is above something new is new too, or was there before. */
  lemma AboveGrown(w: World, run: Runner, tracked: iset<Path>, base: Snapshot, now: Disk, r: Report, client: Disk,
                   m: Disk, b: Path, p: Path)
    requires Setting(w, tracked, base, now, r, client) && MembersOf(m, now, r)
    requires p in Grown(run, client, m) && IsPath(b) && IsUnder(b, p) && b != p
    ensures b in Grown(run, client, m) || b in client
    ensures b in Grown(run, client, m) ==> IsDir(Grown(run, client, m)[b])
    ensures b in client ==> exists a :: a in r.added && IsUnder(b, a) && b != a
  {
    hide Setting, MembersOf, IsUnder, IsPath, Ancestors, IsDir, ValidDisk, KnownKind;
    SettingFacts(w, tracked, base, now, r, client);
    var q := GrownFacts(w, run, tracked, base, now, r, client, m, p);
    UnderTransitive(b, p, q);
    StrictlyAbove(b, p, q);
    MemberFacts(w, tracked, base, now, r, client, m, q);
    DirAbove(now, b, q);
    AboveIsAncestor(b, q);
    ImpliedDirIsDir();
    if b in m {
      MemberFacts(w, tracked, base, now, r, client, m, b);
    }
    if b in client {
      var a := AddedAbove(r, q);
      AddedIsPath(w, tracked, base, now, r, a);
      UnderComparable(a, b, q);
      if IsUnder(a, b) {
        IntroUnderAdded(r, a, b);
        MembersAreNew(w, tracked, base, now, r, client, b);
      }
      UnderReflexive(b);
    }
  }

  lemma AddedIsPath(w: World, tracked: iset<Path>, base: Snapshot, now: Disk, r: Report, a: Path)
    requires Origin(w, tracked, base, now, r) && a in r.added
    ensures IsPath(a) && a in now && a in tracked
  {
    hide IsPath, IsUnder, Trimmed;
    AddedIff(w, tracked, base, now, r, a);
  }

  lemma StrictlyAbove(a: Path, b: Path, c: Path)
    requires IsPath(a) && IsUnder(a, b) && IsUnder(b, c) && a != b
    ensures a != c
  {
    hide IsPath;
    PathStartsWithSlash(a);
  }

  lemma ImpliedDirIsDir()
    ensures IsDir(IMPLIED_DIR) && !IsFile(IMPLIED_DIR)
  {
  }

  /** Moved, entry by entry. */
  lemma MovedKeys(client: Disk, g: Disk, walk: seq<Path>)
    ensures forall p :: p in Moved(client, g, walk) <==> p in client || (p in g && p in walk)
    ensures forall p :: p in g && p in walk ==> Moved(client, g, walk)[p] == g[p]
    ensures forall p :: p in client && (p !in g || p !in walk) ==> Moved(client, g, walk)[p] == client[p]
  {
  }

  lemma MovedStep(client: Disk, g: Disk, walk: seq<Path>, n: nat)
    requires n < |walk|
    ensures Moved(client, g, walk[..n + 1]) ==
              if walk[n] in g then Moved(client, g, walk[..n])[walk[n] := g[walk[n]]] else Moved(client, g, walk[..n])
  {
    hide Moved;
    var p := walk[n];
    var before, after := Moved(client, g, walk[..n]), Moved(client, g, walk[..n + 1]);
    assert walk[..n + 1] == walk[..n] + [p];
    MovedKeys(client, g, walk[..n]);
    MovedKeys(client, g, walk[..n + 1]);
    assert after == if p in g then before[p := g[p]] else before;
  }

  lemma NotMovedYet(walk: seq<Path>, tree: Disk, n: nat)
    requires WalkOf(walk, tree) && n < |walk|
    ensures walk[n] in tree && walk[n] !in walk[..n]
  {
    hide IsUnder;
    assert walk[n] in walk;
  }

  lemma ExtractedKind(run: Runner, n: Node)
    ensures IsDir(Extracted(run, n)) == IsDir(n) && IsFile(Extracted(run, n)) == IsFile(n)
  {
  }

  /** A file is moved to its path, or into the directory that has its path; there it may not be in the way of anything.
      Nothing else on the disk changes. */
  lemma FileGoesInExact(run: Runner, disk: Disk, p: Path, node: Node)
    requires IsFile(node) && p != "/" && Parent(p) in disk && IsDir(disk[Parent(p)])
    ensures var o, inside := MoveOne(run, disk, p, node), p + "/" + BaseName(p);
            var onDir := p in disk && IsDir(disk[p]);
            var at := if onDir then inside else p;
            && (o.Done? <==> !(onDir && inside in disk))
            && (o.Stopped? ==> o.state == disk)
            && (o.Done? ==> at in o.state && o.state - {at} == disk - {at}
                            && o.state[at] == node.(uid := o.state[at].uid, gid := o.state[at].gid))
  {
    hide Parent, BaseName;
  }

  /** One entry is moved if its parent is a directory by then. */
  lemma MoveOneIs(w: World, run: Runner, tracked: iset<Path>, base: Snapshot, now: Disk, r: Report, client: Disk,
                  m: Disk, walk: seq<Path>, n: nat)
    requires Setting(w, tracked, base, now, r, client) && MembersOf(m, now, r)
    requires WalkOf(walk, ExtractedTree(run, m)) && n < |walk| && walk[n] in ExtractedTree(run, m)
    ensures var g, p := Grown(run, client, m), walk[n]; var disk := Moved(client, g, walk[..n]);
            MoveOne(run, disk, p, ExtractedTree(run, m)[p]) ==
              if ParentReady(disk, p) then Done(Moved(client, g, walk[..n + 1])) else Stopped(disk, NotADirectory(p))
  {
    hide Setting, MembersOf, IsUnder, IsPath, ImpliedDirs, Parent, IsDir, IsFile, WalkOf, Moved, KnownKind;
    var g, p := Grown(run, client, m), walk[n];
    var disk := Moved(client, g, walk[..n]);
    MovedKeys(client, g, walk[..n]);
    MovedStep(client, g, walk, n);
    NotMovedYet(walk, ExtractedTree(run, m), n);
    ImpliedDirIsDir();
    if p in g {
      var q := GrownFacts(w, run, tracked, base, now, r, client, m, p);
    }
    if p in m {
      ExtractedKind(run, m[p]);
    }
  }

  /** The parent of the i-th entry is a directory by the time the walk comes to it. */
  predicate ReadyAt(run: Runner, client: Disk, m: Disk, walk: seq<Path>, i: nat)
    requires i < |walk|
  {
    ParentReady(Moved(client, Grown(run, client, m), walk[..i]), walk[i])
  }

  lemma NothingMoved(client: Disk, g: Disk)
    ensures Moved(client, g, []) == client
  {
  }

  lemma MoveAllStep(run: Runner, tree: Disk, walk: seq<Path>, client: Disk, n: nat)
    requires 0 < n <= |walk| && forall p :: p in walk[..n] ==> p in tree
    ensures walk[n - 1] in tree && forall p :: p in walk[..n - 1] ==> p in tree
    ensures MoveAll(run, tree, walk[..n], client) ==
              match MoveAll(run, tree, walk[..n - 1], client)
              case Stopped(d, f) => Stopped(d, f)
              case Done(d) => MoveOne(run, d, walk[n - 1], tree[walk[n - 1]])
  {
    hide MoveOne;
    var now := walk[..n];
    assert now[..n - 1] == walk[..n - 1] && now[n - 1] == walk[n - 1] && now[n - 1] in now;
    forall p | p in walk[..n - 1] ensures p in tree {
      assert p in now;
    }
  }

  lemma WalkedInTree(walk: seq<Path>, tree: Disk, n: nat)
    requires WalkOf(walk, tree) && n <= |walk|
    ensures forall p :: p in walk[..n] ==> p in tree
  {
    hide IsUnder;
  }

  /** As long as no parent is missing the tree is moved entry after entry; the first missing one ends it. */
  lemma {:induction false} MoveAllIs(w: World, run: Runner, tracked: iset<Path>, base: Snapshot, now: Disk, r: Report,
                                     client: Disk, m: Disk, walk: seq<Path>, n: nat)
    requires Setting(w, tracked, base, now, r, client) && MembersOf(m, now, r)
    requires WalkOf(walk, ExtractedTree(run, m)) && n <= |walk|
    ensures forall p :: p in walk[..n] ==> p in ExtractedTree(run, m)
    ensures MoveAll(run, ExtractedTree(run, m), walk[..n], client).Done? <==>
            forall i :: 0 <= i < n ==> ReadyAt(run, client, m, walk, i)
    ensures MoveAll(run, ExtractedTree(run, m), walk[..n], client).Done? ==>
              MoveAll(run, ExtractedTree(run, m), walk[..n], client).state
                  == Moved(client, Grown(run, client, m), walk[..n])
  {
    hide Setting, MembersOf, ExtractedTree, MoveOne, IsUnder, IsPath, ParentReady, Grown, Moved, WalkOf, MoveAll;
    WalkedInTree(walk, ExtractedTree(run, m), n);
    if n == 0 {
      assert walk[..0] == [];
      NothingMoved(client, Grown(run, client, m));
      MoveNothing(run, ExtractedTree(run, m), client);
    } else {
      MoveAllIs(w, run, tracked, base, now, r, client, m, walk, n - 1);
      MoveAllStep(run, ExtractedTree(run, m), walk, client, n);
      MoveOneIs(w, run, tracked, base, now, r, client, m, walk, n - 1);
      var ready := ReadyAt(run, client, m, walk, n - 1);
      assert ready == ParentReady(Moved(client, Grown(run, client, m), walk[..n - 1]), walk[n - 1]);
    }
  }

  /** Wherever the walk ends, the disk has the new entries of a first part of it and is else as before. */
  lemma {:induction false} MoveLeaves(w: World, run: Runner, tracked: iset<Path>, base: Snapshot, now: Disk,
                                      r: Report, client: Disk, m: Disk, walk: seq<Path>, n: nat)
    returns (k: nat)
    requires Setting(w, tracked, base, now, r, client) && MembersOf(m, now, r)
    requires WalkOf(walk, ExtractedTree(run, m)) && n <= |walk|
    ensures forall p :: p in walk[..n] ==> p in ExtractedTree(run, m)
    ensures k <= n && MoveAll(run, ExtractedTree(run, m), walk[..n], client).state
              == Moved(client, Grown(run, client, m), walk[..k])
  {
    hide Setting, MembersOf, ExtractedTree, MoveOne, IsUnder, IsPath, ParentReady, Grown, Moved, WalkOf, MoveAll;
    WalkedInTree(walk, ExtractedTree(run, m), n);
    MoveAllIs(w, run, tracked, base, now, r, client, m, walk, n);
    if n == 0 || MoveAll(run, ExtractedTree(run, m), walk[..n], client).Done? {
      k := n;
      MoveNothing(run, ExtractedTree(run, m), client);
    } else {
      k := MoveLeaves(w, run, tracked, base, now, r, client, m, walk, n - 1);
      MoveAllIs(w, run, tracked, base, now, r, client, m, walk, n - 1);
      MoveAllStep(run, ExtractedTree(run, m), walk, client, n);
      MoveOneIs(w, run, tracked, base, now, r, client, m, walk, n - 1);
    }
  }

  lemma MoveNothing(run: Runner, tree: Disk, client: Disk)
    ensures MoveAll(run, tree, [], client) == Done(client)
  {
  }

  /** If nothing is in the way every parent is a directory in time. */
  lemma ParentIsReady(w: World, run: Runner, tracked: iset<Path>, base: Snapshot, now: Disk, r: Report, client: Disk,
                      m: Disk, walk: seq<Path>, i: nat)
    requires Setting(w, tracked, base, now, r, client) && MembersOf(m, now, r) && ClearWay(r, client)
    requires WalkOf(walk, ExtractedTree(run, m)) && i < |walk|
    ensures ReadyAt(run, client, m, walk, i)
  {
    hide Setting, MembersOf, IsUnder, IsPath, Parent, IsDir, ImpliedDirs, WalkOf, Moved, ValidDisk, Grown, KnownKind;
    var p, g := walk[i], Grown(run, client, m);
    SettingFacts(w, tracked, base, now, r, client);
    NotMovedYet(walk, ExtractedTree(run, m), i);
    TreeEntry(w, run, tracked, base, now, r, client, m, p);
    MovedKeys(client, g, walk[..i]);
    if p != "/" {
      var b := Parent(p);
      ParentIsAbove(p);
      if p in client {
        DirAbove(client, b, p);
        NotBoth(w, run, tracked, base, now, r, client, m, b);
      } else {
        AboveGrown(w, run, tracked, base, now, r, client, m, b, p);
        if b in g {
          GrownIsWalked(run, client, m, b);
          BeforeInWalk(walk, ExtractedTree(run, m), b, i);
        } else {
          var a :| a in r.added && IsUnder(b, a) && b != a;
        }
      }
    }
  }

  lemma NotBoth(w: World, run: Runner, tracked: iset<Path>, base: Snapshot, now: Disk, r: Report, client: Disk,
                m: Disk, b: Path)
    requires Setting(w, tracked, base, now, r, client) && MembersOf(m, now, r) && b in client
    ensures b !in Grown(run, client, m)
  {
    hide Setting, MembersOf, IsUnder, IsPath, ImpliedDirs;
    if b in m {
      MemberFacts(w, tracked, base, now, r, client, m, b);
    }
  }

  lemma TreeEntry(w: World, run: Runner, tracked: iset<Path>, base: Snapshot, now: Disk, r: Report, client: Disk,
                  m: Disk, p: Path)
    requires Setting(w, tracked, base, now, r, client) && MembersOf(m, now, r) && p in ExtractedTree(run, m)
    ensures IsPath(p) && (p in client || p in Grown(run, client, m))
  {
    hide Setting, MembersOf, IsUnder, IsPath, Ancestors;
    if p in m {
      MemberFacts(w, tracked, base, now, r, client, m, p);
    } else {
      var q :| q in m && p in Ancestors(q);
      MemberFacts(w, tracked, base, now, r, client, m, q);
      AncestorsAreAbove(q, p);
    }
  }

  lemma GrownIsWalked(run: Runner, client: Disk, m: Disk, b: Path)
    requires b in Grown(run, client, m)
    ensures b in ExtractedTree(run, m)
  {
    hide ImpliedDirs;
  }

  lemma BeforeInWalk(walk: seq<Path>, tree: Disk, b: Path, i: nat)
    requires WalkOf(walk, tree) && b in tree && i < |walk| && IsUnder(b, walk[i]) && b != walk[i]
    ensures b in walk[..i]
  {
    hide IsUnder;
    assert b in walk;
    var k :| 0 <= k < |walk| && walk[k] == b;
    assert walk[..i][k] == b;
  }

  /** A non-directory in the way ends the walk at the entry below it. */
  lemma SomethingInTheWay(w: World, run: Runner, tracked: iset<Path>, base: Snapshot, now: Disk, r: Report,
                          client: Disk, m: Disk, walk: seq<Path>)
    returns (i: nat)
    requires Setting(w, tracked, base, now, r, client) && MembersOf(m, now, r) && !ClearWay(r, client)
    requires WalkOf(walk, ExtractedTree(run, m))
    ensures i < |walk| && !ReadyAt(run, client, m, walk, i)
  {
    hide Setting, MembersOf, IsUnder, IsPath, Parent, IsDir, WalkOf, Moved, Ancestors;
    var a, p :| p in r.added && IsPath(a) && IsUnder(a, p) && a != p && a in client && !IsDir(client[a]);
    SettingFacts(w, tracked, base, now, r, client);
    AddedIsPath(w, tracked, base, now, r, p);
    AddedIsMember(w, tracked, base, now, r, m, p);
    var c := NextBelow(a, p);
    if c != p {
      AboveIsAncestor(c, p);
    }
    assert c in ExtractedTree(run, m);
    i := PlaceInWalk(walk, ExtractedTree(run, m), c);
    MovedKeys(client, Grown(run, client, m), walk[..i]);
    NotBoth(w, run, tracked, base, now, r, client, m, a);
  }

  lemma AddedIsMember(w: World, tracked: iset<Path>, base: Snapshot, now: Disk, r: Report, m: Disk, p: Path)
    requires MembersOf(m, now, r) && p in r.added && p in now
    ensures p in m
  {
    hide IsUnder;
    UnderReflexive(p);
    IntroUnderAdded(r, p, p);
  }

  lemma PlaceInWalk(walk: seq<Path>, tree: Disk, c: Path) returns (i: nat)
    requires WalkOf(walk, tree) && c in tree
    ensures i < |walk| && walk[i] == c
  {
    hide IsUnder;
    assert c in walk;
    i :| 0 <= i < |walk| && walk[i] == c;
  }

  lemma MovedAll(client: Disk, g: Disk, walk: seq<Path>)
    requires forall p :: p in g ==> p in walk
    ensures Moved(client, g, walk) == client + g
  {
    assert (map p | p in g && p in walk :: g[p]) == g;
  }

  lemma GrownInWalk(run: Runner, client: Disk, m: Disk, walk: seq<Path>)
    requires WalkOf(walk, ExtractedTree(run, m))
    ensures forall p :: p in Grown(run, client, m) ==> p in walk
  {
    hide ImpliedDirs, IsUnder;
    forall p | p in Grown(run, client, m) ensures p in walk {
      GrownIsWalked(run, client, m, p);
    }
  }

  /** Moving in the added part goes through exactly when nothing but directories is in its way, and then adds exactly
      the members, as they arrive, and the directories above them that the client did not have. */
  lemma AddedPartExact(w: World, run: Runner, tracked: iset<Path>, base: Snapshot, now: Disk, r: Report, client: Disk,
                       m: Disk, walk: seq<Path>)
    requires Setting(w, tracked, base, now, r, client) && MembersOf(m, now, r) && WalkOf(walk, ExtractedTree(run, m))
    ensures forall p :: p in walk ==> p in ExtractedTree(run, m)
    ensures MoveAll(run, ExtractedTree(run, m), walk, client).Done? <==> ClearWay(r, client)
    ensures ClearWay(r, client) ==>
              MoveAll(run, ExtractedTree(run, m), walk, client) == Done(client + Grown(run, client, m))
  {
    hide Setting, MembersOf, IsUnder, IsPath, Moved, MoveAll, WalkOf, ExtractedTree, ReadyAt, ClearWay, Grown;
    MoveAllIs(w, run, tracked, base, now, r, client, m, walk, |walk|);
    assert walk[..|walk|] == walk;
    GrownInWalk(run, client, m, walk);
    MovedAll(client, Grown(run, client, m), walk);
    if ClearWay(r, client) {
      forall i | 0 <= i < |walk| ensures ReadyAt(run, client, m, walk, i) {
        ParentIsReady(w, run, tracked, base, now, r, client, m, walk, i);
      }
    } else {
      var i := SomethingInTheWay(w, run, tracked, base, now, r, client, m, walk);
    }
  }
}
