/** The commands of the server and of a client as steps of the fleet, and how a client catches up. */
module FleetSteps {
  import opened Text
  import opened Paths
  import opened FileTree
  import opened ReportHeader
  import opened ImageNames
  import opened VersionFiles
  import opened SysImgGenerator
  import opened SysImgValidator
  import opened SysImgExtractor
  import opened AideDbManager
  import opened DeltaAdded
  import opened DeltaTheorem
  import opened ValidationTheorem
  import opened Fleet

  /******* commands *******/

  /** The client's object holds what the fleet says of the client. */
  ghost predicate Stands(e: SysImgExtractor, env: Env, k: Client)
    reads e, e.imgVerFile, e.validator
  {
    && e.Valid() && !e.validator.forceApply
    && e.world == env.w && e.host == k.host && e.runner == k.runner
    && e.CurrentVersion() == Ok(k.version) && e.images == FilesIn(k.images)
    && e.disk == k.disk && e.extracted == k.extracted
  }

  /** Applying an image is a step of the fleet, whatever comes of it. */
  method ApplyAsStep(e: SysImgExtractor, target: nat, walk: seq<Path>, ghost env: Env, ghost s: State, ghost c: nat)
    returns (r: Option<Fault>, ghost t: State)
    requires c < |s.clients| && Stands(e, env, s.clients[c]) && ClientFits(env, s.history, s.clients[c])
    requires e.Walks(target, walk)
    modifies e, e.validator, e.imgVerFile
    ensures c < |t.clients| && Next(env, s, Action.Apply(c, target, walk, e.dryRun), t) && Stands(e, env, t.clients[c])
    ensures r == None ==> !Refused(env, s.clients[c], target)
    ensures r == None && !e.dryRun ==> t.clients[c].version == target
  {
    hide ApplyParts, ClientFits, Faithful, ImageName, Parsed, ValidateFile, ValidateArchive, ExtractedTree, WalkOf;
    ghost var k := s.clients[c];
    ghost var name := ImageName(k.version, target);
    if !Refused(env, k, target) {
      NotRefused(env, k, target);
      VersionIsKnown(env, s.history, k);
    }
    r := e.ApplySysImg(target, walk);
    ghost var next := k;
    if !Refused(env, k, target) {
      FilledAdded(k.images[name].file.archive);
      WalksTheTree(walk, ExtractedTree(k.runner, Chosen(k, target).added));
      var o := RunOn(env, k, walk, e.dryRun, Chosen(k, target));
      next := k.(disk := e.disk, extracted := e.extracted);
      if o.Stopped? && !e.dryRun {
        next := next.(clean := false);
      } else if !e.dryRun {
        next := next.(version := target, clean := k.clean && Faithful(k.runner, s.history[k.version], k.images[name]));
      }
    }
    t := s.(clients := s.clients[c := next]);
  }

  lemma VersionIsKnown(env: Env, history: seq<Saved>, k: Client)
    requires ClientFits(env, history, k)
    ensures k.version < |history|
  {
    hide ImagesFit, Holds;
  }

  lemma FilledAdded(a: Archive)
    ensures Filled(a).added == a.added
  {
  }

  /** Scanning is a step of the fleet, unless AIDE fails. */
  method ScanAsStep(manager: AideDatabasesManager, tracked: Disk, aideOk: bool, copies: Option<Disk>, copyOk: bool,
                    ghost env: Env, ghost s: State)
    returns (r: Result<(), DbError>, ghost t: State)
    requires manager.Valid() && manager.history == s.history && s.history != [] && tracked == TrackedOn(env, s.disk)
    modifies manager, manager.dbVerFile
    ensures manager.Valid() && manager.history == t.history
    ensures aideOk || ServerUpToDate(env, s) ==> Next(env, s, Action.Scan(copies), t)
    ensures !aideOk && !ServerUpToDate(env, s) ==> t == s && r == Err(ScanFailed)
  {
    hide LayoutOf, Parsed, SameDatabase, TrackedOn, UpToDate;
    UpToDateExact(manager.dirs, manager.history, tracked);
    r := manager.Scan(tracked, aideOk, copies, copyOk);
    t := s.(history := manager.history);
  }

  lemma UpToDateExact(dirs: Dirs, history: seq<Saved>, tracked: Disk)
    requires LayoutOf(dirs, history) && history != []
    ensures UpToDate(dirs, tracked) <==> SameDatabase(history[|history| - 1].database, tracked)
  {
    hide OldName, SameDatabase;
  }

  /** Whatever the server or another client has under a name can be fetched; the client then has the same file under it
      and nothing else is changed. */
  lemma DownloadIsStep(env: Env, s: State, c: nat, peer: Option<nat>, name: string) returns (t: State)
    requires c < |s.clients|
    requires match peer
             case None => name in s.published
             case Some(p) => p < |s.clients| && name in s.clients[p].images
    ensures Next(env, s, Action.Download(c, peer, name), t)
    ensures var made := if peer.Some? then s.clients[peer.value].images[name] else s.published[name];
            t == s.(clients := s.clients[c := s.clients[c].(images := s.clients[c].images[name := made])])
  {
    t := WithImage(s, c, name, Offered(s, peer)[name]);
  }

  /******* catching up *******/

  ghost predicate StepsOf(env: Env, states: seq<State>, actions: seq<Action>) {
    && |states| == |actions| + 1
    && forall i :: 0 <= i < |actions| ==> Next(env, states[i], actions[i], states[i + 1])
  }

  /** The image from the client's version to the newest snapshot can be made, and nothing on the client is against
      it. */
  ghost predicate CanCatchUp(env: Env, s: State, k: Client, report: Report) {
    && k.clean && k.version < |s.history| - 1 && ServerUpToDate(env, s)
    && ReportOf(report, s.history[k.version].database, TrackedOn(env, s.disk))
    && var base := SnapshotOf(s.history[k.version]);
    && ReportFits(report, base, s.disk) && Generate(env.w, base, s.disk, report).Ok?
    && HostFits(env.w.identity, k.host) && NoKindChange(base, s.disk, report)
    && LinkCountsFit(base, s.disk, report, k.disk) && ImageName(k.version, |s.history| - 1) !in k.extracted
    && ClearWay(report, k.disk) && RemovesFilesOnly(base, report)
  }

  /** From there the image is made, fetched, by way of another client or not, and applied, and the client stands at the
      newest snapshot; it holds it exactly if no file was edited within its size and every file kept its owner. */
  lemma CatchUp(env: Env, s: State, c: nat, via: Option<nat>, report: Report, walk: seq<Path>)
    returns (states: seq<State>, actions: seq<Action>)
    requires Safe(env, s) && c < |s.clients| && (via.Some? ==> via.value < |s.clients| && via.value != c)
    requires CanCatchUp(env, s, s.clients[c], report)
    requires var k := s.clients[c];
             var image := Generate(env.w, SnapshotOf(s.history[k.version]), s.disk, report).value;
             WalkOf(walk, ExtractedTree(k.runner, image.added))
    ensures StepsOf(env, states, actions) && states[0] == s && |actions| == if via.Some? then 4 else 3
    ensures var k, last := s.clients[c], states[|actions|];
            && c < |last.clients| && last.history == s.history && last.clients[c].version == |s.history| - 1
            && (Holds(env, s.history[|s.history| - 1], last.clients[c].disk) <==>
                  Faithful(k.runner, s.history[k.version], Generated(env, s, k.version, report)))
  {
    hide Safe, Next, ClientFits, Generated, Holds, Faithful, CanCatchUp, WalkOf, ExtractedTree, ImageName, Generate;
    var k := s.clients[c];
    var s1 := ImageIsMade(env, s, k, report);
    var target := |s.history| - 1;
    var name := ImageName(k.version, target);
    NextKeepsSafe(env, s, Action.GenImg(k.version, report), s1);
    var made := Generated(env, s, k.version, report);
    var s2, got := s1, Action.Download(c, None, name);
    if via.Some? {
      got := Action.Download(c, via, name);
      s2 := DownloadIsStep(env, s1, via.value, None, name);
      NextKeepsSafe(env, s1, Action.Download(via.value, None, name), s2);
    }
    var s3 := DownloadIsStep(env, s2, c, via, name);
    NextKeepsSafe(env, s2, got, s3);
    var s4 := ImageIsApplied(env, s, s3, c, report, walk);
    actions := [Action.GenImg(k.version, report)]
               + (if via.Some? then [Action.Download(via.value, None, name)] else [])
               + [got, Action.Apply(c, target, walk, false)];
    states := [s, s1] + (if via.Some? then [s2] else []) + [s3, s4];
    ChainOf(env, states, actions);
  }

  lemma ChainOf(env: Env, states: seq<State>, actions: seq<Action>)
    requires |states| == |actions| + 1 && 3 <= |actions| <= 4
    requires Next(env, states[0], actions[0], states[1]) && Next(env, states[1], actions[1], states[2])
    requires Next(env, states[2], actions[2], states[3])
    requires |actions| == 4 ==> Next(env, states[3], actions[3], states[4])
    ensures StepsOf(env, states, actions)
  {
    hide Next;
  }

  lemma ImageIsMade(env: Env, s: State, k: Client, report: Report) returns (t: State)
    requires CanCatchUp(env, s, k, report)
    ensures k.version < |s.history| - 1 && ReportFits(report, SnapshotOf(s.history[k.version]), s.disk)
    ensures Next(env, s, Action.GenImg(k.version, report), t)
    ensures t == s.(published := s.published[ImageName(k.version, |s.history| - 1) :=
                                               Generated(env, s, k.version, report)])
  {
    hide ReportOf, ReportFits, Generate, Generated, ServerUpToDate, ImageName;
    t := s.(published := s.published[ImageName(k.version, |s.history| - 1) := Generated(env, s, k.version, report)]);
  }

  lemma ImageIsApplied(env: Env, s: State, s3: State, c: nat, report: Report, walk: seq<Path>) returns (t: State)
    requires Safe(env, s3) && s3.history == s.history && c < |s3.clients| && c < |s.clients|
    requires CanCatchUp(env, s, s.clients[c], report)
    requires var k := s.clients[c];
             && s3.clients[c] == k.(images := k.images[ImageName(k.version, |s.history| - 1) :=
                                                         Generated(env, s, k.version, report)])
             && var image := Generate(env.w, SnapshotOf(s.history[k.version]), s.disk, report).value;
             WalkOf(walk, ExtractedTree(k.runner, image.added))
    ensures Next(env, s3, Action.Apply(c, |s.history| - 1, walk, false), t)
    ensures c < |t.clients| && t.history == s.history && t.clients[c].version == |s.history| - 1
    ensures Holds(env, s.history[|s.history| - 1], t.clients[c].disk) <==>
              Faithful(s.clients[c].runner, s.history[s.clients[c].version],
                       Generated(env, s, s.clients[c].version, report))
  {
    hide Safe, ClientFits, Holds, Faithful, ServerUpToDate, ReportOf, ReportFits, HostFits, NoKindChange, ClearWay,
      RemovesFilesOnly, LinkCountsFit, WalkOf, ExtractedTree, ImageName, Generate, ApplyParts, Refused, LeftBy;
    var k, target := s3.clients[c], |s.history| - 1;
    var base := SnapshotOf(s.history[k.version]);
    var image := Generate(env.w, base, s.disk, report).value;
    HereFits(env, s3, c);
    LeftByExact(env.w, base, s.disk, report);
    FilledIsImage(image);
    CleanRefusalExact(env, s.history, k, target);
    CleanRunStopsOnly(env, s.history, k, target, walk);
    var o := RunOn(env, k, walk, false, Chosen(k, target));
    AppliedHolds(env, s.history, k, target, walk, o.state);
    var next := k.(disk := o.state, version := target, extracted := k.extracted - {ImageName(k.version, target)},
                   clean := Faithful(k.runner, s.history[k.version], k.images[ImageName(k.version, target)]));
    t := s3.(clients := s3.clients[c := next]);
  }
}
