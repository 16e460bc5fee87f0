/** A server and its clients in every interleaving of scans, image generation, downloads and applies. */
module Fleet {
  import opened Text
  import opened Paths
  import opened Pruning
  import opened AddedEntries
  import opened FileTree
  import opened ReportLines
  import opened ReportHeader
  import opened SysImgGenerator
  import opened SysImgValidator
  import opened ImageNames
  import opened SysImgExtractor
  import opened AideDbManager
  import opened DeltaRows
  import opened DeltaAdded
  import opened DeltaChanged
  import opened DeltaTheorem
  import opened ValidationTheorem
  import opened DryRun

  /** What stays the same: the programs called, the server's platform, the tracked paths. */
  datatype Env = Env(w: World, tracked: iset<Path>)

  /** What is in a file under an image's name, with the disk and the check report it was made from. `whole`: its
      generation and every download on its way were completed. */
  datatype Made = Made(file: ImageFile, whole: bool, now: Disk, report: Report)

  /** `clean`: no local change of a tracked file, no run that failed midway, no lossy image so far. */
  datatype Client = Client(
    host: Host, runner: Runner, disk: Disk, version: nat, images: map<string, Made>, extracted: set<string>,
    clean: bool)

  datatype State = State(disk: Disk, history: seq<Saved>, published: map<string, Made>, clients: seq<Client>)

  datatype Action =
    | Edit(disk: Disk)
    | Scan(copies: Option<Disk>)
    | GenImg(source: nat, report: Report)
    | BreakGenImg(source: nat, remains: ImageFile)
    | Download(client: nat, peer: Option<nat>, name: string)
    | BreakDownload(client: nat, peer: Option<nat>, name: string)
    | Apply(client: nat, target: nat, walk: seq<Path>, dry: bool)
    | EditUntracked(client: nat, disk: Disk)
    | EditTracked(client: nat, disk: Disk)

  function SnapshotOf(s: Saved): Snapshot {
    Snapshot(s.database, if s.copied.Some? then s.copied.value.Keys else {})
  }

  function FilesIn(made: map<string, Made>): map<string, ImageFile> {
    map n | n in made :: made[n].file
  }

  function TrackedOn(env: Env, disk: Disk): Disk {
    TrackedPart(env.tracked, disk)
  }

  /******* the steps *******/

  /** The image carries everything over: no file was edited within its size, and every file keeps its owner. */
  ghost predicate Faithful(run: Runner, base: Saved, made: Made) {
    && ContentShowsInSize(SnapshotOf(base), made.now, made.report)
    && OwnersArrive(run, SnapshotOf(base), made.now, made.report)
  }

  /** A generation that did not end leaves at most an archive without its last report; a download that did not end
      leaves what cannot be read through. */
  predicate Remains(file: ImageFile) {
    file.Torn? || file.archive.changedTxt == None
  }

  predicate Refused(env: Env, k: Client, target: nat) {
    RefusalOf(env.w, k.host, false, k.version, FilesIn(k.images), k.extracted, k.disk, target).Some?
  }

  /** The image a run is about that was not refused. */
  function Chosen(k: Client, target: nat): Image
    requires ImageName(k.version, target) in k.images && k.images[ImageName(k.version, target)].file.Readable?
  {
    Filled(k.images[ImageName(k.version, target)].file.archive)
  }

  lemma NotRefused(env: Env, k: Client, target: nat)
    requires !Refused(env, k, target)
    ensures ImageName(k.version, target) in k.images && k.images[ImageName(k.version, target)].file.Readable?
    ensures !Remains(k.images[ImageName(k.version, target)].file) && k.version < target
    ensures Validate(env.w, k.host, Chosen(k, target), k.disk, false) == None
    ensures k.images[ImageName(k.version, target)].file == Readable(ArchiveOf(Chosen(k, target)))
  {
    hide ValidateArchive, Validate, ImageName;
    var file := k.images[ImageName(k.version, target)].file;
    OnlyCompleteIsAccepted(env.w, k.host, file.archive, k.disk, false);
  }

  /** What a run makes of the client's disk once it is not refused. */
  function RunOn(env: Env, k: Client, walk: seq<Path>, dry: bool, image: Image): Outcome<Disk>
    requires forall p :: p in walk ==> p in ExtractedTree(k.runner, image.added)
  {
    ApplyParts(env.w, k.host, k.runner, dry, image, walk, k.disk)
  }

  /** `walk` is the order in which the extracted tree of the chosen image is walked. */
  ghost predicate WalksChosen(k: Client, target: nat, walk: seq<Path>) {
    && ImageName(k.version, target) in k.images && k.images[ImageName(k.version, target)].file.Readable?
    && WalkOf(walk, ExtractedTree(k.runner, Chosen(k, target).added))
  }

  /** The client after a run; one that fails midway leaves the disk as it was by then. */
  ghost predicate Ran(env: Env, history: seq<Saved>, k: Client, target: nat, walk: seq<Path>, dry: bool, k': Client) {
    var name := ImageName(k.version, target);
    if Refused(env, k, target) then k' == k
    else
      && WalksChosen(k, target, walk)
      && match RunOn(env, k, walk, dry, Chosen(k, target))
         case Stopped(disk, _) => k' == if dry then k.(extracted := k.extracted + {name})
                                        else k.(disk := disk, extracted := k.extracted + {name}, clean := false)
         case Done(disk) =>
           if dry then k' == k.(extracted := k.extracted - {name})
           else
             && k.version < |history|
             && k' == k.(disk := disk, version := target, extracted := k.extracted - {name},
                         clean := k.clean && Faithful(k.runner, history[k.version], k.images[name]))
  }

  /** Nothing has changed since the newest scan. */
  ghost predicate ServerUpToDate(env: Env, s: State) {
    s.history != [] && SameDatabase(s.history[|s.history| - 1].database, TrackedOn(env, s.disk))
  }

  /** What a client is offered by the server or by a peer. */
  function Offered(s: State, peer: Option<nat>): map<string, Made> {
    match peer
    case None => s.published
    case Some(p) => if p < |s.clients| then s.clients[p].images else map[]
  }

  function WithImage(s: State, c: nat, name: string, made: Made): State
    requires c < |s.clients|
  {
    s.(clients := s.clients[c := s.clients[c].(images := s.clients[c].images[name := made])])
  }

  /** The file the generation writes: the whole image, or as much of it as was written before the error. */
  function Generated(env: Env, s: State, source: nat, report: Report): Made
    requires source < |s.history| && ReportFits(report, SnapshotOf(s.history[source]), s.disk)
  {
    var base := SnapshotOf(s.history[source]);
    Made(FileOf(LeftBy(env.w, base, s.disk, report)), Generate(env.w, base, s.disk, report).Ok?, s.disk, report)
  }

  ghost predicate Next(env: Env, s: State, a: Action, t: State) {
    match a
    case Edit(disk) => OrdinaryDisk(disk) && t == s.(disk := disk)
    case Scan(copies) =>
      t == if ServerUpToDate(env, s) then s else s.(history := s.history + [Saved(TrackedOn(env, s.disk), copies)])
    case GenImg(source, report) =>
      && source < |s.history| - 1 && ServerUpToDate(env, s)
      && ReportOf(report, s.history[source].database, TrackedOn(env, s.disk))
      && ReportFits(report, SnapshotOf(s.history[source]), s.disk)
      && t == s.(published := s.published[ImageName(source, |s.history| - 1) := Generated(env, s, source, report)])
    case BreakGenImg(source, remains) =>
      && source < |s.history| - 1 && ServerUpToDate(env, s) && Remains(remains)
      && t == s.(published := s.published[ImageName(source, |s.history| - 1) :=
                                            Made(remains, false, s.disk, Report([], [], []))])
    case Download(c, peer, name) =>
      c < |s.clients| && name in Offered(s, peer) && t == WithImage(s, c, name, Offered(s, peer)[name])
    case BreakDownload(c, peer, name) =>
      && c < |s.clients| && name in Offered(s, peer)
      && t == WithImage(s, c, name, Offered(s, peer)[name].(file := Torn, whole := false))
    case Apply(c, target, walk, dry) =>
      && c < |s.clients| && c < |t.clients|
      && Ran(env, s.history, s.clients[c], target, walk, dry, t.clients[c])
      && t == s.(clients := s.clients[c := t.clients[c]])
    case EditUntracked(c, disk) =>
      && c < |s.clients| && ValidDisk(disk) && SameTracked(env.tracked, s.clients[c].disk, disk)
      && t == s.(clients := s.clients[c := s.clients[c].(disk := disk)])
    case EditTracked(c, disk) =>
      && c < |s.clients|
      && t == s.(clients := s.clients[c := s.clients[c].(disk := disk, clean := false)])
  }

  /** At the start the server was scanned once, and the clients stand at that first snapshot. */
  ghost predicate Init(env: Env, s: State) {
    && Lawful(env.w) && OrdinaryDisk(s.disk)
    && |s.history| == 1 && s.history[0].database == TrackedOn(env, s.disk)
    && s.published == map[]
    && forall c :: 0 <= c < |s.clients| ==>
         && s.clients[c].version == 0 && s.clients[c].images == map[] && s.clients[c].extracted == {}
         && (s.clients[c].clean ==> Holds(env, s.history[0], s.clients[c].disk))
  }

  /** A run: one state more than actions. */
  ghost predicate RunOf(env: Env, states: seq<State>, actions: seq<Action>) {
    && |states| == |actions| + 1
    && Init(env, states[0])
    && forall i :: 0 <= i < |actions| ==> Next(env, states[i], actions[i], states[i + 1])
  }

  /******* what every step keeps *******/

  /** The disk holds exactly the tracked state of the snapshot. */
  ghost predicate Holds(env: Env, saved: Saved, disk: Disk) {
    SameTracked(env.tracked, saved.database, disk) && ValidDisk(disk)
  }

  /** A snapshot is the tracked part of some disk. */
  ghost predicate SnapshotFits(env: Env, saved: Saved) {
    forall p :: p in saved.database ==> p in env.tracked && OrdinaryPath(p) && KnownKind(saved.database[p])
  }

  /** The file holds the image made from snapshot x against a disk that was snapshot y. */
  ghost predicate Delta(env: Env, x: Saved, y: Saved, made: Made) {
    && Origin(env.w, env.tracked, SnapshotOf(x), made.now, made.report)
    && ReportFits(made.report, SnapshotOf(x), made.now)
    && Generate(env.w, SnapshotOf(x), made.now, made.report).Ok?
    && made.file == Readable(ArchiveOf(Generate(env.w, SnapshotOf(x), made.now, made.report).value))
    && SameDatabase(y.database, TrackedOn(env, made.now))
  }

  /** What stands under a name X.Y: X < Y, and the delta from snapshot X to snapshot Y exactly when its generation and
      each download on its way were completed; else remains. */
  ghost predicate Fits(env: Env, history: seq<Saved>, x: nat, y: nat, made: Made) {
    && x < y < |history|
    && (made.whole <==> Delta(env, history[x], history[y], made))
    && (!made.whole ==> Remains(made.file))
  }

  ghost predicate ImagesFit(env: Env, history: seq<Saved>, images: map<string, Made>) {
    forall x: nat, y: nat :: ImageName(x, y) in images ==> Fits(env, history, x, y, images[ImageName(x, y)])
  }

  lemma RemainsAreNoDelta(env: Env, x: Saved, y: Saved, made: Made)
    requires Remains(made.file)
    ensures !Delta(env, x, y, made)
  {
    hide Origin, ReportFits, Generate, SameDatabase;
  }

  ghost predicate ClientFits(env: Env, history: seq<Saved>, k: Client) {
    && k.version < |history|
    && ImagesFit(env, history, k.images)
    && (k.clean ==> Holds(env, history[k.version], k.disk))
  }

  ghost predicate Safe(env: Env, s: State) {
    && Lawful(env.w) && OrdinaryDisk(s.disk) && s.history != []
    && (forall i :: 0 <= i < |s.history| ==> SnapshotFits(env, s.history[i]))
    && ImagesFit(env, s.history, s.published)
    && forall c :: 0 <= c < |s.clients| ==> ClientFits(env, s.history, s.clients[c])
  }

  lemma NamesApart(a: nat, b: nat, x: nat, y: nat)
    ensures ImageName(a, b) == ImageName(x, y) <==> a == x && b == y
  {
    ImageNameParses(a, b);
    ImageNameParses(x, y);
  }

  /** Scans only append, so what is known about old snapshots stays known. */
  lemma HistoryGrows(env: Env, history: seq<Saved>, saved: Saved, images: map<string, Made>)
    requires ImagesFit(env, history, images)
    ensures ImagesFit(env, history + [saved], images)
  {
    hide Delta, ImageName, Remains;
    var longer := history + [saved];
    forall x: nat, y: nat | ImageName(x, y) in images ensures Fits(env, longer, x, y, images[ImageName(x, y)]) {
      assert Fits(env, history, x, y, images[ImageName(x, y)]);
      assert longer[x] == history[x] && longer[y] == history[y];
    }
  }

  lemma ClientOutlivesScan(env: Env, history: seq<Saved>, saved: Saved, k: Client)
    requires ClientFits(env, history, k)
    ensures ClientFits(env, history + [saved], k)
  {
    hide ImagesFit, Holds;
    HistoryGrows(env, history, saved, k.images);
  }

  /** A file that fits its name, put among others that fit theirs. */
  lemma OneMoreFits(env: Env, history: seq<Saved>, images: map<string, Made>, x: nat, y: nat, made: Made)
    requires ImagesFit(env, history, images) && Fits(env, history, x, y, made)
    ensures ImagesFit(env, history, images[ImageName(x, y) := made])
  {
    hide Fits, ImageName;
    var more := images[ImageName(x, y) := made];
    forall a: nat, b: nat | ImageName(a, b) in more ensures Fits(env, history, a, b, more[ImageName(a, b)]) {
      NamesApart(x, y, a, b);
    }
  }

  lemma GeneratedFits(env: Env, s: State, source: nat, report: Report)
    requires Safe(env, s) && source < |s.history| - 1 && ServerUpToDate(env, s)
    requires ReportOf(report, s.history[source].database, TrackedOn(env, s.disk))
    requires ReportFits(report, SnapshotOf(s.history[source]), s.disk)
    ensures Fits(env, s.history, source, |s.history| - 1, Generated(env, s, source, report))
  {
    hide Lawful, OrdinaryDisk, ReportOf, ReportFits, Generate, SameDatabase, OrdinaryPath, KnownKind, ImagesFit,
      ClientFits, TrackedOn, TrackedPart, LeftBy;
    var made := Generated(env, s, source, report);
    assert SnapshotFits(env, s.history[source]);
    TrackedOnIs(env, s.disk);
    LeftByExact(env.w, SnapshotOf(s.history[source]), s.disk, report);
    if !made.whole {
      RemainsAreNoDelta(env, s.history[source], s.history[|s.history| - 1], made);
    }
  }

  lemma RemainsFit(env: Env, history: seq<Saved>, x: nat, y: nat, made: Made)
    requires x < y < |history| && !made.whole && Remains(made.file)
    ensures Fits(env, history, x, y, made)
  {
    hide Delta;
    RemainsAreNoDelta(env, history[x], history[y], made);
  }

  lemma TrackedOnIs(env: Env, disk: Disk)
    ensures TrackedOn(env, disk) == TrackedPart(env.tracked, disk)
  {
  }

  lemma ScannedFits(env: Env, disk: Disk, copies: Option<Disk>)
    requires OrdinaryDisk(disk)
    ensures SnapshotFits(env, Saved(TrackedOn(env, disk), copies))
  {
    hide OrdinaryPath, IsUnder, IsPath;
  }

  /** Two databases AIDE finds no difference between describe the same state. */
  lemma SameStateThrough(env: Env, database: Disk, now: Disk, disk: Disk)
    requires SameDatabase(database, TrackedOn(env, now)) && forall p :: p in database ==> p in env.tracked
    ensures SameTracked(env.tracked, now, disk) <==> SameTracked(env.tracked, database, disk)
  {
    forall p | p in env.tracked
      ensures p in now <==> p in database
      ensures p in now && p in disk ==> (SameState(now[p], disk[p]) <==> SameState(database[p], disk[p]))
    {
      assert p in now <==> p in TrackedOn(env, now);
    }
  }

  /** An image that is accepted changes no file's kind. */
  lemma AcceptedKeepsKinds(env: Env, host: Host, base: Snapshot, now: Disk, report: Report, image: Image, disk: Disk)
    requires Origin(env.w, env.tracked, base, now, report) && ReportFits(report, base, now)
    requires Generate(env.w, base, now, report) == Ok(image) && ValidDisk(disk)
    requires Validate(env.w, host, image, disk, false) == None
    ensures NoKindChange(base, now, report) && HostFits(env.w.identity, host)
  {
    hide Origin, Generate, Validate, IsUnder, IsPath, OrdinaryPath, LooksLike, Reported, Run, SortPaths;
    ValidationExact(env.w, host, env.tracked, base, now, report, image, disk);
    OriginFacts(env.w, env.tracked, base, now, report);
    forall p | p in report.changed && KindChar(base.files[p]) != KindChar(now[p])
      ensures Reported(base.files[p], now[p])
    {
      KindChangeIsReported(base.files[p], now[p]);
    }
  }

  lemma KindChangeIsReported(a: Node, b: Node)
    requires KnownKind(a) && KnownKind(b) && KindChar(a) != KindChar(b)
    ensures Reported(a, b)
  {
  }

  /** What is known of the image of a run that was not refused on a clean client. */
  lemma ChosenIsDelta(env: Env, history: seq<Saved>, k: Client, target: nat, walk: seq<Path>)
    requires ClientFits(env, history, k) && k.clean && Lawful(env.w)
    requires !Refused(env, k, target) && WalksChosen(k, target, walk)
    ensures k.version < target < |history| && k.images[ImageName(k.version, target)].whole
    ensures forall p :: p in walk ==> p in ExtractedTree(k.runner, Chosen(k, target).added)
    ensures var made := k.images[ImageName(k.version, target)]; var base := SnapshotOf(history[k.version]);
            && Delta(env, history[k.version], history[target], made)
            && Generate(env.w, base, made.now, made.report) == Ok(Chosen(k, target))
            && NoKindChange(base, made.now, made.report) && HostFits(env.w.identity, k.host)
            && Setting(env.w, env.tracked, base, made.now, made.report, k.disk)
  {
    hide Lawful, Origin, Generate, Validate, ValidDisk, IsUnder, IsPath, OrdinaryPath, KnownKind, SameTracked,
      HostFits, WalkOf, ExtractedTree, NoKindChange, ReportFits, SameDatabase, ImageName, TrackedOn;
    NotRefused(env, k, target);
    var made := k.images[ImageName(k.version, target)];
    var base := SnapshotOf(history[k.version]);
    assert Fits(env, history, k.version, target, made);
    FilledIsImage(Generate(env.w, base, made.now, made.report).value);
    AcceptedKeepsKinds(env, k.host, base, made.now, made.report, Chosen(k, target), k.disk);
    WalksTheTree(walk, ExtractedTree(k.runner, Chosen(k, target).added));
  }

  /** A client that holds snapshot x and applies the image x.y holds snapshot y afterwards, exactly when no file was
      edited within its size and every file out of the image kept its owner. */
  lemma AppliedHolds(env: Env, history: seq<Saved>, k: Client, target: nat, walk: seq<Path>, disk: Disk)
    requires Lawful(env.w) && ClientFits(env, history, k) && k.clean
    requires forall i :: 0 <= i < |history| ==> SnapshotFits(env, history[i])
    requires !Refused(env, k, target) && WalksChosen(k, target, walk)
    requires RunOn(env, k, walk, false, Chosen(k, target)) == Done(disk)
    ensures k.version < target < |history|
    ensures Holds(env, history[target], disk) <==>
              Faithful(k.runner, history[k.version], k.images[ImageName(k.version, target)])
  {
    hide Lawful, Origin, Generate, Validate, ValidDisk, IsUnder, IsPath, OrdinaryPath, KnownKind, SameTracked,
      HostFits, OwnersArrive, ContentShowsInSize, ApplyParts, WalkOf, ExtractedTree, NoKindChange, ReportFits,
      SameDatabase, ImageName, TrackedOn, Setting, Refused;
    ChosenIsDelta(env, history, k, target, walk);
    var made := k.images[ImageName(k.version, target)];
    var base := SnapshotOf(history[k.version]);
    ApplyExact(env.w, k.host, k.runner, env.tracked, base, made.now, made.report, k.disk, Chosen(k, target), walk);
    assert SnapshotFits(env, history[target]);
    SameStateThrough(env, history[target].database, made.now, disk);
  }

  lemma WalksTheTree(walk: seq<Path>, tree: Disk)
    requires WalkOf(walk, tree)
    ensures forall p :: p in walk ==> p in tree
  {
    hide IsUnder;
  }

  lemma RanFits(env: Env, history: seq<Saved>, k: Client, target: nat, walk: seq<Path>, dry: bool, k': Client)
    requires Lawful(env.w) && ClientFits(env, history, k)
    requires forall i :: 0 <= i < |history| ==> SnapshotFits(env, history[i])
    requires Ran(env, history, k, target, walk, dry, k')
    ensures ClientFits(env, history, k') && k'.version >= k.version
    ensures k'.version > k.version <==>
              (!dry && !Refused(env, k, target) && RunOn(env, k, walk, dry, Chosen(k, target)).Done?)
  {
    hide Lawful, Holds, Delta, ApplyParts, WalkOf, ExtractedTree, ImageName, SnapshotFits, Faithful, Refused;
    if !Refused(env, k, target) {
      NotRefused(env, k, target);
      NewVersionFits(env, history, k, target);
      if k'.clean && k'.version == target {
        AppliedHolds(env, history, k, target, walk, k'.disk);
      }
    }
  }

  lemma NewVersionFits(env: Env, history: seq<Saved>, k: Client, target: nat)
    requires ClientFits(env, history, k) && ImageName(k.version, target) in k.images
    ensures k.version < target < |history|
  {
    hide Delta, Remains, ImageName, Holds;
    assert Fits(env, history, k.version, target, k.images[ImageName(k.version, target)]);
  }

  /** On a clean client a run that was not refused stops exactly at something in the way of an added file or at a
      removed directory; no untracked file is touched even then. */
  lemma CleanRunStopsOnly(env: Env, history: seq<Saved>, k: Client, target: nat, walk: seq<Path>)
    requires Lawful(env.w) && ClientFits(env, history, k) && k.clean
    requires !Refused(env, k, target) && WalksChosen(k, target, walk)
    ensures forall p :: p in walk ==> p in ExtractedTree(k.runner, Chosen(k, target).added)
    ensures var made := k.images[ImageName(k.version, target)]; var o := RunOn(env, k, walk, false, Chosen(k, target));
            && (o.Done? <==>
                  ClearWay(made.report, k.disk) && RemovesFilesOnly(SnapshotOf(history[k.version]), made.report))
            && forall p :: p in k.disk && p !in env.tracked ==> p in o.state && o.state[p] == k.disk[p]
  {
    hide Lawful, Origin, Generate, Validate, ValidDisk, IsUnder, IsPath, OrdinaryPath, KnownKind, SameTracked,
      HostFits, OwnersArrive, ContentShowsInSize, ApplyParts, WalkOf, ExtractedTree, NoKindChange, ReportFits,
      SameDatabase, ImageName, TrackedOn, ClearWay, RemovesFilesOnly, Setting, Refused;
    ChosenIsDelta(env, history, k, target, walk);
    var made := k.images[ImageName(k.version, target)];
    var base := SnapshotOf(history[k.version]);
    ApplyExact(env.w, k.host, k.runner, env.tracked, base, made.now, made.report, k.disk, Chosen(k, target), walk);
  }

  /** On any client, clean or not, a dry run that was not refused goes through and changes nothing at all. */
  lemma DryRunPasses(env: Env, history: seq<Saved>, k: Client, target: nat, walk: seq<Path>)
    requires Lawful(env.w) && ClientFits(env, history, k)
    requires !Refused(env, k, target) && WalksChosen(k, target, walk)
    ensures forall p :: p in walk ==> p in ExtractedTree(k.runner, Chosen(k, target).added)
    ensures RunOn(env, k, walk, true, Chosen(k, target)) == Done(k.disk)
    ensures forall k' :: Ran(env, history, k, target, walk, true, k') <==> k' == k
  {
    hide Lawful, Origin, Generate, Validate, ValidDisk, HostFits, WalkOf, ExtractedTree, ReportFits, SameDatabase,
      ImageName, TrackedOn, ApplyParts, Holds, ValidateFile;
    NotRefused(env, k, target);
    var made := k.images[ImageName(k.version, target)];
    var base := SnapshotOf(history[k.version]);
    assert Fits(env, history, k.version, target, made);
    FilledIsImage(Generate(env.w, base, made.now, made.report).value);
    if !HostFits(env.w.identity, k.host) {
      OtherPlatformIsRefused(env.w, k.host, base, made.now, made.report, Chosen(k, target), k.disk, false);
    }
    WalksTheTree(walk, ExtractedTree(k.runner, Chosen(k, target).added));
    DryRunExact(env.w, k.host, k.runner, env.tracked, base, made.now, made.report, k.disk, Chosen(k, target), walk);
  }

  /** A clean client is refused exactly when there is nothing newer for it, the file is remains, a run before was
      stopped, the client is not what the server is, a tracked file changed its kind, or a file with a reported change
      has another link count here than in the snapshot. */
  lemma CleanRefusalExact(env: Env, history: seq<Saved>, k: Client, target: nat)
    requires Lawful(env.w) && ClientFits(env, history, k) && k.clean
    ensures var name := ImageName(k.version, target); var base := SnapshotOf(history[k.version]);
            Refused(env, k, target) <==>
              || k.version >= target || name !in k.images || !k.images[name].whole || name in k.extracted
              || !HostFits(env.w.identity, k.host)
              || !NoKindChange(base, k.images[name].now, k.images[name].report)
              || !LinkCountsFit(base, k.images[name].now, k.images[name].report, k.disk)
  {
    hide Lawful, Origin, Generate, Validate, ValidDisk, IsUnder, IsPath, OrdinaryPath, KnownKind, SameTracked,
      HostFits, NoKindChange, ReportFits, SameDatabase, ImageName, TrackedOn, LinkCountsFit, ValidateArchive;
    var name := ImageName(k.version, target);
    if k.version < target && name in k.images {
      var made := k.images[name];
      var base := SnapshotOf(history[k.version]);
      assert Fits(env, history, k.version, target, made);
      if made.whole {
        var image := Generate(env.w, base, made.now, made.report).value;
        FilledIsImage(image);
        OnlyCompleteIsAccepted(env.w, k.host, ArchiveOf(image), k.disk, false);
        TrackedHolderExact(env.w, k.host, env.tracked, base, made.now, made.report, image, k.disk);
      } else if made.file.Readable? {
        OnlyCompleteIsAccepted(env.w, k.host, made.file.archive, k.disk, false);
      }
    }
  }

  /** Remains are refused by every client, clean or not, forced or not; the client stays as it is. */
  lemma RemainsAreRefused(env: Env, history: seq<Saved>, k: Client, target: nat, force: bool)
    requires ImagesFit(env, history, k.images)
    requires var name := ImageName(k.version, target); name in k.images && !k.images[name].whole
    ensures RefusalOf(env.w, k.host, force, k.version, FilesIn(k.images), k.extracted, k.disk, target).Some?
    ensures forall walk, dry, k' :: Ran(env, history, k, target, walk, dry, k') ==> k' == k
  {
    hide Delta, ValidateArchive, ImageName, WalksChosen;
    var made := k.images[ImageName(k.version, target)];
    assert Fits(env, history, k.version, target, made);
    if made.file.Readable? {
      OnlyCompleteIsAccepted(env.w, k.host, made.file.archive, k.disk, force);
      OnlyCompleteIsAccepted(env.w, k.host, made.file.archive, k.disk, false);
    }
  }

  lemma UntrackedEditKeepsHold(env: Env, saved: Saved, before: Disk, after: Disk)
    requires Holds(env, saved, before) && SameTracked(env.tracked, before, after) && ValidDisk(after)
    ensures Holds(env, saved, after)
  {
    hide ValidDisk;
  }

  lemma DownloadFits(env: Env, history: seq<Saved>, images: map<string, Made>, offered: map<string, Made>, name: string)
    requires ImagesFit(env, history, images) && ImagesFit(env, history, offered) && name in offered
    ensures ImagesFit(env, history, images[name := offered[name]])
    ensures ImagesFit(env, history, images[name := offered[name].(file := Torn, whole := false)])
  {
    hide Delta, ImageName;
    var torn := images[name := offered[name].(file := Torn, whole := false)];
    forall x: nat, y: nat | ImageName(x, y) in torn ensures Fits(env, history, x, y, torn[ImageName(x, y)]) {
      if ImageName(x, y) == name {
        assert Fits(env, history, x, y, offered[name]);
        RemainsFit(env, history, x, y, torn[name]);
      } else {
        assert Fits(env, history, x, y, images[ImageName(x, y)]);
      }
    }
  }

  lemma OfferedFits(env: Env, s: State, peer: Option<nat>)
    requires Safe(env, s)
    ensures ImagesFit(env, s.history, Offered(s, peer))
  {
    hide Lawful, OrdinaryDisk, SnapshotFits, Holds, Fits, ImageName;
  }

  lemma InitIsSafe(env: Env, s: State)
    requires Init(env, s)
    ensures Safe(env, s)
  {
    hide Lawful, OrdinaryPath, Holds, ImageName, Delta, IsUnder, IsPath;
    ScannedFits(env, s.disk, s.history[0].copied);
  }

  lemma ReplacedFits(env: Env, s: State, c: nat, k: Client)
    requires Safe(env, s) && c < |s.clients| && ClientFits(env, s.history, k)
    ensures Safe(env, s.(clients := s.clients[c := k]))
  {
    hide Lawful, OrdinaryDisk, SnapshotFits, ImagesFit, ClientFits;
  }

  lemma HereFits(env: Env, s: State, c: nat)
    requires Safe(env, s) && c < |s.clients|
    ensures Lawful(env.w) && ClientFits(env, s.history, s.clients[c])
    ensures ImagesFit(env, s.history, s.clients[c].images)
    ensures forall i :: 0 <= i < |s.history| ==> SnapshotFits(env, s.history[i])
  {
    hide Lawful, OrdinaryDisk, SnapshotFits, ImagesFit, Holds;
  }

  predicate OfServer(a: Action) {
    a.Edit? || a.Scan? || a.GenImg? || a.BreakGenImg?
  }

  lemma PublishedFits(env: Env, s: State, x: nat, y: nat, made: Made)
    requires Safe(env, s) && Fits(env, s.history, x, y, made)
    ensures Safe(env, s.(published := s.published[ImageName(x, y) := made]))
  {
    hide Lawful, OrdinaryDisk, SnapshotFits, ImagesFit, ClientFits, Fits, ImageName;
    OneMoreFits(env, s.history, s.published, x, y, made);
  }

  lemma ScanKeepsSafe(env: Env, s: State, copies: Option<Disk>)
    requires Safe(env, s)
    ensures Safe(env, s.(history := s.history + [Saved(TrackedOn(env, s.disk), copies)]))
  {
    hide Lawful, OrdinaryDisk, SnapshotFits, ImagesFit, ClientFits, TrackedOn;
    ScannedFits(env, s.disk, copies);
    var saved := Saved(TrackedOn(env, s.disk), copies);
    HistoryGrows(env, s.history, saved, s.published);
    forall c | 0 <= c < |s.clients| ensures ClientFits(env, s.history + [saved], s.clients[c]) {
      ClientOutlivesScan(env, s.history, saved, s.clients[c]);
    }
  }

  lemma EditKeepsSafe(env: Env, s: State, disk: Disk)
    requires Safe(env, s) && OrdinaryDisk(disk)
    ensures Safe(env, s.(disk := disk))
  {
    hide Lawful, OrdinaryDisk, SnapshotFits, ImagesFit, ClientFits;
  }

  lemma ServerKeepsSafe(env: Env, s: State, a: Action, t: State)
    requires Safe(env, s) && Next(env, s, a, t) && OfServer(a)
    ensures Safe(env, t) && t.clients == s.clients && s.history <= t.history
  {
    hide Safe, OrdinaryDisk, SameDatabase, ReportOf, ReportFits, Generated, ImageName, TrackedOn, Remains, Fits,
      ServerUpToDate;
    match a {
      case Edit(disk) => EditKeepsSafe(env, s, disk);
      case Scan(copies) => ScanKeepsSafe(env, s, copies);
      case GenImg(source, report) =>
        GeneratedFits(env, s, source, report);
        PublishedFits(env, s, source, |s.history| - 1, Generated(env, s, source, report));
      case BreakGenImg(source, remains) =>
        var made := Made(remains, false, s.disk, Report([], [], []));
        RemainsFit(env, s.history, source, |s.history| - 1, made);
        PublishedFits(env, s, source, |s.history| - 1, made);
    }
  }

  /** A step of a client changes that client only. */
  lemma ClientKeepsSafe(env: Env, s: State, a: Action, t: State) returns (c: nat, k: Client)
    requires Safe(env, s) && Next(env, s, a, t) && !OfServer(a)
    ensures c < |s.clients| && t == s.(clients := s.clients[c := k])
    ensures ClientFits(env, s.history, k) && s.clients[c].version <= k.version
  {
    hide Lawful, Safe, SnapshotFits, ImagesFit, Holds, Ran, SameTracked, ValidDisk, ImageName, Offered;
    c := a.client;
    HereFits(env, s, c);
    k := t.clients[c];
    match a {
      case Download(_, peer, name) =>
        OfferedFits(env, s, peer);
        DownloadFits(env, s.history, s.clients[c].images, Offered(s, peer), name);
      case BreakDownload(_, peer, name) =>
        OfferedFits(env, s, peer);
        DownloadFits(env, s.history, s.clients[c].images, Offered(s, peer), name);
      case Apply(_, target, walk, dry) =>
        RanFits(env, s.history, s.clients[c], target, walk, dry, k);
      case EditUntracked(_, disk) =>
        if s.clients[c].clean {
          UntrackedEditKeepsHold(env, s.history[s.clients[c].version], s.clients[c].disk, disk);
        }
      case EditTracked(_, _) =>
    }
  }

  lemma NextKeepsSafe(env: Env, s: State, a: Action, t: State)
    requires Safe(env, s) && Next(env, s, a, t)
    ensures Safe(env, t)
    ensures s.history <= t.history && |t.clients| == |s.clients|
    ensures forall c :: 0 <= c < |s.clients| ==> s.clients[c].version <= t.clients[c].version
  {
    hide Safe, Next, ClientFits;
    if OfServer(a) {
      ServerKeepsSafe(env, s, a, t);
    } else {
      var c, k := ClientKeepsSafe(env, s, a, t);
      ReplacedFits(env, s, c, k);
    }
  }

  /******* whole runs *******/

  /** In every state of every run whatever is named X.Y, on the server or on a client, has X < Y and is the delta from
      snapshot X to snapshot Y exactly when its generation and each download on its way were completed, and every clean
      client recorded at version v holds exactly the tracked state of snapshot v. */
  lemma {:induction false} RunsAreSafe(env: Env, states: seq<State>, actions: seq<Action>, n: nat)
    requires RunOf(env, states, actions) && n < |states|
    ensures Safe(env, states[n])
  {
    hide Safe, Next, Init;
    if n == 0 {
      InitIsSafe(env, states[0]);
    } else {
      RunsAreSafe(env, states, actions, n - 1);
      NextKeepsSafe(env, states[n - 1], actions[n - 1], states[n]);
    }
  }

  /** No snapshot is ever changed or lost, and no client ever falls back. */
  lemma {:induction false} RunsOnlyGrow(env: Env, states: seq<State>, actions: seq<Action>, m: nat, n: nat)
    requires RunOf(env, states, actions) && m <= n < |states|
    ensures states[m].history <= states[n].history && |states[n].clients| == |states[m].clients|
    ensures forall c :: 0 <= c < |states[m].clients| ==> states[m].clients[c].version <= states[n].clients[c].version
  {
    hide Safe, Next, Init;
    if m < n {
      RunsOnlyGrow(env, states, actions, m, n - 1);
      RunsAreSafe(env, states, actions, n - 1);
      NextKeepsSafe(env, states[n - 1], actions[n - 1], states[n]);
    }
  }

  /** The text copies a scan keeps decide how a changed content travels: as a patch if the scan has a copy of what was a
      file, whole if not, and not at all if the content is the same. */
  lemma CopiesDecide(env: Env, x: Saved, y: Saved, made: Made, p: Path)
    requires Delta(env, x, y, made) && p in made.report.changed
    ensures p in x.database && p in made.now
    ensures var changed := Generate(env.w, SnapshotOf(x), made.now, made.report).value.changed;
            var copied := x.copied.Some? && p in x.copied.value && IsFile(x.database[p]);
            && (p + PATCH_EXT in changed <==> ContentOf(x.database[p]) != ContentOf(made.now[p]) && copied)
            && (p in changed <==> ContentOf(x.database[p]) != ContentOf(made.now[p]) && !copied)
  {
    hide Lawful, Generate, OrdinaryDisk, KnownKind, LinesOf, MembersOf, Run, SortPaths, DiskSource, ReportOf, TopPaths,
      EntryLines, HeaderOf, SameDatabase, OrdinaryPath, TrackedOn, IsFile;
    GeneratedIs(env.w, env.tracked, SnapshotOf(x), made.now, made.report);
    OriginFacts(env.w, env.tracked, SnapshotOf(x), made.now, made.report);
  }

  /** What the check for an outdated database is good for: an image made from a disk whose tracked state is not that
      of the newest snapshot never brings a client to that snapshot, though its name says so. */
  lemma UnguardedImageMisleads(env: Env, host: Host, run: Runner, x: Saved, y: Saved, made: Made, image: Image,
                               k: Disk, walk: seq<Path>)
    requires Setting(env.w, env.tracked, SnapshotOf(x), made.now, made.report, k)
    requires ReportFits(made.report, SnapshotOf(x), made.now)
    requires Generate(env.w, SnapshotOf(x), made.now, made.report) == Ok(image)
    requires NoKindChange(SnapshotOf(x), made.now, made.report)
    requires Faithful(run, x, made) && WalkOf(walk, ExtractedTree(run, image.added))
    requires !SameTracked(env.tracked, y.database, made.now)
    ensures var res := ApplyParts(env.w, host, run, false, image, walk, k);
            res.Done? ==> !SameTracked(env.tracked, y.database, res.state)
  {
    hide Setting, Generate, NoKindChange, ContentShowsInSize, WalkOf, ExtractedTree, ReportFits, ApplyParts,
      OwnersArrive;
    ApplyExact(env.w, host, run, env.tracked, SnapshotOf(x), made.now, made.report, k, image, walk);
  }
}
