/** Applying an image on the client: added files are moved in, changed files altered, removed files deleted. */
module SysImgExtractor {
  import opened Text
  import opened Paths
  import opened FileTree
  import opened ChangedReport
  import opened ReportLines
  import opened SysImgGenerator
  import opened SysImgValidator
  import opened VersionFiles
  import opened ImageNames

  datatype Fault =
    | BadVersionFile(why: VersionError) | NotNewer | NoSuchImage | Rejected(reason: Rejection) | LeftoverDirectory
    | NotADirectory(path: Path) | AlreadyExists(path: Path) | Missing(path: Path) | IsADirectory(path: Path)
    | NotText(path: Path) | Malformed | ReportCorrupted

  /** What is there after a part of a run, whether it went through or a fault stopped it. */
  datatype Outcome<+S> = Done(state: S) | Stopped(state: S, fault: Fault)

  function FaultOf<S>(o: Outcome<S>): Option<Fault> {
    match o
    case Done(_) => None
    case Stopped(_, f) => Some(f)
  }

  /** Who runs the client, which paths are on the file system of the extraction directory, and which ids the server's
      users and groups have here: extracting sets owners by name. */
  datatype Runner = Runner(sameFs: Path -> bool, uid: nat, gid: nat, uidOf: nat -> nat, gidOf: nat -> nat)

  /** A member once it is extracted. */
  function Extracted(run: Runner, n: Node): Node {
    n.(uid := run.uidOf(n.uid), gid := run.gidOf(n.gid))
  }

  /******* added files *******/

  /** What `extractall` leaves for a directory that is only implied by a member below it. */
  const IMPLIED_DIR: Node := Node(0x41ed, 0, 0, "", 0, 2, 0, 0, 0, 0, 0)

  function Ancestors(p: Path): set<Path> {
    {"/"} + set i | 0 < i < |p| && p[i] == '/' :: p[..i]
  }

  function ImpliedDirs(added: Disk): set<Path> {
    set p, b | p in added && b in Ancestors(p) :: b
  }

  /** The tree under ADDED once the archive is extracted. */
  function ExtractedTree(run: Runner, added: Disk): Disk {
    (map a | a in ImpliedDirs(added) :: IMPLIED_DIR) + ExtractedMembers(run, added)
  }

  function ExtractedMembers(run: Runner, members: Disk): Disk {
    map p | p in members :: Extracted(run, members[p])
  }

  /** A file that `shutil.move` puts at p: renamed within a file system, copied from another one. The copy has content,
      permissions and times, but belongs to the runner, or to the owner of the file it was written over. */
  function Landed(run: Runner, disk: Disk, p: Path, node: Node): Node {
    if run.sameFs(p) then node
    else if p in disk then node.(uid := disk[p].uid, gid := disk[p].gid)
    else node.(uid := run.uid, gid := run.gid)
  }

  /** One entry of the walk: a directory is made unless something has its name, a file overwrites;
      a file whose name is a directory's goes into that directory. */
  function MoveOne(run: Runner, disk: Disk, p: Path, node: Node): Outcome<Disk> {
    if p != "/" && !(Parent(p) in disk && IsDir(disk[Parent(p)])) then Stopped(disk, NotADirectory(p))
    else if IsDir(node) then Done(if p in disk then disk else disk[p := node])
    else if p in disk && IsDir(disk[p]) then
      var inside := AsPrefix(p) + BaseName(p);
      if inside in disk then Stopped(disk, AlreadyExists(inside))
          else Done(disk[inside := Landed(run, disk, inside, node)])
    else Done(disk[p := Landed(run, disk, p, node)])
  }

  function MoveAll(run: Runner, tree: Disk, walk: seq<Path>, disk: Disk): Outcome<Disk>
    requires forall p :: p in walk ==> p in tree
  {
    if walk == [] then Done(disk)
    else match MoveAll(run, tree, walk[..|walk| - 1], disk)
         case Stopped(d, f) => Stopped(d, f)
         case Done(d) => MoveOne(run, d, walk[|walk| - 1], tree[walk[|walk| - 1]])
  }

  /** `os.walk`: every entry once, a directory before what is in it. */
  ghost predicate WalkOf(walk: seq<Path>, tree: Disk) {
    && (forall p :: p in walk <==> p in tree)
    && (forall i, j :: 0 <= i < |walk| && 0 <= j < |walk| && i != j ==> walk[i] != walk[j])
    && (forall i, j :: 0 <= i < |walk| && 0 <= j < |walk| && i != j && IsUnder(walk[i], walk[j]) ==> i < j)
  }

  /******* changed files *******/

  /** The client's disk, and what is left of the extracted CHANGED directory. */
  datatype Work = Work(disk: Disk, staged: Disk)

  function ApplyContent(w: World, run: Runner, dry: bool, st: Work, path: Path): Outcome<Work> {
    if IsFileOn(st.staged, path + PATCH_EXT) then
      var rest := st.staged - {path + PATCH_EXT};
      if dry then Done(Work(st.disk, rest))
      else if path !in st.disk then Stopped(st, Missing(path))
      else if !IsFile(st.disk[path]) then Stopped(st, IsADirectory(path))
      else if !w.decodes(st.disk[path].content) then Stopped(st, NotText(path))
      else
        var patched := w.applyPatch(st.staged[path + PATCH_EXT].content, st.disk[path].content);
        Done(Work(st.disk[path := st.disk[path].(content := patched)], rest))
    else if IsFileOn(st.disk, path) then
      if dry then Done(st)
      else if path !in st.staged then Stopped(st, Missing(path))
      else Done(Work(st.disk[path := Landed(run, st.disk, path, st.staged[path])], st.staged - {path}))
    else Done(st)
  }

  function ApplyPermissions(dry: bool, disk: Disk, path: Path, property: string): Outcome<Disk> {
    match GetNewOld(property)
    case None => Stopped(disk, Malformed)
    case Some((new_, old_)) =>
      if old_ == "." then Done(disk)
      else match ParseInt(new_, 8)
           case None => Stopped(disk, Malformed)
           case Some(mode) =>
             if dry then Done(disk)
             else if path !in disk then Stopped(disk, Missing(path))
             else if mode < 0 then Stopped(disk, Malformed)
             else Done(disk[path := Chmod(disk[path], mode)])
  }

  /** The id given to `chown`: -1 leaves the id alone, None is no number at all. */
  function NewId(change: (string, string)): Option<int> {
    if change.1 == "." then Some(-1) else ParseInt(change.0, 10)
  }

  /** A `chown` that fails is only logged. */
  function Chown(disk: Disk, path: Path, uid: Option<int>, gid: Option<int>): Disk {
    if path in disk && uid.Some? && gid.Some? && uid.value >= -1 && gid.value >= -1 then
      var node := disk[path];
      disk[path := node.(uid := if uid.value == -1 then node.uid else uid.value,
                         gid := if gid.value == -1 then node.gid else gid.value)]
    else disk
  }

  function ApplyOwner(dry: bool, disk: Disk, path: Path, uid: string, gid: string): Outcome<Disk> {
    match (GetNewOld(uid), GetNewOld(gid))
    case (Some(u), Some(g)) => Done(if dry then disk else Chown(disk, path, NewId(u), NewId(g)))
    case _ => Stopped(disk, Malformed)
  }

  function ApplyRow(w: World, run: Runner, dry: bool, st: Work, values: seq<string>): Outcome<Work>
    requires |values| == COLUMN_COUNT
  {
    var path := values[0];
    var content :=
      if values[4] == "f" && (values[5] == "<" || values[5] == ">")
      then ApplyContent(w, run, dry, st, path)
      else Done(st);
    match content
    case Stopped(c, f) => Stopped(c, f)
    case Done(c) =>
      match ApplyPermissions(dry, c.disk, path, values[8])
      case Stopped(d, f) => Stopped(Work(d, c.staged), f)
      case Done(d) =>
        match ApplyOwner(dry, d, path, values[9], values[10])
        case Stopped(e, f) => Stopped(Work(e, c.staged), f)
        case Done(e) => Done(Work(e, c.staged))
  }

  function ApplyLine(w: World, host: Host, run: Runner, dry: bool, st: Work, raw: string): Outcome<Work> {
    match ReadLine(raw, COLUMN_COUNT, host)
    case Blank => Done(st)
    case Comment => Done(st)
    case ForeignSystem => Stopped(st, ReportCorrupted)
    case Corrupted(_) => Stopped(st, ReportCorrupted)
    case Values(values) =>
      if |values| == COLUMN_COUNT then ApplyRow(w, run, dry, st, values) else Stopped(st, ReportCorrupted)
  }

  function ApplyLines(w: World, host: Host, run: Runner, dry: bool, st: Work, lines: seq<string>): Outcome<Work> {
    if lines == [] then Done(st)
    else match ApplyLines(w, host, run, dry, st, lines[..|lines| - 1])
         case Stopped(s, f) => Stopped(s, f)
         case Done(s) => ApplyLine(w, host, run, dry, s, lines[|lines| - 1])
  }

  /******* removed files *******/

  /** `os.remove` deletes files only. */
  function RemoveOne(dry: bool, disk: Disk, path: Path): Outcome<Disk> {
    if dry then Done(disk)
    else if path !in disk then Stopped(disk, Missing(path))
    else if IsDir(disk[path]) then Stopped(disk, IsADirectory(path))
    else Done(disk - {path})
  }

  function RemoveLine(host: Host, dry: bool, disk: Disk, raw: string): Outcome<Disk> {
    match ReadLine(raw, 2, host)
    case Blank => Done(disk)
    case Comment => Done(disk)
    case ForeignSystem => Stopped(disk, ReportCorrupted)
    case Corrupted(_) => Stopped(disk, ReportCorrupted)
    case Values(values) => if |values| == 2 then RemoveOne(dry, disk, values[0]) else Stopped(disk, ReportCorrupted)
  }

  function RemoveLines(host: Host, dry: bool, disk: Disk, lines: seq<string>): Outcome<Disk> {
    if lines == [] then Done(disk)
    else match RemoveLines(host, dry, disk, lines[..|lines| - 1])
         case Stopped(d, f) => Stopped(d, f)
         case Done(d) => RemoveLine(host, dry, d, lines[|lines| - 1])
  }

  /******* loops that stop at the first fault *******/

  lemma {:induction false} MoveStays(run: Runner, tree: Disk, walk: seq<Path>, disk: Disk, i: nat)
    requires i <= |walk| && forall p :: p in walk ==> p in tree
    ensures MoveAll(run, tree, walk[..i], disk).Stopped? ==>
              MoveAll(run, tree, walk, disk) == MoveAll(run, tree, walk[..i], disk)
    decreases |walk| - i
  {
    if i < |walk| {
      assert walk[..i + 1][..i] == walk[..i];
      MoveStays(run, tree, walk, disk, i + 1);
    } else {
      assert walk[..i] == walk;
    }
  }

  lemma {:induction false} LinesStay(w: World, host: Host, run: Runner, dry: bool, st: Work, lines: seq<string>, i: nat)
    requires i <= |lines|
    ensures ApplyLines(w, host, run, dry, st, lines[..i]).Stopped? ==>
              ApplyLines(w, host, run, dry, st, lines) == ApplyLines(w, host, run, dry, st, lines[..i])
    decreases |lines| - i
  {
    if i < |lines| {
      assert lines[..i + 1][..i] == lines[..i];
      LinesStay(w, host, run, dry, st, lines, i + 1);
    } else {
      assert lines[..i] == lines;
    }
  }

  lemma {:induction false} RemovalStays(host: Host, dry: bool, disk: Disk, lines: seq<string>, i: nat)
    requires i <= |lines|
    ensures RemoveLines(host, dry, disk, lines[..i]).Stopped? ==>
              RemoveLines(host, dry, disk, lines) == RemoveLines(host, dry, disk, lines[..i])
    decreases |lines| - i
  {
    if i < |lines| {
      assert lines[..i + 1][..i] == lines[..i];
      RemovalStays(host, dry, disk, lines, i + 1);
    } else {
      assert lines[..i] == lines;
    }
  }

  /** Reading added.txt once more for the packages of the files. */
  predicate ReportReads(lines: seq<string>, n: nat, host: Host) {
    forall i :: 0 <= i < |lines| ==>
      !ReadLine(lines[i], n, host).ForeignSystem? && !ReadLine(lines[i], n, host).Corrupted?
  }

  /** The package a line of added.txt names, if it is known. */
  function PackageIn(raw: string, host: Host): Option<string> {
    match ReadLine(raw, 2, host)
    case Values(values) => if |values| == 2 && values[1] != "?" then Some(values[1]) else None
    case _ => None
  }

  function PackagesIn(lines: seq<string>, host: Host): set<string> {
    set i | 0 <= i < |lines| && PackageIn(lines[i], host).Some? :: PackageIn(lines[i], host).value
  }

  /** What a run, dry or not, does to a disk the image was accepted for: the three parts in their order. */
  function ApplyParts(w: World, host: Host, run: Runner, dry: bool, image: Image, walk: seq<Path>,
                      disk: Disk): Outcome<Disk>
    requires forall p :: p in walk ==> p in ExtractedTree(run, image.added)
  {
    match if dry then Done(disk) else MoveAll(run, ExtractedTree(run, image.added), walk, disk)
    case Stopped(d, f) => Stopped(d, f)
    case Done(d1) =>
      if !ReportReads(image.addedTxt, 2, host) then Stopped(d1, ReportCorrupted)
      else match ApplyLines(w, host, run, dry, Work(d1, ExtractedMembers(run, image.changed)), image.changedTxt)
           case Stopped(work, f) => Stopped(work.disk, f)
           case Done(work) => RemoveLines(host, dry, work.disk, image.removedTxt)
  }

  /** Why a run does not get as far as touching the disk. */
  function RefusalOf(w: World, host: Host, force: bool, version: nat, images: map<string, ImageFile>,
                     extracted: set<string>, disk: Disk, target: nat): Option<Fault>
  {
    var name := ImageName(version, target);
    if version >= target then Some(NotNewer)
    else if name !in images then Some(NoSuchImage)
    else match ValidateFile(w, host, images[name], disk, force)
         case Some(why) => Some(Rejected(why))
         case None => if name in extracted && !force then Some(LeftoverDirectory) else None
  }

  lemma OneMorePackage(lines: seq<string>, host: Host, i: nat)
    requires i < |lines|
    ensures PackagesIn(lines[..i + 1], host) ==
              PackagesIn(lines[..i], host)
              + if PackageIn(lines[i], host).Some? then {PackageIn(lines[i], host).value} else {}
  {
    hide PackageIn;
    var longer := lines[..i + 1];
    assert forall k :: 0 <= k < i ==> longer[k] == lines[..i][k];
    forall x ensures x in PackagesIn(longer, host) <==>
                     x in PackagesIn(lines[..i], host) || PackageIn(lines[i], host) == Some(x)
    {
      if PackageIn(lines[i], host) == Some(x) {
        assert longer[i] == lines[i];
      }
      if x in PackagesIn(lines[..i], host) {
        var k :| 0 <= k < i && PackageIn(lines[..i][k], host) == Some(x);
        assert longer[k] == lines[..i][k];
      }
    }
  }

  class SysImgExtractor {
    const world: World
    const host: Host
    const runner: Runner
    const dryRun: bool
    const validator: SysImgValidator
    const imgVerFile: VersionFile
    /** The download directory: images by their file names. */
    const images: map<string, ImageFile>
    var disk: Disk
    /** What is left of CHANGED below the extraction directory. */
    var staged: Disk
    /** The extraction directories that are there, by the names of their images. */
    var extracted: set<string>

    ghost predicate Valid() reads this, validator {
      validator.world == world && validator.host == host && imgVerFile.startingValue == 0
    }

    constructor (world: World, host: Host, runner: Runner, forceApply: bool, dryRun: bool, imgVerFile: VersionFile,
                 images: map<string, ImageFile>, disk: Disk)
      requires imgVerFile.startingValue == 0
      ensures Valid() && fresh(validator)
      ensures this.world == world && this.host == host && this.runner == runner
      ensures this.dryRun == dryRun && validator.forceApply == forceApply
      ensures this.imgVerFile == imgVerFile && this.images == images && this.disk == disk && extracted == {}
    {
      this.world, this.host, this.runner, this.dryRun := world, host, runner, dryRun;
      this.validator := new SysImgValidator(world, host, forceApply);
      this.imgVerFile, this.images, this.disk := imgVerFile, images, disk;
      this.staged, this.extracted := map[], {};
    }

    /******* added files *******/

    method MoveTree(tree: Disk, walk: seq<Path>) returns (r: Option<Fault>)
      requires WalkOf(walk, tree)
      modifies this`disk
      ensures dryRun ==> r == None && disk == old(disk)
      ensures !dryRun ==> var o := MoveAll(runner, tree, walk, old(disk)); r == FaultOf(o) && disk == o.state
    {
      if dryRun {
        return None;
      }
      hide MoveOne;
      for i := 0 to |walk|
        invariant MoveAll(runner, tree, walk[..i], old(disk)) == Done(disk)
      {
        assert walk[..i + 1][..i] == walk[..i];
        MoveStays(runner, tree, walk, old(disk), i + 1);
        var step := MoveOne(runner, disk, walk[i], tree[walk[i]]);
        disk := step.state;
        if step.Stopped? {
          return Some(step.fault);
        }
      }
      assert walk[..|walk|] == walk;
      r := None;
    }

    /** Reads added.txt for the packages of the added files. */
    method GetPackagesOfAddedFiles(lines: seq<string>) returns (r: Option<Fault>, packages: set<string>)
      ensures r == if ReportReads(lines, 2, host) then None else Some(ReportCorrupted)
      ensures r == None ==> packages == PackagesIn(lines, host)
    {
      hide ReadLine;
      packages := {};
      for i := 0 to |lines|
        invariant ReportReads(lines[..i], 2, host) && packages == PackagesIn(lines[..i], host)
      {
        OneMorePackage(lines, host, i);
        match ReadLine(lines[i], 2, host) {
          case Blank =>
          case Comment =>
          case ForeignSystem => return Some(ReportCorrupted), packages;
          case Corrupted(_) => return Some(ReportCorrupted), packages;
          case Values(values) =>
            if |values| == 2 && values[1] != "?" {
              packages := packages + {values[1]};
            }
        }
      }
      assert lines[..|lines|] == lines;
      r := None;
    }

    method ApplyAddedFiles(image: Image, walk: seq<Path>) returns (r: Option<Fault>)
      requires WalkOf(walk, ExtractedTree(runner, image.added))
      modifies this`disk
      ensures var o := if dryRun then Done(old(disk))
                else MoveAll(runner, ExtractedTree(runner, image.added), walk, old(disk));
              && disk == o.state
              && r == if o.Done? && !ReportReads(image.addedTxt, 2, host) then Some(ReportCorrupted) else FaultOf(o)
    {
      hide MoveAll, ReportReads, ExtractedTree;
      r := MoveTree(ExtractedTree(runner, image.added), walk);
      if r == None {
        var packages;
        r, packages := GetPackagesOfAddedFiles(image.addedTxt);
      }
    }

    /******* changed files *******/

    method ApplyChangedFile(path: Path) returns (r: Option<Fault>)
      modifies this`disk, this`staged
      ensures var o := ApplyContent(world, runner, dryRun, Work(old(disk), old(staged)), path);
              r == FaultOf(o) && disk == o.state.disk && staged == o.state.staged
      ensures dryRun ==> disk == old(disk)
    {
      var diffPath := path + PATCH_EXT;
      if IsFileOn(staged, diffPath) {
        if !dryRun {
          if path !in disk {
            return Some(Missing(path));
          }
          if !IsFile(disk[path]) {
            return Some(IsADirectory(path));
          }
          if !world.decodes(disk[path].content) {
            return Some(NotText(path));
          }
          var patched := world.applyPatch(staged[diffPath].content, disk[path].content);
          disk := disk[path := disk[path].(content := patched)];
        }
        staged := staged - {diffPath};
      } else if IsFileOn(disk, path) {
        if !dryRun {
          if path !in staged {
            return Some(Missing(path));
          }
          disk := disk[path := Landed(runner, disk, path, staged[path])];
          staged := staged - {path};
        }
      }
      r := None;
    }

    method ChangeFilePermissions(property: string, path: Path) returns (r: Option<Fault>)
      modifies this`disk
      ensures var o := ApplyPermissions(dryRun, old(disk), path, property); r == FaultOf(o) && disk == o.state
      ensures dryRun ==> disk == old(disk)
    {
      hide GetNewOld, ParseInt;
      var change := GetNewOld(property);
      if change.None? {
        return Some(Malformed);
      }
      var (newPerm, oldPerm) := change.value;
      if oldPerm != "." {
        var mode := ParseInt(newPerm, 8);
        if mode.None? {
          return Some(Malformed);
        }
        if !dryRun {
          if path !in disk {
            return Some(Missing(path));
          }
          if mode.value < 0 {
            return Some(Malformed);
          }
          disk := disk[path := Chmod(disk[path], mode.value)];
        }
      }
      r := None;
    }

    method ChangeFileUidGid(uid: string, gid: string, path: Path) returns (r: Option<Fault>)
      modifies this`disk
      ensures var o := ApplyOwner(dryRun, old(disk), path, uid, gid); r == FaultOf(o) && disk == o.state
      ensures dryRun ==> disk == old(disk)
    {
      hide GetNewOld, NewId;
      var u, g := GetNewOld(uid), GetNewOld(gid);
      if u.None? || g.None? {
        return Some(Malformed);
      }
      if !dryRun {
        disk := Chown(disk, path, NewId(u.value), NewId(g.value));
      }
      r := None;
    }

    method ChangedFilesPerLine(values: seq<string>) returns (r: Option<Fault>)
      requires |values| == COLUMN_COUNT
      modifies this`disk, this`staged
      ensures var o := ApplyRow(world, runner, dryRun, Work(old(disk), old(staged)), values);
              r == FaultOf(o) && disk == o.state.disk && staged == o.state.staged
      ensures dryRun ==> disk == old(disk)
    {
      hide ApplyContent, ApplyPermissions, ApplyOwner;
      var path := values[0];
      if values[4] == "f" && (values[5] == "<" || values[5] == ">") {
        r := ApplyChangedFile(path);
        if r.Some? {
          return;
        }
      }
      r := ChangeFilePermissions(values[8], path);
      if r.Some? {
        return;
      }
      r := ChangeFileUidGid(values[9], values[10], path);
    }

    method ApplyChangedFiles(lines: seq<string>) returns (r: Option<Fault>)
      modifies this`disk, this`staged
      ensures var o := ApplyLines(world, host, runner, dryRun, Work(old(disk), old(staged)), lines);
              r == FaultOf(o) && disk == o.state.disk && staged == o.state.staged
      ensures dryRun ==> disk == old(disk)
    {
      hide ApplyRow, ReadLine;
      for i := 0 to |lines|
        invariant ApplyLines(world, host, runner, dryRun, Work(old(disk), old(staged)), lines[..i])
                    == Done(Work(disk, staged))
        invariant dryRun ==> disk == old(disk)
      {
        assert lines[..i + 1][..i] == lines[..i];
        LinesStay(world, host, runner, dryRun, Work(old(disk), old(staged)), lines, i + 1);
        match ReadLine(lines[i], COLUMN_COUNT, host) {
          case Blank =>
          case Comment =>
          case ForeignSystem => return Some(ReportCorrupted);
          case Corrupted(_) => return Some(ReportCorrupted);
          case Values(values) =>
            if |values| != COLUMN_COUNT {
              return Some(ReportCorrupted);
            }
            r := ChangedFilesPerLine(values);
            if r.Some? {
              return;
            }
        }
      }
      assert lines[..|lines|] == lines;
      r := None;
    }

    /******* removed files *******/

    method ApplyRemovedFiles(lines: seq<string>) returns (r: Option<Fault>)
      modifies this`disk
      ensures var o := RemoveLines(host, dryRun, old(disk), lines); r == FaultOf(o) && disk == o.state
      ensures dryRun ==> disk == old(disk)
    {
      hide ReadLine;
      for i := 0 to |lines|
        invariant RemoveLines(host, dryRun, old(disk), lines[..i]) == Done(disk)
        invariant dryRun ==> disk == old(disk)
      {
        assert lines[..i + 1][..i] == lines[..i];
        RemovalStays(host, dryRun, old(disk), lines, i + 1);
        match ReadLine(lines[i], 2, host) {
          case Blank =>
          case Comment =>
          case ForeignSystem => return Some(ReportCorrupted);
          case Corrupted(_) => return Some(ReportCorrupted);
          case Values(values) =>
            if |values| != 2 {
              return Some(ReportCorrupted);
            }
            var step := RemoveOne(dryRun, disk, values[0]);
            disk := step.state;
            if step.Stopped? {
              return Some(step.fault);
            }
        }
      }
      assert lines[..|lines|] == lines;
      r := None;
    }

    /******* the whole run *******/

    /** The version the client is at; a client without a version file is at the start. */
    function CurrentVersion(): (v: Result<nat, VersionError>)
      reads imgVerFile
    {
      if imgVerFile.content == None then Ok(0)
      else match Parsed(imgVerFile.content, 0)
           case Ok(v) => Ok(v)
           case Err(e) => Err(e)
    }

    /** `walk` is the order in which the extracted tree of the image will be walked. */
    ghost predicate Walks(target: nat, walk: seq<Path>)
      reads imgVerFile
    {
      var v := CurrentVersion();
      var name := ImageName(if v.Ok? then v.value else 0, target);
      v.Ok? && name in images && images[name].Readable? ==>
        WalkOf(walk, ExtractedTree(runner, images[name].archive.added))
    }

    function Refusal(target: nat): Option<Fault>
      reads this, imgVerFile, validator
    {
      match CurrentVersion()
      case Err(e) => Some(BadVersionFile(e))
      case Ok(v) => RefusalOf(world, host, validator.forceApply, v, images, extracted, disk, target)
    }

    /** The three parts of an image that was extracted. */
    method ApplyExtracted(image: Image, walk: seq<Path>) returns (r: Option<Fault>)
      requires WalkOf(walk, ExtractedTree(runner, image.added)) && staged == ExtractedMembers(runner, image.changed)
      modifies this`disk, this`staged
      ensures var o := ApplyParts(world, host, runner, dryRun, image, walk, old(disk));
              disk == o.state && r == FaultOf(o)
      ensures dryRun ==> disk == old(disk)
    {
      hide ApplyLines, RemoveLines, MoveAll, ExtractedTree, ReportReads;
      r := ApplyAddedFiles(image, walk);
      if r.Some? {
        return;
      }
      r := ApplyChangedFiles(image.changedTxt);
      if r.Some? {
        return;
      }
      r := ApplyRemovedFiles(image.removedTxt);
    }

    /** Applies the image from the current version to the target. A refused run and a dry run leave the disk alone;
        a run that fails leaves the version alone and its extraction directory behind, and the disk as it was when the
        fault occurred; a run that succeeds, unless dry, moves the version up to the target. */
    method ApplySysImg(target: nat, walk: seq<Path>) returns (r: Option<Fault>)
      requires Valid() && Walks(target, walk)
      modifies this, validator, imgVerFile
      ensures Valid()
      ensures match old(Refusal(target))
              case Some(fault) => r == Some(fault) && disk == old(disk) && extracted == old(extracted)
              case None =>
                && old(CurrentVersion()).Ok? && old(CurrentVersion()).value < target
                && var name := ImageName(old(CurrentVersion()).value, target);
                && name in images && images[name].Readable? && Complete(images[name].archive)
                && var o := ApplyParts(world, host, runner, dryRun, Filled(images[name].archive), walk, old(disk));
                && disk == o.state && r == FaultOf(o)
                && extracted == (if o.Done? then old(extracted) - {name} else old(extracted) + {name})
                && CurrentVersion() == if dryRun || o.Stopped? then old(CurrentVersion()) else Ok(target)
      ensures dryRun ==> disk == old(disk)
      ensures dryRun || r.Some? ==> CurrentVersion() == old(CurrentVersion())
    {
      hide ApplyParts, ValidateArchive, ExtractedTree, Parsed, ImageName, ParseImageName, Complete;
      var version := imgVerFile.Parse(true);
      WrittenIsRead(0, 0);
      if version.Err? {
        return Some(BadVersionFile(version.error));
      }
      if version.value >= target {
        return Some(NotNewer);
      }
      var name := ImageName(version.value, target);
      if name !in images {
        return Some(NoSuchImage);
      }
      ImageNameParses(version.value, target);
      var targetVersion := ParseImageName(name).value.1;
      if images[name].Torn? {
        return Some(Rejected(ArchiveUnreadable));
      }
      var archive := images[name].archive;
      OnlyCompleteIsAccepted(world, host, archive, disk, validator.forceApply);
      var rejection := validator.AssertSysImgValid(archive, disk);
      if rejection.Some? {
        return Some(Rejected(rejection.value));
      }
      if name in extracted && !validator.forceApply {
        return Some(LeftoverDirectory);
      }
      var image := Filled(archive);
      extracted := extracted + {name};
      staged := ExtractedMembers(runner, image.changed);
      r := ApplyExtracted(image, walk);
      if r.Some? {
        return;
      }
      if !dryRun {
        imgVerFile.SetValue(targetVersion);
        WrittenIsRead(targetVersion, 0);
      }
      extracted := extracted - {name};
    }
  }
}
