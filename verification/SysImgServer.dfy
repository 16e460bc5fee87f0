/** `myscm-srv --gen-img`: which snapshot an image starts from, which one its name says it leads to, when none is made,
    and what stays under its name. */
module SysImgServer {
  import opened Text
  import opened Paths
  import opened FileTree
  import opened ImageNames
  import opened SysImgGenerator
  import opened VersionFiles
  import opened AideDbManager
  import opened DeltaAdded
  import opened Fleet

  datatype ServerError = NoDatabase(why: DbError) | NotGenerated(error: GenerateError)

  /** The name of the file, with the version that was read for the target, a number or -1. */
  function NameFor(source: nat, target: int): string {
    IMAGE_PREFIX + "." + IntText(source) + "." + IntText(target) + IMAGE_EXT
  }

  /** The archived scan an image starts from. */
  function ArchivedSnapshot(dirs: Dirs, source: int): Snapshot
    requires ClientDb(dirs, source).Ok?
  {
    SnapshotOf(Saved(ClientDb(dirs, source).value, dirs[OldName(source)].copied))
  }

  /** Whatever the directories and the version file hold: nothing is written without the client's database or on a disk
      that is not the scanned one; else the file is written, whole or as far as it came, under the number read from the
      version file. `files` are those in the output directory. */
  method GenImg(w: World, manager: AideDatabasesManager, source: int, tracked: Disk, disk: Disk, report: Report,
                files: map<string, ImageFile>)
    returns (r: Result<Option<string>, ServerError>, left: map<string, ImageFile>)
    requires manager.dbVerFile.startingValue == -1
    requires ClientDb(manager.dirs, source).Ok? ==> ReportFits(report, ArchivedSnapshot(manager.dirs, source), disk)
    modifies manager.dbVerFile
    ensures manager.dbVerFile.content == old(manager.dbVerFile.content)
    ensures ClientDb(manager.dirs, source).Err? ==>
              r == Err(NoDatabase(ClientDb(manager.dirs, source).error)) && left == files
    ensures ClientDb(manager.dirs, source).Ok? && !UpToDate(manager.dirs, tracked) ==> r == Ok(None) && left == files
    ensures ClientDb(manager.dirs, source).Ok? && UpToDate(manager.dirs, tracked) ==>
              var name := NameFor(source, VersionOrInitial(manager.dbVerFile.content));
              var base := ArchivedSnapshot(manager.dirs, source);
              && left == files[name := FileOf(LeftBy(w, base, disk, report))]
              && r == match Generate(w, base, disk, report)
                      case Ok(_) => Ok(Some(name))
                      case Err(e) => Err(NotGenerated(e))
  {
    hide Parsed, Generate, LeftBy, SameDatabase, OldName, NameFor;
    var target := manager.GetRecentAideDbVersion();
    var database := manager.GetClientDb(source);
    if database.Err? {
      return Err(NoDatabase(database.error)), files;
    }
    if !UpToDate(manager.dirs, tracked) {
      return Ok(None), files;
    }
    var copied := manager.GetCopied(source);
    var image, archive := GenerateImage(w, SnapshotOf(Saved(database.value, copied)), disk, report);
    var name := NameFor(source, target.value);
    left := files[name := FileOf(archive)];
    r := if image.Ok? then Ok(Some(name)) else Err(NotGenerated(image.error));
  }

  /** Under the layout all completed scans leave, that is: some scan but the last, and the disk as the last one saw
      it. */
  lemma SourceAndDiskExact(dirs: Dirs, history: seq<Saved>, source: int, tracked: Disk)
    requires LayoutOf(dirs, history)
    ensures ClientDb(dirs, source).Ok? <==> 0 <= source < |history| - 1
    ensures ClientDb(dirs, source).Ok? ==>
              && ArchivedSnapshot(dirs, source) == SnapshotOf(history[source])
              && (UpToDate(dirs, tracked) <==> SameDatabase(history[|history| - 1].database, tracked))
  {
    ClientDbExact(dirs, history, source);
    hide OldName, SameDatabase;
  }

  /** The name tells source and target, unless no version could be read: then it is no image's name. */
  lemma NameForParses(source: nat, target: int)
    requires target >= -1
    ensures ParseImageName(NameFor(source, target)) == if target >= 0 then Some((source, target)) else None
  {
    hide ParseImageName, IntText;
    if target >= 0 {
      ImageNameParses(source, target);
    } else {
      MinusIsNoNumber(source);
    }
  }

  lemma MinusIsNoNumber(source: nat)
    ensures ParseImageName(NameFor(source, -1)) == None
  {
    var a := IntText(source);
    assert IntText(-1) == "-1";
    var name := NameFor(source, -1);
    assert name == IMAGE_PREFIX + "." + (a + "." + "-1") + IMAGE_EXT;
    assert Framed(name) ==> name[10..|name| - 7] == a + "." + "-1";
    if Framed(name) {
      NoSecondGroup(a, |a + "." + "-1"|);
    }
  }

  lemma {:induction false} NoSecondGroup(a: string, n: nat)
    requires n <= |a + "." + "-1"|
    ensures Groups(a + "." + "-1", n) == None
  {
    var s := a + "." + "-1";
    if n > 0 {
      NoSecondGroup(a, n - 1);
      if n <= |a| {
        assert s[n + 1..][|a| - n] == '-';
      } else {
        assert s[..n][|a|] == '.';
      }
    }
  }

  /** A version file that says 0 names an image from snapshot 1 as one that leads back; one that says nothing gives a
      name that is none. */
  lemma StaleFileMisnames()
    ensures NameFor(1, VersionOrInitial(Some("0"))) == ImageName(1, 0)
    ensures ParseImageName(NameFor(1, VersionOrInitial(Some("x")))) == None
  {
    hide ParseImageName;
    assert IntText(0) == "0";
    WrittenIsRead(0, -1);
    NoNumberIsRead();
    NameForParses(1, -1);
  }

  lemma NoNumberIsRead()
    ensures VersionOrInitial(Some("x")) == -1
  {
    var text := "x";
    assert LineEnd(text) == 1 && text[..1] == text;
    StripTrimmed(text);
  }

  /** When the name is right, the version file holding what it may: the source is below the target, the target is a
      scan, and a whole image leads to it because the disk is as that scan saw it. */
  lemma NameIsRightExact(env: Env, s: State, source: nat, report: Report, target: int)
    requires Safe(env, s) && source < |s.history| - 1 && ServerUpToDate(env, s) && target >= -1
    requires ReportOf(report, s.history[source].database, TrackedOn(env, s.disk))
    requires ReportFits(report, SnapshotOf(s.history[source]), s.disk)
    ensures target >= 0 && Fits(env, s.history, source, target, Generated(env, s, source, report))
       <==> && source < target < |s.history|
            && (Generated(env, s, source, report).whole ==>
                  SameDatabase(s.history[target].database, TrackedOn(env, s.disk)))
  {
    hide Safe, ReportOf, ReportFits, Generate, SameDatabase, ServerUpToDate, LeftBy, TrackedOn, Origin;
    var made := Generated(env, s, source, report);
    GeneratedFits(env, s, source, report);
    if source < target < |s.history| && !made.whole {
      RemainsFit(env, s.history, source, target, made);
    }
  }

  /** With the version file as the scans leave it the name is right, and the generation is a step of the fleet. */
  lemma GenerationIsStep(env: Env, manager: AideDatabasesManager, s: State, source: int, report: Report)
    requires manager.Valid() && s.history == manager.history && ClientDb(manager.dirs, source).Ok?
    requires UpToDate(manager.dirs, TrackedOn(env, s.disk))
    requires ReportOf(report, ArchivedSnapshot(manager.dirs, source).files, TrackedOn(env, s.disk))
    requires ReportFits(report, ArchivedSnapshot(manager.dirs, source), s.disk)
    ensures 0 <= source < |s.history| - 1 && ReportFits(report, SnapshotOf(s.history[source]), s.disk)
    ensures VersionOrInitial(manager.dbVerFile.content) == |s.history| - 1
    ensures var name := NameFor(source, VersionOrInitial(manager.dbVerFile.content));
            var t := s.(published := s.published[name := Generated(env, s, source, report)]);
            && Next(env, s, Action.GenImg(source, report), t)
            && FilesIn(t.published) == FilesIn(s.published)[name :=
                 FileOf(LeftBy(env.w, ArchivedSnapshot(manager.dirs, source), s.disk, report))]
  {
    hide LayoutOf, UpToDate, ReportOf, ReportFits, SameDatabase, LeftBy, Generate, TrackedOn, ArchivedSnapshot,
      ClientDb;
    SourceAndDiskExact(manager.dirs, manager.history, source, TrackedOn(env, s.disk));
  }
}
