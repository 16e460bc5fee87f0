/** The changed part of an image: what is shipped for each row, and what the row does to the client's file. */
module DeltaChanged {
  import opened Text
  import opened Paths
  import opened Pruning
  import opened FileTree
  import opened ChangedReport
  import opened ReportLines
  import opened SysImgGenerator
  import opened SysImgExtractor
  import opened DeltaRows
  import opened DeltaAdded

  /******* one property of one row *******/

  lemma PermissionStep(disk: Disk, p: Path, property: string, a: Node, b: Node)
    requires p in disk && ReadsAs(property, Numeral(a.mode, 8), Numeral(b.mode, 8))
    requires disk[p].mode / KIND_UNIT == b.mode / KIND_UNIT && (a.mode == b.mode ==> disk[p].mode == b.mode)
    ensures ApplyPermissions(false, disk, p, property) == Done(disk[p := disk[p].(mode := b.mode)])
  {
    hide GetNewOld, ExpectedValue, Numeral, ParseInt;
    SameNumeral(a.mode, b.mode, 8);
    NumeralIsValue(a.mode, 8);
    ParseIntNumeral(b.mode, 8);
    if a.mode == b.mode {
      assert disk[p := disk[p].(mode := b.mode)] == disk;
    } else {
      assert b.mode / KIND_UNIT * KIND_UNIT + b.mode % KIND_UNIT == b.mode;
    }
  }

  lemma IdStep(property: string, prev: nat, cur: nat)
    requires ReadsAs(property, Numeral(prev, 10), Numeral(cur, 10))
    ensures GetNewOld(property).Some?
    ensures NewId(GetNewOld(property).value) == Some(if prev == cur then -1 else cur)
  {
    hide GetNewOld, ExpectedValue, Numeral, ParseInt;
    SameNumeral(prev, cur, 10);
    NumeralIsValue(prev, 10);
    ParseIntNumeral(cur, 10);
  }

  lemma OwnerStep(disk: Disk, p: Path, uid: string, gid: string, a: Node, b: Node)
    requires p in disk && ReadsAs(uid, Numeral(a.uid, 10), Numeral(b.uid, 10))
    requires ReadsAs(gid, Numeral(a.gid, 10), Numeral(b.gid, 10))
    ensures ApplyOwner(false, disk, p, uid, gid) ==
              Done(disk[p := disk[p].(uid := if a.uid != b.uid then b.uid else disk[p].uid,
                                      gid := if a.gid != b.gid then b.gid else disk[p].gid)])
  {
    hide GetNewOld, ReadsAs, NewId;
    IdStep(uid, a.uid, b.uid);
    IdStep(gid, a.gid, b.gid);
  }

  /******* what is shipped *******/

  predicate ContentDiffers(a: Node, b: Node) {
    ContentOf(a) != ContentOf(b)
  }

  predicate ShipsPatch(base: Snapshot, now: Disk, p: Path) {
    p in base.files && p in now && ContentDiffers(base.files[p], now[p]) && p in base.copied && IsFile(base.files[p])
  }

  predicate ShipsWhole(base: Snapshot, now: Disk, p: Path) {
    p in base.files && p in now && ContentDiffers(base.files[p], now[p]) && !(p in base.copied && IsFile(base.files[p]))
  }

  /** Both versions of a file that is shipped as a patch can be read as text. */
  predicate Patchable(w: World, base: Snapshot, now: Disk, p: Path) {
    p in base.files && p in now && IsFile(now[p]) && w.decodes(base.files[p].content) && w.decodes(now[p].content)
  }

  /** The members under CHANGED after the given entries. */
  ghost predicate FilesOf(w: World, base: Snapshot, now: Disk, paths: seq<Path>, files: Disk) {
    forall p :: OrdinaryPath(p) ==>
      && (p + PATCH_EXT in files <==> p in paths && ShipsPatch(base, now, p))
      && (p + PATCH_EXT in files ==>
            files[p + PATCH_EXT] == TextNode(w.makePatch(base.files[p].content, now[p].content))
              && Patchable(w, base, now, p))
      && (p in files <==> p in paths && ShipsWhole(base, now, p))
      && (p in files ==> files[p] == now[p])
  }

  ghost predicate LinesOf(w: World, base: Snapshot, now: Disk, paths: seq<Path>, lines: seq<string>) {
    && |lines| == |paths|
    && forall i :: 0 <= i < |paths| ==>
         && paths[i] in base.files && paths[i] in now
         && RowOf(w, paths[i], base.files[paths[i]], now[paths[i]]).Ok?
         && |RowOf(w, paths[i], base.files[paths[i]], now[paths[i]]).value| == COLUMN_COUNT
         && lines[i] == PrintRow(RowOf(w, paths[i], base.files[paths[i]], now[paths[i]]).value)
  }

  lemma PatchNamesApart(p: Path, q: Path)
    requires OrdinaryPath(p) && OrdinaryPath(q)
    ensures p != q + PATCH_EXT && (p + PATCH_EXT == q + PATCH_EXT <==> p == q)
  {
    hide IsPath, IsUnder, Trimmed;
    assert (q + PATCH_EXT)[|q|..] == PATCH_EXT;
    assert EndsWith(q + PATCH_EXT, PATCH_EXT);
    if p + PATCH_EXT == q + PATCH_EXT {
      assert p == (p + PATCH_EXT)[..|p|] && q == (q + PATCH_EXT)[..|q|];
    }
  }

  ghost predicate ChangedSetting(w: World, base: Snapshot, now: Disk, paths: seq<Path>) {
    && Lawful(w) && OrdinaryDisk(now) && Distinct(paths)
    && forall p :: p in paths ==>
        p in base.files && p in now && OrdinaryPath(p) && KnownKind(base.files[p]) && KnownKind(now[p])
  }

  lemma {:induction false} ChangedPartIs(w: World, base: Snapshot, now: Disk, paths: seq<Path>)
    requires ChangedSetting(w, base, now, paths)
    ensures match AddAllChanged(w, base, now, paths)
            case Ok(part) => FilesOf(w, base, now, paths, part.files) && LinesOf(w, base, now, paths, part.lines)
            case Err(_) => exists p :: p in paths && ShipsPatch(base, now, p) && !Patchable(w, base, now, p)
    ensures AddAllChanged(w, base, now, paths).Ok? ==> forall p :: p in paths && ShipsPatch(base, now, p) ==>
              Patchable(w, base, now, p)
  {
    hide ChangedSetting, FilesOf, LinesOf, ShipsPatch, Patchable, AddChanged;
    SettingLists(w, base, now, paths);
    if paths == [] {
      NothingShipped(w, base, now);
    } else {
      var init, p := paths[..|paths| - 1], paths[|paths| - 1];
      AllButLast(w, base, now, paths);
      SettingLists(w, base, now, init);
      ChangedPartIs(w, base, now, init);
      if AddAllChanged(w, base, now, init).Ok? {
        AddChangedIs(w, base, now, init, p, AddAllChanged(w, base, now, init).value);
      }
    }
  }

  lemma SettingLists(w: World, base: Snapshot, now: Disk, paths: seq<Path>)
    requires ChangedSetting(w, base, now, paths)
    ensures forall p :: p in paths ==> p in base.files && p in now
  {
    hide Lawful, OrdinaryDisk, OrdinaryPath, KnownKind;
  }

  lemma AllButLast(w: World, base: Snapshot, now: Disk, paths: seq<Path>)
    requires ChangedSetting(w, base, now, paths) && paths != []
    ensures var init, p := paths[..|paths| - 1], paths[|paths| - 1];
            && ChangedSetting(w, base, now, init) && paths == init + [p] && p !in init
            && forall q :: q in paths <==> q in init || q == p
  {
    hide Lawful, OrdinaryDisk, OrdinaryPath, KnownKind;
  }

  lemma NothingShipped(w: World, base: Snapshot, now: Disk)
    ensures FilesOf(w, base, now, [], map[]) && LinesOf(w, base, now, [], [])
  {
    hide OrdinaryPath;
  }

  lemma AddChangedIs(w: World, base: Snapshot, now: Disk, init: seq<Path>, p: Path, part: ChangedPart)
    requires ChangedSetting(w, base, now, init + [p]) && p !in init
    requires p in base.files && p in now
    requires FilesOf(w, base, now, init, part.files) && LinesOf(w, base, now, init, part.lines)
    ensures match AddChanged(w, base, now, part, p)
            case Ok(next) =>
              && FilesOf(w, base, now, init + [p], next.files) && LinesOf(w, base, now, init + [p], next.lines)
              && (ShipsPatch(base, now, p) ==> Patchable(w, base, now, p))
            case Err(_) => ShipsPatch(base, now, p) && !Patchable(w, base, now, p)
  {
    hide Lawful, OrdinaryDisk, OrdinaryPath, FilesOf, LinesOf, PrintRow, KnownKind, EntryOf, HasTemplate, RowMeans,
      ChangedProperties;
    assert p in init + [p];
    var a, b := base.files[p], now[p];
    NoTemplates(now, p);
    RowIsRead(w, p, a, b);
    RowLength(w, p, a, b);
    ContentMark(w, p, a, b);
    LinesAppend(w, base, now, init, part.lines, p);
    FilesAppend(w, base, now, init, part.files, p);
  }

  lemma RowLength(w: World, p: Path, a: Node, b: Node)
    requires RowOf(w, p, a, b).Ok? && RowMeans(w, p, a, b, RowOf(w, p, a, b).value)
    ensures |RowOf(w, p, a, b).value| == COLUMN_COUNT
  {
  }

  lemma ContentMark(w: World, p: Path, a: Node, b: Node)
    ensures EntryOf(w, p, a, b).info[12] == 'C' <==> ContentDiffers(a, b)
  {
    hide PropertiesOf;
  }

  lemma LinesAppend(w: World, base: Snapshot, now: Disk, init: seq<Path>, lines: seq<string>, p: Path)
    requires LinesOf(w, base, now, init, lines) && p in base.files && p in now
    requires RowOf(w, p, base.files[p], now[p]).Ok? && |RowOf(w, p, base.files[p], now[p]).value| == COLUMN_COUNT
    ensures LinesOf(w, base, now, init + [p], lines + [PrintRow(RowOf(w, p, base.files[p], now[p]).value)])
  {
    hide RowOf, PrintRow;
  }

  lemma FilesAppend(w: World, base: Snapshot, now: Disk, init: seq<Path>, files: Disk, p: Path)
    requires FilesOf(w, base, now, init, files) && OrdinaryPath(p) && p !in init && p in base.files && p in now
    ensures ShipsPatch(base, now, p) && Patchable(w, base, now, p) ==>
              FilesOf(w, base, now, init + [p],
                      files[p + PATCH_EXT := TextNode(w.makePatch(base.files[p].content, now[p].content))])
    ensures ShipsWhole(base, now, p) ==> FilesOf(w, base, now, init + [p], files[p := now[p]])
    ensures !ContentDiffers(base.files[p], now[p]) ==> FilesOf(w, base, now, init + [p], files)
  {
    hide OrdinaryPath, TextNode, IsFile, ContentDiffers;
    forall q | OrdinaryPath(q)
      ensures p != q + PATCH_EXT && q != p + PATCH_EXT && (p + PATCH_EXT == q + PATCH_EXT <==> p == q)
    {
      PatchNamesApart(p, q);
      PatchNamesApart(q, p);
    }
    assert forall q :: q in init + [p] <==> q in init || q == p;
  }

  /******* what a row does *******/

  /** The row puts a whole file from the image in the place of the client's. */
  predicate Replaced(run: Runner, base: Snapshot, now: Disk, p: Path) {
    && ShipsWhole(base, now, p) && IsFile(now[p]) && Size(base.files[p]) != Size(now[p]) && run.sameFs(p)
  }

  /** The file after its row was applied to it: it has the new mode, the new content only if the size was reported as
      changed, and the new owner if that was reported as changed. Else it keeps its owner, unless a file extracted from
      the image takes its place. */
  ghost predicate Effect(run: Runner, base: Snapshot, now: Disk, p: Path, before: Node, after: Node)
    requires p in base.files && p in now
  {
    var a, b := base.files[p], now[p];
    var kept := if Replaced(run, base, now, p) then Extracted(run, b) else before;
    && after.mode == b.mode
    && after.content == (if IsFile(b) && Size(a) != Size(b) then b.content else before.content)
    && after.uid == (if a.uid != b.uid then b.uid else kept.uid)
    && after.gid == (if a.gid != b.gid then b.gid else kept.gid)
  }

  ghost predicate SameKind(a: Node, b: Node) {
    KindChar(a) == KindChar(b)
  }

  /** The files a row needs are staged. */
  ghost predicate Staged(w: World, run: Runner, base: Snapshot, now: Disk, p: Path, staged: Disk) {
    && (p + PATCH_EXT in staged <==> ShipsPatch(base, now, p))
    && (p + PATCH_EXT in staged ==>
          && staged[p + PATCH_EXT] == Extracted(run, TextNode(w.makePatch(base.files[p].content, now[p].content)))
          && Patchable(w, base, now, p))
    && (p in staged <==> ShipsWhole(base, now, p))
    && (p in staged ==> staged[p] == Extracted(run, now[p]))
  }

  /** Nothing but the file itself and the members staged for it is touched. */
  ghost predicate OnlyTouches(p: Path, before: Work, after: Work) {
    && after.disk.Keys == before.disk.Keys
    && (forall q :: q in before.disk && q != p ==> after.disk[q] == before.disk[q])
    && (forall q :: q != p && q != p + PATCH_EXT ==>
          (q in after.staged <==> q in before.staged) && (q in before.staged ==> after.staged[q] == before.staged[q]))
  }

  lemma TextNodeIsFile(run: Runner, text: string)
    ensures IsFile(Extracted(run, TextNode(text))) && Extracted(run, TextNode(text)).content == text
  {
  }

  lemma ContentStep(w: World, run: Runner, base: Snapshot, now: Disk, p: Path, st: Work) returns (after: Work)
    requires Lawful(w) && p in base.files && p in now && p in st.disk
    requires IsFile(base.files[p]) && IsFile(now[p]) && SameState(base.files[p], st.disk[p])
    requires Size(base.files[p]) != Size(now[p]) && Staged(w, run, base, now, p, st.staged)
    ensures ApplyContent(w, run, false, st, p) == Done(after) && OnlyTouches(p, st, after)
    ensures var b, c, e := now[p], st.disk[p], after.disk[p];
            var kept := if Replaced(run, base, now, p) then Extracted(run, b) else c;
            (e.mode == b.mode || e.mode == c.mode) && e.content == b.content && e.uid == kept.uid && e.gid == kept.gid
  {
    hide Lawful;
    var a, b, c := base.files[p], now[p], st.disk[p];
    assert ContentDiffers(a, b);
    TextNodeIsFile(run, w.makePatch(a.content, b.content));
    PatchLaw(w, a.content, b.content);
    assert ShipsPatch(base, now, p) || ShipsWhole(base, now, p);
    after := ApplyContent(w, run, false, st, p).state;
  }

  lemma PatchLaw(w: World, a: string, b: string)
    requires Lawful(w)
    ensures w.applyPatch(w.makePatch(a, b), a) == b
  {
  }

  lemma KindsAgree(a: Node, b: Node)
    requires KnownKind(a) && KnownKind(b)
    ensures SameKind(a, b) <==> a.mode / KIND_UNIT == b.mode / KIND_UNIT
  {
  }

  /** Applying the row of a file whose kind did not change. */
  lemma RowApplies(w: World, host: Host, run: Runner, base: Snapshot, now: Disk, p: Path, st: Work)
    returns (after: Work)
    requires Lawful(w) && p in base.files && p in now && p in st.disk && OrdinaryPath(p)
    requires KnownKind(base.files[p]) && KnownKind(now[p]) && SameKind(base.files[p], now[p])
    requires SameState(base.files[p], st.disk[p]) && Staged(w, run, base, now, p, st.staged)
    ensures RowOf(w, p, base.files[p], now[p]).Ok? && |RowOf(w, p, base.files[p], now[p]).value| == COLUMN_COUNT
    ensures ApplyLine(w, host, run, false, st, PrintRow(RowOf(w, p, base.files[p], now[p]).value)) == Done(after)
    ensures OnlyTouches(p, st, after) && Effect(run, base, now, p, st.disk[p], after.disk[p])
  {
    hide Lawful, OrdinaryPath, KnownKind, RowOf, ReadLine, PrintRow, Staged, ApplyRow, RowMeans, Reported, SameKind;
    var a, b := base.files[p], now[p];
    RowSurvives(w, p, a, b, host);
    RowIsRead(w, p, a, b);
    if Reported(a, b) {
      after := RowWorks(w, run, base, now, p, st, RowOf(w, p, a, b).value);
    } else {
      after := st;
      UnreportedIsSame(a, b);
    }
  }

  lemma UnreportedIsSame(a: Node, b: Node)
    requires !Reported(a, b)
    ensures a.mode == b.mode && a.uid == b.uid && a.gid == b.gid && (IsFile(b) ==> Size(a) == Size(b))
  {
  }

  lemma RowWorks(w: World, run: Runner, base: Snapshot, now: Disk, p: Path, st: Work, row: seq<string>)
    returns (after: Work)
    requires Lawful(w) && p in base.files && p in now && p in st.disk
    requires KnownKind(base.files[p]) && KnownKind(now[p]) && SameKind(base.files[p], now[p])
    requires SameState(base.files[p], st.disk[p]) && Staged(w, run, base, now, p, st.staged)
    requires RowMeans(w, p, base.files[p], now[p], row) && Reported(base.files[p], now[p])
    ensures |row| == COLUMN_COUNT && ApplyRow(w, run, false, st, row) == Done(after)
    ensures OnlyTouches(p, st, after) && Effect(run, base, now, p, st.disk[p], after.disk[p])
  {
    hide Lawful, Reported, Staged, ReadsAs, ApplyContent, ApplyPermissions, ApplyOwner, GetNewOld, ExpectedValue,
      HashText, Numeral, IntText;
    var a, b := base.files[p], now[p];
    KindsAgree(a, b);
    var mid := st;
    if IsFile(b) && Size(a) != Size(b) {
      mid := ContentStep(w, run, base, now, p, st);
    }
    PermissionStep(mid.disk, p, row[8], a, b);
    var disk := mid.disk[p := mid.disk[p].(mode := b.mode)];
    OwnerStep(disk, p, row[9], row[10], a, b);
    after := Work(ApplyOwner(false, disk, p, row[9], row[10]).state, mid.staged);
  }

  /******* all rows *******/

  /** The disk and the staged files once the first n rows are applied. */
  ghost predicate Applied(w: World, run: Runner, base: Snapshot, now: Disk, paths: seq<Path>, n: nat, d: Disk, st: Work)
    requires n <= |paths| && forall p :: p in paths ==> p in base.files && p in now && p in d
  {
    && st.disk.Keys == d.Keys
    && (forall q :: q in d && q !in paths[..n] ==> st.disk[q] == d[q])
    && (forall i :: 0 <= i < n ==> Effect(run, base, now, paths[i], d[paths[i]], st.disk[paths[i]]))
    && (forall i :: n <= i < |paths| ==> Staged(w, run, base, now, paths[i], st.staged))
  }

  ghost predicate RowsSetting(w: World, base: Snapshot, now: Disk, paths: seq<Path>, d: Disk) {
    && ChangedSetting(w, base, now, paths)
    && forall p :: p in paths ==> p in d && SameKind(base.files[p], now[p]) && SameState(base.files[p], d[p])
  }

  lemma AllStaged(w: World, run: Runner, base: Snapshot, now: Disk, paths: seq<Path>, d: Disk, files: Disk)
    requires RowsSetting(w, base, now, paths, d) && FilesOf(w, base, now, paths, files)
    ensures Applied(w, run, base, now, paths, 0, d, Work(d, ExtractedMembers(run, files)))
  {
    hide Lawful, OrdinaryDisk, OrdinaryPath, SameKind, SameState, KnownKind, Distinct, ShipsPatch, ShipsWhole, Effect,
      TextNode, Patchable, Extracted;
    forall i | 0 <= i < |paths| ensures Staged(w, run, base, now, paths[i], ExtractedMembers(run, files)) {
      assert OrdinaryPath(paths[i]);
    }
  }

  lemma StillStaged(w: World, run: Runner, base: Snapshot, now: Disk, p: Path, q: Path, before: Work, after: Work)
    requires OrdinaryPath(p) && OrdinaryPath(q) && p != q
    requires OnlyTouches(p, before, after) && Staged(w, run, base, now, q, before.staged)
    ensures Staged(w, run, base, now, q, after.staged)
  {
    hide OrdinaryPath, ShipsPatch, ShipsWhole, TextNode;
    PatchNamesApart(p, q);
    PatchNamesApart(q, p);
  }

  lemma {:induction false} RowsApply(w: World, host: Host, run: Runner, base: Snapshot, now: Disk, paths: seq<Path>,
                                     lines: seq<string>, d: Disk, files: Disk, n: nat)
    returns (st: Work)
    requires RowsSetting(w, base, now, paths, d)
    requires FilesOf(w, base, now, paths, files) && LinesOf(w, base, now, paths, lines)
    requires n <= |lines|
    ensures ApplyLines(w, host, run, false, Work(d, ExtractedMembers(run, files)), lines[..n]) == Done(st)
    ensures Applied(w, run, base, now, paths, n, d, st)
  {
    hide ChangedSetting, FilesOf, Applied, SameKind, SameState, ApplyLine, RowOf, PrintRow;
    if n == 0 {
      st := Work(d, ExtractedMembers(run, files));
      AllStaged(w, run, base, now, paths, d, files);
    } else {
      var before := RowsApply(w, host, run, base, now, paths, lines, d, files, n - 1);
      assert lines[..n][..n - 1] == lines[..n - 1];
      st := NextRow(w, host, run, base, now, paths, d, n - 1, before);
    }
  }

  lemma NextRow(w: World, host: Host, run: Runner, base: Snapshot, now: Disk, paths: seq<Path>, d: Disk, n: nat,
                before: Work)
    returns (st: Work)
    requires RowsSetting(w, base, now, paths, d) && n < |paths| && Applied(w, run, base, now, paths, n, d, before)
    ensures var row := RowOf(w, paths[n], base.files[paths[n]], now[paths[n]]);
            row.Ok? && |row.value| == COLUMN_COUNT
              && ApplyLine(w, host, run, false, before, PrintRow(row.value)) == Done(st)
    ensures Applied(w, run, base, now, paths, n + 1, d, st)
  {
    hide Lawful, OrdinaryDisk, OrdinaryPath, SameKind, SameState, KnownKind, RowOf, PrintRow, ApplyLine, Effect,
      Staged, OnlyTouches;
    var p := paths[n];
    assert p in paths;
    assert p !in paths[..n];
    st := RowApplies(w, host, run, base, now, p, before);
    AppliedStep(w, run, base, now, paths, n, d, before, st);
  }

  lemma UntouchedStep(paths: seq<Path>, n: nat, d: Disk, before: Disk, after: Disk)
    requires n < |paths| && before.Keys == d.Keys == after.Keys
    requires forall q :: q in d && q !in paths[..n] ==> before[q] == d[q]
    requires forall q :: q in before && q != paths[n] ==> after[q] == before[q]
    ensures forall q :: q in d && q !in paths[..n + 1] ==> after[q] == d[q]
  {
    assert paths[..n + 1] == paths[..n] + [paths[n]];
  }

  lemma EffectsStay(run: Runner, base: Snapshot, now: Disk, paths: seq<Path>, n: nat, d: Disk, before: Disk,
                    after: Disk)
    requires n < |paths| && Distinct(paths) && before.Keys == d.Keys == after.Keys
    requires forall p :: p in paths ==> p in base.files && p in now && p in d
    requires forall i :: 0 <= i < n ==> Effect(run, base, now, paths[i], d[paths[i]], before[paths[i]])
    requires Effect(run, base, now, paths[n], d[paths[n]], after[paths[n]])
    requires forall q :: q in before && q != paths[n] ==> after[q] == before[q]
    ensures forall i :: 0 <= i <= n ==> Effect(run, base, now, paths[i], d[paths[i]], after[paths[i]])
  {
    hide Effect;
    forall i | 0 <= i <= n ensures Effect(run, base, now, paths[i], d[paths[i]], after[paths[i]]) {
      assert paths[i] in paths;
    }
  }

  lemma AppliedStep(w: World, run: Runner, base: Snapshot, now: Disk, paths: seq<Path>, n: nat, d: Disk, before: Work,
                    st: Work)
    requires RowsSetting(w, base, now, paths, d) && n < |paths| && Applied(w, run, base, now, paths, n, d, before)
    requires OnlyTouches(paths[n], before, st) && Effect(run, base, now, paths[n], d[paths[n]], st.disk[paths[n]])
    ensures Applied(w, run, base, now, paths, n + 1, d, st)
  {
    hide Lawful, OrdinaryDisk, OrdinaryPath, SameKind, SameState, KnownKind, Effect, Staged;
    var p := paths[n];
    forall i | n + 1 <= i < |paths| ensures Staged(w, run, base, now, paths[i], st.staged) {
      assert paths[i] in paths && p in paths;
      StillStaged(w, run, base, now, p, paths[i], before, st);
    }
    UntouchedStep(paths, n, d, before.disk, st.disk);
    EffectsStay(run, base, now, paths, n, d, before.disk, st.disk);
  }
}
