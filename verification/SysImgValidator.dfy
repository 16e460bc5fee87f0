/** The client's check of an image against its own disk before anything is applied. */
module SysImgValidator {
  import opened Text
  import opened Paths
  import opened FileTree
  import opened ChangedReport
  import opened ReportLines
  import opened SysImgGenerator

  datatype Rejection =
    | ArchiveUnreadable | ReportMissing(report: Txt) | ReportUnreadable(report: Txt)
    | LineCorrupted | SystemDiffers
    | AddedExists(path: Path) | AddedNotInImage(path: Path)
    | ChangedMissing(path: Path) | KindUnknown(path: Path) | KindDiffers(path: Path)
    | PropertyMalformed(path: Path) | NumberMalformed(path: Path)
    | HashDiffers(path: Path) | SizeDiffers(path: Path) | ChangedNotInImage(path: Path)
    | PermissionsDiffer(path: Path) | NumberDiffers(path: Path)

  /** The first error raised, of two checks made one after the other. */
  function Then(a: Option<Rejection>, b: Option<Rejection>): Option<Rejection> {
    if a.Some? then a else b
  }

  /** With `--force-apply` the error becomes a warning. */
  function Unless(force: bool, bad: bool, error: Rejection): Option<Rejection> {
    if bad && !force then Some(error) else None
  }

  /******* one line *******/

  function CheckAdded(image: Image, disk: Disk, force: bool, values: seq<string>): Option<Rejection> {
    if values == [] then Some(LineCorrupted)
    else
      var path := values[0];
      Then(Unless(force, path in disk, AddedExists(path)),
           if path in image.added then None else Some(AddedNotInImage(path)))
  }

  function CheckKind(path: Path, kind: string, node: Node, force: bool): Option<Rejection> {
    if kind == "f" then Unless(force, !IsFile(node), KindDiffers(path))
    else if kind == "d" then Unless(force, !IsDir(node), KindDiffers(path))
    else if kind in ["l", "c", "b", "p", "s", "D", "P"] then Unless(force, true, KindDiffers(path))
    else Some(KindUnknown(path))
  }

  function CheckHash(path: Path, property: string, len: nat, node: Node, hash: string -> string,
                     force: bool): Option<Rejection> {
    match ExpectedValue(property)
    case None => Some(PropertyMalformed(path))
    case Some(expected) =>
      if |expected| != len || !IsFile(node) then Some(PropertyMalformed(path))
      else Unless(force, hash(node.content) != expected, HashDiffers(path))
  }

  function CheckSize(path: Path, property: string, node: Node, force: bool): Option<Rejection> {
    match ExpectedValue(property)
    case None => Some(PropertyMalformed(path))
    case Some(expected) =>
      match ParseInt(expected, 10)
      case None => Some(NumberMalformed(path))
      case Some(size) => Unless(force, Size(node) != size, SizeDiffers(path))
  }

  function CheckShipped(path: Path, property: string, image: Image): Option<Rejection> {
    match GetNewOld(property)
    case None => Some(PropertyMalformed(path))
    case Some((new_, old_)) =>
      if old_ != new_ && old_ != "." && path !in image.changed && path + PATCH_EXT !in image.changed
      then Some(ChangedNotInImage(path)) else None
  }

  function CheckPermissions(path: Path, property: string, node: Node, force: bool): Option<Rejection> {
    match ExpectedValue(property)
    case None => Some(PropertyMalformed(path))
    case Some(expected) => Unless(force, Numeral(node.mode, 8) != expected, PermissionsDiffer(path))
  }

  function CheckNumber(path: Path, property: string, local: nat, force: bool): Option<Rejection> {
    match ExpectedValue(property)
    case None => Some(PropertyMalformed(path))
    case Some(expected) =>
      match ParseInt(expected, 10)
      case None => Unless(force, true, NumberMalformed(path))
      case Some(n) => Unless(force, local != n, NumberDiffers(path))
  }

  function CheckFile(w: World, image: Image, node: Node, force: bool, values: seq<string>): Option<Rejection>
    requires |values| == COLUMN_COUNT
  {
    var path := values[0];
    Then(CheckHash(path, values[15], MD5_LEN, node, w.md5, force),
    Then(CheckHash(path, values[16], SHA1_LEN, node, w.sha1, force),
    Then(CheckSize(path, values[6], node, force),
         CheckShipped(path, values[16], image))))
  }

  function CheckChanged(w: World, image: Image, disk: Disk, force: bool, values: seq<string>): Option<Rejection> {
    if |values| != COLUMN_COUNT then Some(LineCorrupted)
    else
      var path := values[0];
      if path !in disk then Some(ChangedMissing(path))
      else
        var node := disk[path];
        Then(CheckKind(path, values[4], node, force),
        Then(if values[4] == "f" then CheckFile(w, image, node, force, values) else None,
        Then(CheckPermissions(path, values[8], node, force),
        Then(CheckNumber(path, values[9], node.uid, force),
        Then(CheckNumber(path, values[10], node.gid, force),
             CheckNumber(path, values[14], node.lcount, force))))))
  }

  /******* a report *******/

  function CheckLine(raw: string, n: nat, host: Host, check: seq<string> -> Option<Rejection>): Option<Rejection> {
    match ReadLine(raw, n, host)
    case Blank => None
    case Comment => None
    case ForeignSystem => Some(SystemDiffers)
    case Corrupted(_) => Some(LineCorrupted)
    case Values(values) => check(values)
  }

  function FirstRejection(lines: seq<string>, n: nat, host: Host,
                          check: seq<string> -> Option<Rejection>): Option<Rejection> {
    if lines == [] then None
    else Then(FirstRejection(lines[..|lines| - 1], n, host, check), CheckLine(lines[|lines| - 1], n, host, check))
  }

  function RowCount(lines: seq<string>, n: nat, host: Host): nat {
    if lines == [] then 0
    else RowCount(lines[..|lines| - 1], n, host) + (if ReadLine(lines[|lines| - 1], n, host).Values? then 1 else 0)
  }

  method RunForEachReportLine(lines: seq<string>, n: nat, host: Host, check: seq<string> -> Option<Rejection>)
    returns (r: Option<Rejection>, validLines: nat)
    ensures r == FirstRejection(lines, n, host, check)
    ensures r == None ==> validLines == RowCount(lines, n, host)
  {
    validLines := 0;
    r := None;
    for i := 0 to |lines|
      invariant r == None && FirstRejection(lines[..i], n, host, check) == None
      invariant validLines == RowCount(lines[..i], n, host)
    {
      assert lines[..i + 1][..i] == lines[..i];
      FirstStays(lines, i + 1, n, host, check);
      match ReadLine(lines[i], n, host) {
        case Blank =>
        case Comment =>
        case ForeignSystem =>
          r := Some(SystemDiffers);
          return;
        case Corrupted(_) =>
          r := Some(LineCorrupted);
          return;
        case Values(values) =>
          validLines := validLines + 1;
          r := check(values);
          if r.Some? {
            return;
          }
      }
    }
    assert lines[..|lines|] == lines;
  }

  lemma {:induction false} FirstStays(lines: seq<string>, i: nat, n: nat, host: Host,
                                      check: seq<string> -> Option<Rejection>)
    requires i <= |lines|
    ensures FirstRejection(lines[..i], n, host, check).Some? ==>
              FirstRejection(lines, n, host, check) == FirstRejection(lines[..i], n, host, check)
    decreases |lines| - i
  {
    if i < |lines| {
      assert lines[..i + 1][..i] == lines[..i];
      FirstStays(lines, i + 1, n, host, check);
    } else {
      assert lines[..i] == lines;
    }
  }

  lemma {:induction false} AllLinesPass(lines: seq<string>, n: nat, host: Host, check: seq<string> -> Option<Rejection>)
    ensures FirstRejection(lines, n, host, check) == None <==>
              forall i :: 0 <= i < |lines| ==> CheckLine(lines[i], n, host, check) == None
  {
    hide CheckLine;
    if lines != [] {
      var init := lines[..|lines| - 1];
      AllLinesPass(init, n, host, check);
      assert forall i :: 0 <= i < |init| ==> init[i] == lines[i];
    }
  }

  /******* the whole image *******/

  function AddedCheck(image: Image, disk: Disk, force: bool): seq<string> -> Option<Rejection> {
    values => CheckAdded(image, disk, force, values)
  }

  function ChangedCheck(w: World, image: Image, disk: Disk, force: bool): seq<string> -> Option<Rejection> {
    values => CheckChanged(w, image, disk, force, values)
  }

  /** A removed path that is missing is only worth a warning. */
  function RemovedCheck(): seq<string> -> Option<Rejection> {
    values => None
  }

  function Validate(w: World, host: Host, image: Image, disk: Disk, force: bool): Option<Rejection> {
    Then(FirstRejection(image.addedTxt, 2, host, AddedCheck(image, disk, force)),
    Then(FirstRejection(image.changedTxt, COLUMN_COUNT, host, ChangedCheck(w, image, disk, force)),
         FirstRejection(image.removedTxt, 2, host, RemovedCheck())))
  }

  /** The archive as an image; a report that is missing has no lines. */
  function Filled(a: Archive): Image {
    Image(a.added, LinesIn(a.addedTxt), LinesIn(a.removedTxt), a.changed, LinesIn(a.changedTxt))
  }

  function LinesIn(txt: Option<seq<string>>): seq<string> {
    match txt
    case None => []
    case Some(lines) => lines
  }

  /** A report that is not in the archive is worth a warning when forced; then it cannot be extracted. */
  function CheckPresent(t: Txt, txt: Option<seq<string>>, force: bool, found: Option<Rejection>): Option<Rejection> {
    if txt == None then Then(Unless(force, true, ReportMissing(t)), Some(ReportUnreadable(t))) else found
  }

  /** What validation finds wrong with an archive. */
  function ValidateArchive(w: World, host: Host, a: Archive, disk: Disk, force: bool): Option<Rejection> {
    var image := Filled(a);
    Then(CheckPresent(AddedTxt, a.addedTxt, force,
                     FirstRejection(image.addedTxt, 2, host, AddedCheck(image, disk, force))),
    Then(CheckPresent(ChangedTxt, a.changedTxt, force,
                     FirstRejection(image.changedTxt, COLUMN_COUNT, host, ChangedCheck(w, image, disk, force))),
         CheckPresent(RemovedTxt, a.removedTxt, force,
                     FirstRejection(image.removedTxt, 2, host, RemovedCheck()))))
  }

  /** An archive that cannot be read through is refused at its first report, forced or not. */
  function ValidateFile(w: World, host: Host, file: ImageFile, disk: Disk, force: bool): Option<Rejection> {
    match file
    case Torn => Some(ArchiveUnreadable)
    case Readable(a) => ValidateArchive(w, host, a, disk, force)
  }

  predicate Complete(a: Archive) {
    a.addedTxt.Some? && a.removedTxt.Some? && a.changedTxt.Some?
  }

  /** Whatever the client and with whatever force, only an archive with all three reports is accepted; that is then
      validated as the image it holds. */
  lemma OnlyCompleteIsAccepted(w: World, host: Host, a: Archive, disk: Disk, force: bool)
    ensures ValidateArchive(w, host, a, disk, force) == None <==>
            Complete(a) && Validate(w, host, Filled(a), disk, force) == None
    ensures Complete(a) ==>
              ArchiveOf(Filled(a)) == a
                && ValidateArchive(w, host, a, disk, force) == Validate(w, host, Filled(a), disk, force)
  {
    hide FirstRejection, AddedCheck, ChangedCheck, RemovedCheck;
  }

  lemma FilledIsImage(image: Image)
    ensures Filled(ArchiveOf(image)) == image && Complete(ArchiveOf(image))
  {
  }

  /** What a generation leaves under the image's name is accepted exactly if the generation went through and the image
      is accepted: remains are refused by every client, forced or not. */
  lemma LeftIsAcceptedExact(w: World, base: Snapshot, now: Disk, r: Report, host: Host, disk: Disk, force: bool)
    requires ReportFits(r, base, now)
    ensures ValidateFile(w, host, FileOf(LeftBy(w, base, now, r)), disk, force) == None <==>
              match Generate(w, base, now, r)
              case Ok(image) => Validate(w, host, image, disk, force) == None
              case Err(_) => false
  {
    hide ValidateArchive, Validate, Generate, LeftBy;
    LeftByExact(w, base, now, r);
    OnlyCompleteIsAccepted(w, host, LeftBy(w, base, now, r), disk, force);
  }

  class SysImgValidator {
    const world: World
    const host: Host
    const forceApply: bool
    var addedEntries: nat
    var changedEntries: nat
    var removedEntries: nat

    constructor (world: World, host: Host, forceApply: bool)
      ensures this.world == world && this.host == host && this.forceApply == forceApply
    {
      this.world, this.host, this.forceApply := world, host, forceApply;
      addedEntries, changedEntries, removedEntries := 0, 0, 0;
    }

    /** One report: it has to be there, and each of its lines has to pass. */
    method AssertSummaryValid(t: Txt, txt: Option<seq<string>>, n: nat, check: seq<string> -> Option<Rejection>)
      returns (r: Option<Rejection>, validLines: nat)
      ensures r == CheckPresent(t, txt, forceApply, FirstRejection(LinesIn(txt), n, host, check))
      ensures r == None ==> validLines == RowCount(LinesIn(txt), n, host)
    {
      if txt == None {
        if !forceApply {
          return Some(ReportMissing(t)), 0;
        }
        return Some(ReportUnreadable(t)), 0;
      }
      r, validLines := RunForEachReportLine(txt.value, n, host, check);
    }

    /** The counts are stored only when the archive is accepted. */
    method AssertSysImgValid(a: Archive, disk: Disk) returns (r: Option<Rejection>)
      modifies this
      ensures r == ValidateArchive(world, host, a, disk, forceApply)
      ensures r == None ==>
                && addedEntries == RowCount(LinesIn(a.addedTxt), 2, host)
                && changedEntries == RowCount(LinesIn(a.changedTxt), COLUMN_COUNT, host)
                && removedEntries == RowCount(LinesIn(a.removedTxt), 2, host)
      ensures r.Some? ==> unchanged(this)
    {
      var image := Filled(a);
      var added, changed, removed: nat;
      r, added := AssertSummaryValid(AddedTxt, a.addedTxt, 2, AddedCheck(image, disk, forceApply));
      if r.Some? {
        return;
      }
      r, changed := AssertSummaryValid(ChangedTxt, a.changedTxt, COLUMN_COUNT,
          ChangedCheck(world, image, disk, forceApply));
      if r.Some? {
        return;
      }
      r, removed := AssertSummaryValid(RemovedTxt, a.removedTxt, 2, RemovedCheck());
      if r.None? {
        addedEntries, changedEntries, removedEntries := added, changed, removed;
      }
    }
  }
}
