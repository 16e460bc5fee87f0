/** The delta image: what the server writes into myscm-img.X.Y from snapshot X and its current disk. */
module SysImgGenerator {
  import opened Text
  import opened Paths
  import opened Pruning
  import opened AddedEntries
  import opened FileTree
  import opened ChangedReport
  import opened ReportLines
  import opened ReportHeader

  const PATCH_EXT := ".myscmsrv-patch"
  const TEMPLATE_EXT := ".myscm-template"

  /** The three reports of an image. */
  datatype Txt = AddedTxt | RemovedTxt | ChangedTxt

  /** What the program calls but does not define: the two hashes, diff-match-patch, the text decoder, the package
      manager, the server's platform, and the other header lines of each report. */
  datatype World = World(
    md5: string -> string,
    sha1: string -> string,
    makePatch: (string, string) -> string,
    applyPatch: (string, string) -> string,
    decodes: string -> bool,
    package: Path -> string,
    identity: Host,
    notes: Txt -> Notes)

  const MD5_LEN := 32
  const SHA1_LEN := 40

  ghost predicate Lawful(w: World) {
    && (forall c: string :: Plain(w.md5(c)) && |w.md5(c)| == MD5_LEN)
    && (forall c: string :: Plain(w.sha1(c)) && |w.sha1(c)| == SHA1_LEN)
    && (forall a: string, b: string :: w.applyPatch(w.makePatch(a, b), a) == b)
    && (forall p: string :: w.package(p) != "" && Trimmed(w.package(p)) && NUL !in w.package(p))
    && ValidIdentity(w.identity)
    && (forall t: Txt :: HarmlessNotes(w.notes(t)))
  }

  /** What one scan keeps: the tracked files as its database describes them, and the paths copied as text. */
  datatype Snapshot = Snapshot(files: Disk, copied: set<Path>)

  /******* the AIDE check, as the mathematical difference of two disks *******/

  predicate Differs(a: Node, b: Node) {
    || a.mode != b.mode || a.uid != b.uid || a.gid != b.gid || ContentOf(a) != ContentOf(b) || Size(a) != Size(b)
    || a.lcount != b.lcount || a.attr != b.attr || a.bcount != b.bcount || a.mtime != b.mtime
    || a.ctime != b.ctime || a.inode != b.inode
  }

  function ContentOf(n: Node): Option<string> {
    if IsFile(n) then Some(n.content) else None
  }

  /** The three lists of the check report, each in the order the report has them. */
  datatype Report = Report(added: seq<Path>, removed: seq<Path>, changed: seq<Path>)

  ghost predicate Lists(s: seq<Path>, members: iset<Path>) {
    Distinct(s) && forall p :: p in s <==> p in members
  }

  ghost predicate ReportOf(r: Report, base: Disk, now: Disk) {
    && Lists(r.added, iset p | p in now && p !in base)
    && Lists(r.removed, iset p | p in base && p !in now)
    && Lists(r.changed, iset p | p in base && p in now && Differs(base[p], now[p]))
  }

  function KindChar(n: Node): char {
    if IsFile(n) then 'f' else 'd'
  }

  function Mark(ref: char, differs: bool): char {
    if differs then ref else '.'
  }

  /** The summary AIDE prints for a changed entry, "no change" being the dot. */
  function InfoString(a: Node, b: Node): (s: string)
    ensures |s| == |INFO_PATTERN|
  {
    [if KindChar(a) == KindChar(b) then KindChar(b) else '!', '.',
     if Size(b) < Size(a) then '<' else if Size(b) > Size(a) then '>' else '=',
     Mark('b', a.bcount != b.bcount), Mark('p', a.mode != b.mode), Mark('u', a.uid != b.uid),
     Mark('g', a.gid != b.gid), '.', Mark('m', a.mtime != b.mtime), Mark('c', a.ctime != b.ctime),
     Mark('i', a.inode != b.inode), Mark('n', a.lcount != b.lcount), Mark('C', ContentOf(a) != ContentOf(b)),
     '.', '.', '.', Mark('E', a.attr != b.attr)]
  }

  /** No blank, no colon and nothing that is not printed. */
  predicate InfoSign(c: char) {
    '!' <= c <= '~' && c != ':'
  }

  lemma InfoSigns(a: Node, b: Node)
    ensures forall c :: c in InfoString(a, b) ==> InfoSign(c)
  {
    hide ContentOf, Size, InfoSign;
    var s := InfoString(a, b);
    SignsHere(s[0], s[2]);
    MarksAreSigns();
    AllSigns(s);
  }

  lemma SignsHere(kind: char, size: char)
    ensures kind in ['f', 'd', '!'] ==> InfoSign(kind)
    ensures size in ['<', '>', '='] ==> InfoSign(size)
  {
  }

  lemma MarksAreSigns()
    ensures InfoSign('.') && InfoSign('b') && InfoSign('p') && InfoSign('u') && InfoSign('g') && InfoSign('m')
    ensures InfoSign('c') && InfoSign('i') && InfoSign('n') && InfoSign('C') && InfoSign('E')
  {
  }

  lemma AllSigns(s: string)
    requires |s| == 17 && InfoSign(s[0]) && InfoSign(s[1]) && InfoSign(s[2]) && InfoSign(s[3]) && InfoSign(s[4])
    requires InfoSign(s[5]) && InfoSign(s[6]) && InfoSign(s[7]) && InfoSign(s[8]) && InfoSign(s[9]) && InfoSign(s[10])
    requires InfoSign(s[11]) && InfoSign(s[12]) && InfoSign(s[13]) && InfoSign(s[14]) && InfoSign(s[15])
             && InfoSign(s[16])
    ensures forall c :: c in s ==> InfoSign(c)
  {
    hide InfoSign;
  }

  function HashText(n: Node, hash: string -> string): string {
    if IsFile(n) then hash(n.content) else "None"
  }

  /** A database row, as `AIDEProperties` turns it into values and `str` prints them. */
  function PropertiesOf(w: World, p: Path, n: Node): Properties {
    Properties(p, "None", Numeral(n.attr, 10), Numeral(n.mode, 8), Numeral(n.bcount, 10), Numeral(n.uid, 10),
               Numeral(n.gid, 10), Size(n), IntText(n.mtime), IntText(n.ctime), Numeral(n.inode, 10),
               Numeral(n.lcount, 10), HashText(n, w.md5), HashText(n, w.sha1))
  }

  function EntryOf(w: World, p: Path, a: Node, b: Node): (e: Entry)
    ensures ValidEntry(e)
  {
    Entry(PropertiesOf(w, p, b), PropertiesOf(w, p, a), InfoString(a, b), w.package(p))
  }

  /******* the image *******/

  /** The members under ADDED and CHANGED by their path below it, and the lines of the three reports. */
  datatype Image = Image(
    added: Disk, addedTxt: seq<string>,
    removedTxt: seq<string>,
    changed: Disk, changedTxt: seq<string>)

  datatype GenerateError =
    | EntryNotOnDisk(path: Path) | BadEntry(path: Path, error: EntryError)
    | CannotPatch(path: Path) | CannotDecode(path: Path)

  function HeaderOf(w: World, t: Txt): seq<string> {
    HeaderLines(w.identity, w.notes(t))
  }

  /** A text file the program writes itself. */
  function TextNode(text: string): Node {
    Node(0x8180, 0, 0, text, 0, 1, 0, 0, 0, 0, 0)
  }

  predicate IsFileOn(disk: Disk, p: Path) {
    p in disk && IsFile(disk[p])
  }

  predicate EndsWith(s: string, ext: string) {
    |ext| <= |s| && s[|s| - |ext|..] == ext
  }

  predicate HasTemplate(disk: Disk, p: Path) {
    IsFileOn(disk, p) && !EndsWith(p, TEMPLATE_EXT) && IsFileOn(disk, p + TEMPLATE_EXT)
  }

  function DiskSource(disk: Disk): Source {
    Source(disk.Keys, set p | p in disk && HasTemplate(disk, p))
  }

  function EntryLines(w: World, paths: seq<Path>): (lines: seq<string>)
    ensures |lines| == |paths| && forall i :: 0 <= i < |lines| ==> lines[i] == PrintEntry(paths[i], w.package(paths[i]))
  {
    seq(|paths|, i requires 0 <= i < |paths| => PrintEntry(paths[i], w.package(paths[i])))
  }

  /** The files shipped for the changed entries written so far, and their rows. */
  datatype ChangedPart = ChangedPart(files: Disk, lines: seq<string>)

  /** One changed entry: its row, and its content as a patch if the snapshot has a text copy, whole if not. */
  function AddChanged(w: World, base: Snapshot, disk: Disk, part: ChangedPart,
                      p: Path): Result<ChangedPart, GenerateError>
    requires p in base.files && p in disk
  {
    if HasTemplate(disk, p) then Ok(part)
    else
      var e := EntryOf(w, p, base.files[p], disk[p]);
      match ChangedProperties(e)
      case Err(x) => Err(BadEntry(p, x))
      case Ok(columns) =>
        if |columns| != COLUMN_COUNT then Err(CannotPatch(p))
        else
          var lines := part.lines + [PrintRow(columns)];
          if e.info[12] != 'C' then Ok(ChangedPart(part.files, lines))
          else if p in base.copied && IsFile(base.files[p]) then
            if !w.decodes(base.files[p].content) then Err(CannotDecode(p))
            else if !IsFile(disk[p]) then Err(CannotPatch(p))
            else if !w.decodes(disk[p].content) then Err(CannotDecode(p))
            else
              var patch := TextNode(w.makePatch(base.files[p].content, disk[p].content));
              Ok(ChangedPart(part.files[p + PATCH_EXT := patch], lines))
          else Ok(ChangedPart(part.files[p := disk[p]], lines))
  }

  function AddAllChanged(w: World, base: Snapshot, disk: Disk, paths: seq<Path>): Result<ChangedPart, GenerateError>
    requires forall p :: p in paths ==> p in base.files && p in disk
  {
    if paths == [] then Ok(ChangedPart(map[], []))
    else match AddAllChanged(w, base, disk, paths[..|paths| - 1])
         case Err(x) => Err(x)
         case Ok(part) => AddChanged(w, base, disk, part, paths[|paths| - 1])
  }

  predicate ReportFits(r: Report, base: Snapshot, disk: Disk) {
    forall p :: p in r.changed ==> p in base.files && p in disk
  }

  function Generate(w: World, base: Snapshot, disk: Disk, r: Report): Result<Image, GenerateError>
    requires ReportFits(r, base, disk)
  {
    match Run(DiskSource(disk), SortPaths(r.added))
    case MissingOnDisk(p, _) => Err(EntryNotOnDisk(p))
    case Progress(_, archive, listed) =>
      match AddAllChanged(w, base, disk, r.changed)
      case Err(x) => Err(x)
      case Ok(part) =>
        Ok(Image(Written(disk, archive), HeaderOf(w, AddedTxt) + EntryLines(w, listed),
                 HeaderOf(w, RemovedTxt) + EntryLines(w, TopPaths(r.removed)),
                 part.files, HeaderOf(w, ChangedTxt) + part.lines))
  }

  /** The members under ADDED, with what the disk has for them. */
  function Written(disk: Disk, archive: multiset<Path>): Disk {
    map p | p in disk && p in archive :: disk[p]
  }

  /******* the file *******/

  /** What is in the file under an image's name. The reports are written after the members they are about, so the
      remains of a generation that failed lack the last of them. */
  datatype Archive = Archive(
    added: Disk, addedTxt: Option<seq<string>>,
    removedTxt: Option<seq<string>>,
    changed: Disk, changedTxt: Option<seq<string>>)

  /** An archive, or something that cannot be read to its end. */
  datatype ImageFile = Readable(archive: Archive) | Torn

  /** The file of an archive: one without any member cannot be opened. */
  function FileOf(a: Archive): ImageFile {
    if a == Archive(map[], None, None, map[], None) then Torn else Readable(a)
  }

  function ArchiveOf(image: Image): Archive {
    Archive(image.added, Some(image.addedTxt), Some(image.removedTxt), image.changed, Some(image.changedTxt))
  }

  /** The members under CHANGED by the time the changed part ends or breaks off. */
  function ChangedFiles(w: World, base: Snapshot, disk: Disk, paths: seq<Path>): Disk
    requires forall p :: p in paths ==> p in base.files && p in disk
  {
    if paths == [] then map[]
    else match AddAllChanged(w, base, disk, paths[..|paths| - 1])
         case Err(_) => ChangedFiles(w, base, disk, paths[..|paths| - 1])
         case Ok(part) =>
           match AddChanged(w, base, disk, part, paths[|paths| - 1])
           case Err(_) => part.files
           case Ok(next) => next.files
  }

  /** What a generation leaves under the image's name, whether it goes through or not. */
  function LeftBy(w: World, base: Snapshot, disk: Disk, r: Report): Archive
    requires ReportFits(r, base, disk)
  {
    match Run(DiskSource(disk), SortPaths(r.added))
    case MissingOnDisk(_, archive) => Archive(Written(disk, archive), None, None, map[], None)
    case Progress(_, archive, listed) =>
      var changed := AddAllChanged(w, base, disk, r.changed);
      Archive(Written(disk, archive), Some(HeaderOf(w, AddedTxt) + EntryLines(w, listed)),
              Some(HeaderOf(w, RemovedTxt) + EntryLines(w, TopPaths(r.removed))),
              ChangedFiles(w, base, disk, r.changed),
              if changed.Ok? then Some(HeaderOf(w, ChangedTxt) + changed.value.lines) else None)
  }

  lemma {:induction false} ChangedFilesAre(w: World, base: Snapshot, disk: Disk, paths: seq<Path>)
    requires forall p :: p in paths ==> p in base.files && p in disk
    ensures AddAllChanged(w, base, disk, paths).Ok? ==>
              ChangedFiles(w, base, disk, paths) == AddAllChanged(w, base, disk, paths).value.files
  {
    hide AddChanged;
    if paths != [] {
      ChangedFilesAre(w, base, disk, paths[..|paths| - 1]);
    }
  }

  lemma {:induction false} ChangedFilesStay(w: World, base: Snapshot, disk: Disk, paths: seq<Path>, i: nat)
    requires i <= |paths| && forall p :: p in paths ==> p in base.files && p in disk
    requires AddAllChanged(w, base, disk, paths[..i]).Err?
    ensures ChangedFiles(w, base, disk, paths) == ChangedFiles(w, base, disk, paths[..i])
    decreases |paths| - i
  {
    hide AddChanged;
    if i < |paths| {
      assert paths[..i + 1][..i] == paths[..i];
      ChangedFilesStay(w, base, disk, paths, i + 1);
    } else {
      assert paths[..i] == paths;
    }
  }

  /** The file is the whole image exactly when the generation went through; else its last report is missing. */
  lemma LeftByExact(w: World, base: Snapshot, disk: Disk, r: Report)
    requires ReportFits(r, base, disk)
    ensures match Generate(w, base, disk, r)
            case Ok(image) => LeftBy(w, base, disk, r) == ArchiveOf(image)
            case Err(_) => LeftBy(w, base, disk, r).changedTxt == None
  {
    hide Run, SortPaths, TopPaths, DiskSource, AddAllChanged, EntryLines, HeaderOf, ChangedFiles;
    ChangedFilesAre(w, base, disk, r.changed);
  }

  method PrintEntries(w: World, paths: seq<Path>) returns (lines: seq<string>)
    ensures lines == EntryLines(w, paths)
  {
    lines := [];
    for i := 0 to |paths|
      invariant lines == EntryLines(w, paths)[..i]
    {
      lines := lines + [PrintEntry(paths[i], w.package(paths[i]))];
    }
  }

  /** The archive is written in the order added, removed, changed; after an error it stays as far as it was written. */
  method GenerateImage(w: World, base: Snapshot, disk: Disk, r: Report)
    returns (image: Result<Image, GenerateError>, left: Archive)
    requires ReportFits(r, base, disk)
    ensures image == Generate(w, base, disk, r) && left == LeftBy(w, base, disk, r)
  {
    hide Run, SortPaths, TopPaths, DiskSource, AddAllChanged, EntryLines, HeaderOf, ChangedFiles, Written;
    var archive, listed, missing := AddEntries(DiskSource(disk), r.added);
    left := Archive(Written(disk, archive), None, None, map[], None);
    if missing.Some? {
      return Err(EntryNotOnDisk(missing.value)), left;
    }
    var addedLines := PrintEntries(w, listed);
    left := left.(addedTxt := Some(HeaderOf(w, AddedTxt) + addedLines));
    var kept := PruneDescendants(r.removed);
    var removedLines := PrintEntries(w, kept);
    left := left.(removedTxt := Some(HeaderOf(w, RemovedTxt) + removedLines));
    var part, files := AddChangedEntries(w, base, disk, r.changed);
    left := left.(changed := files);
    if part.Err? {
      return Err(part.error), left;
    }
    left := left.(changedTxt := Some(HeaderOf(w, ChangedTxt) + part.value.lines));
    image := Ok(Image(left.added, left.addedTxt.value, left.removedTxt.value, part.value.files, left.changedTxt.value));
  }

  method AddChangedEntries(w: World, base: Snapshot, disk: Disk, paths: seq<Path>)
    returns (r: Result<ChangedPart, GenerateError>, files: Disk)
    requires forall p :: p in paths ==> p in base.files && p in disk
    ensures r == AddAllChanged(w, base, disk, paths) && files == ChangedFiles(w, base, disk, paths)
  {
    hide AddChanged;
    var part := ChangedPart(map[], []);
    for i := 0 to |paths|
      invariant AddAllChanged(w, base, disk, paths[..i]) == Ok(part)
      invariant ChangedFiles(w, base, disk, paths[..i]) == part.files
    {
      assert paths[..i + 1][..i] == paths[..i];
      StaysErr(w, base, disk, paths, i + 1);
      var step := AddChangedEntry(w, base, disk, part, paths[i]);
      if step.Err? {
        ChangedFilesStay(w, base, disk, paths, i + 1);
        return Err(step.error), part.files;
      }
      part := step.value;
    }
    assert paths[..|paths|] == paths;
    return Ok(part), part.files;
  }

  method AddChangedEntry(w: World, base: Snapshot, disk: Disk, part: ChangedPart, p: Path)
    returns (r: Result<ChangedPart, GenerateError>)
    requires p in base.files && p in disk
    ensures r == AddChanged(w, base, disk, part, p)
  {
    if HasTemplate(disk, p) {
      return Ok(part);
    }
    var e := EntryOf(w, p, base.files[p], disk[p]);
    var columns := GetAideChangedProperties(e);
    if columns.Err? {
      return Err(BadEntry(p, columns.error));
    }
    var line := PrintChangedRow(columns.value);
    if line.None? {
      return Err(CannotPatch(p));
    }
    var lines := part.lines + [line.value];
    if e.info[12] == 'C' {
      if p in base.copied && IsFile(base.files[p]) {
        if !w.decodes(base.files[p].content) {
          return Err(CannotDecode(p));
        }
        if !IsFile(disk[p]) {
          return Err(CannotPatch(p));
        }
        if !w.decodes(disk[p].content) {
          return Err(CannotDecode(p));
        }
        var patch := w.makePatch(base.files[p].content, disk[p].content);
        return Ok(ChangedPart(part.files[p + PATCH_EXT := TextNode(patch)], lines));
      }
      return Ok(ChangedPart(part.files[p := disk[p]], lines));
    }
    r := Ok(ChangedPart(part.files, lines));
  }

  lemma {:induction false} StaysErr(w: World, base: Snapshot, disk: Disk, paths: seq<Path>, i: nat)
    requires i <= |paths| && forall p :: p in paths ==> p in base.files && p in disk
    ensures AddAllChanged(w, base, disk, paths[..i]).Err? ==>
              AddAllChanged(w, base, disk, paths) == AddAllChanged(w, base, disk, paths[..i])
    decreases |paths| - i
  {
    if i < |paths| {
      assert paths[..i + 1][..i] == paths[..i];
      StaysErr(w, base, disk, paths, i + 1);
    } else {
      assert paths[..i] == paths;
    }
  }
}
