/** What validation asks of an image that anyone may have made, row by row. */
module AnyImage {
  import opened Text
  import opened Paths
  import opened FileTree
  import opened ChangedReport
  import opened ReportLines
  import opened SysImgGenerator
  import opened SysImgValidator

  /** What the column says the value was before is a text that passes. */
  ghost predicate Says(column: string, passes: string -> bool) {
    exists text :: ExpectedValue(column) == Some(text) && passes(text)
  }

  ghost predicate IsNumber(text: string, n: int) {
    ParseInt(text, 10) == Some(n)
  }

  /** A path and its package; the path is not on the client, and the image has something for it. */
  ghost predicate AddedRowHolds(image: Image, disk: Disk, force: bool, values: seq<string>) {
    |values| == 2 && (force || values[0] !in disk) && values[0] in image.added
  }

  /** Where the row says the content changed, the image has the file or its patch. */
  ghost predicate ContentComes(image: Image, path: Path, column: string) {
    match GetNewOld(column)
    case None => false
    case Some((new_, old_)) =>
      old_ == new_ || old_ == "." || path in image.changed || path + ".myscmsrv-patch" in image.changed
  }

  ghost predicate KindHolds(kind: string, node: Node, force: bool) {
    || (kind == "f" && (force || IsFile(node)))
    || (kind == "d" && (force || IsDir(node)))
    || (force && kind in ["l", "c", "b", "p", "s", "D", "P"])
  }

  /** A file whose hashes and size are what they were; when forced, hashes and size of any value will do. */
  ghost predicate FileHolds(w: World, image: Image, path: Path, node: Node, force: bool, values: seq<string>)
    requires |values| == 18
  {
    && IsFile(node)
    && Says(values[15], text => |text| == 32 && (force || text == w.md5(node.content)))
    && Says(values[16], text => |text| == 40 && (force || text == w.sha1(node.content)))
    && Says(values[6], text => exists n :: IsNumber(text, n) && (force || n == Size(node)))
    && ContentComes(image, path, values[16])
  }

  ghost predicate NumberHolds(column: string, n: int, force: bool) {
    Says(column, text => force || IsNumber(text, n))
  }

  /** The client's file is there, of the kind the row says, and as the row says it was; when forced, of a kind there is
      and with any values. */
  ghost predicate ChangedRowHolds(w: World, image: Image, disk: Disk, force: bool, values: seq<string>) {
    && |values| == 18 && values[0] in disk
    && var node := disk[values[0]];
    && KindHolds(values[4], node, force)
    && (values[4] == "f" ==> FileHolds(w, image, values[0], node, force, values))
    && Says(values[8], text => force || text == Numeral(node.mode, 8))
    && NumberHolds(values[9], node.uid, force) && NumberHolds(values[10], node.gid, force)
    && NumberHolds(values[14], node.lcount, force)
  }

  /** Each line is blank, a comment that names no other platform, or a row of n values that holds. */
  ghost predicate Passes(lines: seq<string>, n: nat, host: Host, holds: seq<string> -> bool) {
    forall i :: 0 <= i < |lines| ==>
      match ReadLine(lines[i], n, host)
      case Blank => true
      case Comment => true
      case Values(values) => holds(values)
      case _ => false
  }

  lemma NumberExact(path: Path, column: string, local: nat, force: bool)
    ensures CheckNumber(path, column, local, force) == None <==> NumberHolds(column, local, force)
  {
    hide ExpectedValue, ParseInt;
  }

  lemma SizeExact(path: Path, column: string, node: Node, force: bool)
    ensures CheckSize(path, column, node, force) == None <==>
              Says(column, text => exists n :: IsNumber(text, n) && (force || n == Size(node)))
  {
    hide ExpectedValue, ParseInt, Size;
    match ExpectedValue(column)
    case None =>
    case Some(text) =>
      if ParseInt(text, 10).Some? {
        assert IsNumber(text, ParseInt(text, 10).value);
      }
  }

  lemma HashExact(path: Path, column: string, len: nat, node: Node, hash: string -> string, force: bool)
    ensures CheckHash(path, column, len, node, hash, force) == None <==>
              IsFile(node) && Says(column, text => |text| == len && (force || text == hash(node.content)))
  {
    hide ExpectedValue;
  }

  lemma FileExact(w: World, image: Image, node: Node, force: bool, values: seq<string>)
    requires |values| == COLUMN_COUNT
    ensures CheckFile(w, image, node, force, values) == None <==> FileHolds(w, image, values[0], node, force, values)
  {
    hide ExpectedValue, GetNewOld, Size, CheckHash, CheckSize, Says, IsNumber, IsFile;
    HashExact(values[0], values[15], MD5_LEN, node, w.md5, force);
    HashExact(values[0], values[16], SHA1_LEN, node, w.sha1, force);
    SizeExact(values[0], values[6], node, force);
  }

  lemma ModeExact(path: Path, column: string, node: Node, force: bool)
    ensures CheckPermissions(path, column, node, force) == None <==>
              Says(column, text => force || text == Numeral(node.mode, 8))
  {
    hide ExpectedValue, Numeral;
  }

  lemma KindExact(path: Path, kind: string, node: Node, force: bool)
    ensures CheckKind(path, kind, node, force) == None <==> KindHolds(kind, node, force)
  {
    hide IsFile, IsDir;
  }

  lemma ChangedRowExact(w: World, image: Image, disk: Disk, force: bool, values: seq<string>)
    ensures ChangedRowHolds(w, image, disk, force, values) <==>
              |values| == COLUMN_COUNT && CheckChanged(w, image, disk, force, values) == None
  {
    hide Numeral, CheckNumber, CheckFile, CheckKind, CheckPermissions, Says, NumberHolds, FileHolds, KindHolds;
    if |values| == COLUMN_COUNT && values[0] in disk {
      var node := disk[values[0]];
      KindExact(values[0], values[4], node, force);
      FileExact(w, image, node, force, values);
      ModeExact(values[0], values[8], node, force);
      NumberExact(values[0], values[9], node.uid, force);
      NumberExact(values[0], values[10], node.gid, force);
      NumberExact(values[0], values[14], node.lcount, force);
    }
  }

  lemma PassesExact(lines: seq<string>, n: nat, host: Host, check: seq<string> -> Option<Rejection>,
                    holds: seq<string> -> bool)
    requires forall values :: holds(values) <==> |values| == n && check(values) == None
    ensures FirstRejection(lines, n, host, check) == None <==> Passes(lines, n, host, holds)
  {
    hide ReadLine, FirstRejection;
    AllLinesPass(lines, n, host, check);
    forall i | 0 <= i < |lines|
      ensures CheckLine(lines[i], n, host, check) == None <==>
              match ReadLine(lines[i], n, host)
              case Blank => true
              case Comment => true
              case Values(values) => holds(values)
              case _ => false
    {
      ValuesCounted(lines[i], n, host);
    }
  }

  lemma ValuesCounted(raw: string, n: nat, host: Host)
    ensures ReadLine(raw, n, host).Values? ==> |ReadLine(raw, n, host).values| == n
  {
  }

  /** Whoever made the image: it is accepted exactly if every row of its three reports holds on the client. */
  lemma AcceptedExact(w: World, host: Host, image: Image, disk: Disk, force: bool)
    ensures Validate(w, host, image, disk, force) == None <==>
              && Passes(image.addedTxt, 2, host, values => AddedRowHolds(image, disk, force, values))
              && Passes(image.changedTxt, 18, host, values => ChangedRowHolds(w, image, disk, force, values))
              && Passes(image.removedTxt, 2, host, values => |values| == 2)
  {
    hide Passes, FirstRejection, CheckChanged, ChangedRowHolds;
    forall values
      ensures ChangedRowHolds(w, image, disk, force, values) <==>
                |values| == COLUMN_COUNT && CheckChanged(w, image, disk, force, values) == None
    {
      ChangedRowExact(w, image, disk, force, values);
    }
    var added := values => AddedRowHolds(image, disk, force, values);
    var changed := values => ChangedRowHolds(w, image, disk, force, values);
    var removed := (values: seq<string>) => |values| == 2;
    PassesExact(image.addedTxt, 2, host, AddedCheck(image, disk, force), added);
    PassesExact(image.changedTxt, COLUMN_COUNT, host, ChangedCheck(w, image, disk, force), changed);
    PassesExact(image.removedTxt, 2, host, RemovedCheck(), removed);
  }
}
