/** The rows of changed.txt: how the server writes the 18 columns and how the client reads them back. */
module ChangedReport {
  import opened Text

  /** The tracked properties of a file, as the text `str` gives for each, and its size. */
  datatype Properties = Properties(
    name: string, lname: string, attr: string, perm: string, bcount: string, uid: string, gid: string,
    size: nat, mtime: string, ctime: string, inode: string, lcount: string, md5: string, sha1: string)

  datatype Entry = Entry(cur: Properties, prev: Properties, info: string, package: string)

  datatype EntryError = UnrecognisedInfoChar(c: char) | ChangedDespiteReport(ref: char)

  const INFO_PATTERN := "YlZbpugamcinCAXSE"

  /** The info string is as long as the pattern; any other is refused when the entry is made. */
  predicate ValidEntry(e: Entry) {
    |e.info| == |INFO_PATTERN|
  }

  predicate AllowedInfoChar(c: char) {
    c == '.' || c == ':' || c == ' ' || c == '+' || c == '-'
  }

  /** The properties behind one letter of the pattern; none for the letters the program ignores. */
  function PropertiesBehind(p: Properties, ref: char): seq<string> {
    match ref
    case 'l' => [p.name]
    case 'b' => [p.bcount]
    case 'p' => [p.perm]
    case 'u' => [p.uid]
    case 'g' => [p.gid]
    case 'm' => [p.mtime]
    case 'c' => [p.ctime]
    case 'i' => [p.inode]
    case 'n' => [p.lcount]
    case 'C' => [p.md5, p.sha1]
    case _ => []
  }

  /** `"{} ({})".format(new, old)` */
  function NewOld(new_: string, old_: string): string {
    new_ + " (" + old_ + ")"
  }

  function PropertyColumn(cur: string, prev: string, c: char, ref: char): string {
    NewOld(cur, if c == ref then prev else [c])
  }

  function PropertyColumns(cur: seq<string>, prev: seq<string>, c: char, ref: char): seq<string>
    requires |cur| == |prev|
  {
    if cur == [] then [] else [PropertyColumn(cur[0], prev[0], c, ref)] + PropertyColumns(cur[1..], prev[1..], c, ref)
  }

  /** The columns one info character adds. */
  function InfoColumns(e: Entry, i: nat): Result<seq<string>, EntryError>
    requires ValidEntry(e) && i < |e.info|
  {
    var c, ref := e.info[i], INFO_PATTERN[i];
    var cur, prev := PropertiesBehind(e.cur, ref), PropertiesBehind(e.prev, ref);
    if cur == [] then Ok([])
    else if c != ref && !AllowedInfoChar(c) then Err(UnrecognisedInfoChar(c))
    else if c != ref && cur != prev then Err(ChangedDespiteReport(ref))
    else Ok(PropertyColumns(cur, prev, c, ref))
  }

  /** The columns of the info characters from the fourth up to (not including) the n-th. */
  function Middle(e: Entry, n: nat): Result<seq<string>, EntryError>
    requires ValidEntry(e) && 3 <= n <= |e.info|
  {
    if n == 3 then Ok([])
    else match Middle(e, n - 1)
         case Err(x) => Err(x)
         case Ok(s) =>
           match InfoColumns(e, n - 1)
           case Err(x) => Err(x)
           case Ok(t) => Ok(s + t)
  }

  /** Some character from the fourth up to the n-th says that a property the program knows was changed. */
  predicate AnyReported(e: Entry, n: nat)
    requires ValidEntry(e) && n <= |e.info|
  {
    exists i :: 3 <= i < n && e.info[i] == INFO_PATTERN[i] && PropertiesBehind(e.cur, INFO_PATTERN[i]) != []
  }

  const INFO_COLUMNS_END := 13

  function LeadingColumns(e: Entry): seq<string>
    requires ValidEntry(e)
  {
    [e.cur.name, e.cur.lname, e.info, e.cur.attr, [e.info[0]], [e.info[2]],
     NewOld(IntText(e.cur.size), if e.cur.size == e.prev.size then "=" else IntText(e.prev.size))]
  }

  function ChangedProperties(e: Entry): Result<seq<string>, EntryError>
    requires ValidEntry(e)
  {
    match Middle(e, INFO_COLUMNS_END)
    case Err(x) => Err(x)
    case Ok(middle) =>
      var s := LeadingColumns(e) + middle + [e.package];
      Ok(if AnyReported(e, INFO_COLUMNS_END) then s else s[0 := "# " + s[0]])
  }

  method GetAideChangedProperties(e: Entry) returns (r: Result<seq<string>, EntryError>)
    requires ValidEntry(e)
    ensures r == ChangedProperties(e)
  {
    hide InfoColumns, AnyReported, Middle, LeadingColumns;
    var s := LeadingColumns(e);
    var commentEntry := true;
    MiddleStart(e);
    for i := 3 to INFO_COLUMNS_END
      invariant Middle(e, i).Ok? && s == LeadingColumns(e) + Middle(e, i).value
      invariant commentEntry == !AnyReported(e, i)
    {
      var columns, changed := AppendProperty(e, i);
      MiddleStep(e, i);
      if columns.Err? {
        MiddleError(e, i + 1, INFO_COLUMNS_END);
        return Err(columns.error);
      }
      s := s + columns.value;
      if commentEntry && changed {
        commentEntry := false;
      }
    }
    assert |LeadingColumns(e)| > 0 by { LeadingName(e); }
    s := s + [e.package];
    if commentEntry {
      s := s[0 := "# " + s[0]];
    }
    r := Ok(s);
  }

  method AppendProperty(e: Entry, i: nat) returns (r: Result<seq<string>, EntryError>, changed: bool)
    requires ValidEntry(e) && i < |e.info|
    ensures r == InfoColumns(e, i)
    ensures changed <==> e.info[i] == INFO_PATTERN[i] && PropertiesBehind(e.cur, INFO_PATTERN[i]) != []
  {
    hide PropertiesBehind, AllowedInfoChar, NewOld;
    var c, ref := e.info[i], INFO_PATTERN[i];
    var cur, prev := PropertiesBehind(e.cur, ref), PropertiesBehind(e.prev, ref);
    SameCount(e.cur, e.prev, ref);
    changed := false;
    if cur == [] {
      return Ok([]), changed;
    }
    if c == ref {
      changed := true;
    } else if !AllowedInfoChar(c) {
      return Err(UnrecognisedInfoChar(c)), changed;
    }
    var s: seq<string> := [];
    for k := 0 to |cur|
      invariant !changed ==> cur[..k] == prev[..k]
      invariant s + PropertyColumns(cur[k..], prev[k..], c, ref) == PropertyColumns(cur, prev, c, ref)
    {
      if !changed && cur[k] != prev[k] {
        return Err(ChangedDespiteReport(ref)), changed;
      }
      assert cur[k..][1..] == cur[k + 1..] && prev[k..][1..] == prev[k + 1..];
      s := s + [NewOld(cur[k], if changed then prev[k] else [c])];
    }
    assert cur[..|cur|] == cur && prev[..|prev|] == prev && s + [] == s;
    r := Ok(s);
  }

  /** A property that did not change passes with its mark exactly if the mark is its letter, a dot, a colon, a space, a
      plus or a minus; one that changed passes with its letter alone. */
  lemma MarkPassesExact(e: Entry, i: nat)
    requires ValidEntry(e) && i < |e.info| && PropertiesBehind(e.cur, INFO_PATTERN[i]) != []
    ensures InfoColumns(e, i).Ok? <==>
              || e.info[i] == INFO_PATTERN[i]
              || (e.info[i] in ['.', ':', ' ', '+', '-']
                  && PropertiesBehind(e.cur, INFO_PATTERN[i]) == PropertiesBehind(e.prev, INFO_PATTERN[i]))
  {
    hide PropertiesBehind;
  }

  lemma SameCount(a: Properties, b: Properties, ref: char)
    ensures |PropertiesBehind(a, ref)| == |PropertiesBehind(b, ref)|
  {
  }

  lemma LeadingName(e: Entry)
    requires ValidEntry(e)
    ensures |LeadingColumns(e)| == 7 && LeadingColumns(e)[0] == e.cur.name
  {
  }

  lemma MiddleStart(e: Entry)
    requires ValidEntry(e)
    ensures Middle(e, 3) == Ok([]) && !AnyReported(e, 3)
  {
  }

  /** What one more info character adds. */
  lemma MiddleStep(e: Entry, i: nat)
    requires ValidEntry(e) && 3 <= i < |e.info|
    ensures match (Middle(e, i), InfoColumns(e, i))
            case (Err(x), _) => Middle(e, i + 1) == Err(x)
            case (Ok(_), Err(x)) => Middle(e, i + 1) == Err(x)
            case (Ok(s), Ok(t)) => Middle(e, i + 1) == Ok(s + t)
    ensures AnyReported(e, i + 1) <==>
            AnyReported(e, i) || (e.info[i] == INFO_PATTERN[i] && PropertiesBehind(e.cur, INFO_PATTERN[i]) != [])
  {
    hide InfoColumns, PropertiesBehind;
  }

  lemma {:induction false} MiddleError(e: Entry, i: nat, n: nat)
    requires ValidEntry(e) && 3 <= i <= n <= |e.info| && Middle(e, i).Err?
    ensures Middle(e, n) == Middle(e, i)
  {
    if i < n {
      MiddleError(e, i, n - 1);
    }
  }

  /******* the shape of a row *******/

  /** The properties whose columns follow the size, in the order of the columns. */
  function ColumnValues(p: Properties): (values: seq<string>)
    ensures |values| == 10
  {
    [p.bcount, p.perm, p.uid, p.gid, p.mtime, p.ctime, p.inode, p.lcount, p.md5, p.sha1]
  }

  /** The place in the info string that speaks about each of those columns; index 7 has no column, 12 has two. */
  const COLUMN_MARKS: seq<nat> := [3, 4, 5, 6, 8, 9, 10, 11, 12, 12]

  const FIRST_PROPERTY_COLUMN := 7
  const COLUMN_COUNT := 18

  ghost predicate AcceptedMark(e: Entry, k: nat)
    requires ValidEntry(e) && k < 10
  {
    var i := COLUMN_MARKS[k];
    e.info[i] == INFO_PATTERN[i] || (AllowedInfoChar(e.info[i]) && ColumnValues(e.cur)[k] == ColumnValues(e.prev)[k])
  }

  /** Every property column holds the current value and, in brackets, the old value if the mark reports a change
      and the mark itself if not; a row that reports no change starts as a comment. */
  lemma RowShape(e: Entry)
    requires ValidEntry(e) && ChangedProperties(e).Ok?
    ensures var row := ChangedProperties(e).value;
            && |row| == COLUMN_COUNT
            && row[0] == (if AnyReported(e, INFO_COLUMNS_END) then e.cur.name else "# " + e.cur.name)
            && row[1] == e.cur.lname && row[2] == e.info && row[3] == e.cur.attr
            && row[4] == [e.info[0]] && row[5] == [e.info[2]]
            && row[6] == IntText(e.cur.size)
                         + (if e.cur.size == e.prev.size then " (=)" else " (" + IntText(e.prev.size) + ")")
            && row[COLUMN_COUNT - 1] == e.package
            && forall k: nat :: k < 10 ==>
                 && AcceptedMark(e, k)
                 && ColumnIs(e, k, row[FIRST_PROPERTY_COLUMN + k])
  {
    var middle := Middle(e, 13).value;
    hide ColumnIs, AcceptedMark, Middle, AnyReported;
    MiddleShape(e, 13);
    var row := ChangedProperties(e).value;
    forall k: nat | k < 10 ensures row[7 + k] == middle[k] {
    }
  }

  /** The same for one column. */
  lemma RowShapeAt(e: Entry, k: nat)
    requires ValidEntry(e) && ChangedProperties(e).Ok? && k < 10
    ensures |ChangedProperties(e).value| == COLUMN_COUNT
    ensures ColumnIs(e, k, ChangedProperties(e).value[FIRST_PROPERTY_COLUMN + k])
  {
    hide ColumnIs, ChangedProperties, AcceptedMark;
    RowShape(e);
    assert AcceptedMark(e, k);
  }

  ghost predicate ColumnIs(e: Entry, k: nat, column: string)
    requires ValidEntry(e) && k < 10
  {
    var i := COLUMN_MARKS[k];
    column == PropertyColumn(ColumnValues(e.cur)[k], ColumnValues(e.prev)[k], e.info[i], INFO_PATTERN[i])
  }

  /** How many columns the info characters before the n-th have. */
  function ColumnsBefore(n: nat): int {
    if n <= 7 then n - 3 else if n <= 12 then n - 4 else 10
  }

  /** The first m property columns are as they should be. */
  ghost predicate Shaped(e: Entry, s: seq<string>, m: int)
    requires ValidEntry(e) && m <= 10
  {
    |s| == m && forall k: nat :: k < m ==> AcceptedMark(e, k) && ColumnIs(e, k, s[k])
  }

  lemma {:induction false} MiddleShape(e: Entry, n: nat)
    requires ValidEntry(e) && 3 <= n <= 13 && Middle(e, n).Ok?
    ensures Shaped(e, Middle(e, n).value, ColumnsBefore(n))
  {
    hide ColumnIs, AcceptedMark, InfoColumns, Middle, Shaped;
    if n == 3 {
      MiddleStart(e);
      ShapedNothing(e);
    } else {
      MiddleStep(e, n - 1);
      MiddleShape(e, n - 1);
      MiddleShapeStep(e, n - 1, Middle(e, n - 1).value);
    }
  }

  lemma ShapedNothing(e: Entry)
    requires ValidEntry(e)
    ensures Shaped(e, [], 0)
  {
  }

  lemma MiddleShapeStep(e: Entry, i: nat, s: seq<string>)
    requires ValidEntry(e) && 3 <= i < 13 && Shaped(e, s, ColumnsBefore(i)) && InfoColumns(e, i).Ok?
    ensures Shaped(e, s + InfoColumns(e, i).value, ColumnsBefore(i + 1))
  {
    hide ColumnIs, AcceptedMark, InfoColumns;
    if i == 7 {
      IgnoredColumn(e);
    } else if i == 12 {
      ChecksumColumns(e);
    } else {
      SingleColumn(e, i, ColumnsBefore(i));
    }
  }

  lemma {:induction false} PropertyColumnsAt(cur: seq<string>, prev: seq<string>, c: char, ref: char)
    requires |cur| == |prev|
    ensures |PropertyColumns(cur, prev, c, ref)| == |cur|
    ensures forall k :: 0 <= k < |cur| ==>
                PropertyColumns(cur, prev, c, ref)[k] == PropertyColumn(cur[k], prev[k], c, ref)
  {
    if cur != [] {
      PropertyColumnsAt(cur[1..], prev[1..], c, ref);
    }
  }

  lemma IgnoredColumn(e: Entry)
    requires ValidEntry(e)
    ensures InfoColumns(e, 7) == Ok([])
  {
  }

  lemma SingleColumn(e: Entry, i: nat, k: nat)
    requires ValidEntry(e) && k < 8 && i == COLUMN_MARKS[k]
    ensures InfoColumns(e, i).Ok? ==>
              AcceptedMark(e, k) && |InfoColumns(e, i).value| == 1 && ColumnIs(e, k, InfoColumns(e, i).value[0])
  {
    var cur, prev := PropertiesBehind(e.cur, INFO_PATTERN[i]), PropertiesBehind(e.prev, INFO_PATTERN[i]);
    assert cur == [ColumnValues(e.cur)[k]] && prev == [ColumnValues(e.prev)[k]];
    assert cur[0] == prev[0] <==> cur == prev;
    PropertyColumnsAt(cur, prev, e.info[i], INFO_PATTERN[i]);
  }

  lemma ChecksumColumns(e: Entry)
    requires ValidEntry(e)
    ensures InfoColumns(e, 12).Ok? ==>
              && |InfoColumns(e, 12).value| == 2
              && AcceptedMark(e, 8) && ColumnIs(e, 8, InfoColumns(e, 12).value[0])
              && AcceptedMark(e, 9) && ColumnIs(e, 9, InfoColumns(e, 12).value[1])
  {
    var cur, prev := PropertiesBehind(e.cur, 'C'), PropertiesBehind(e.prev, 'C');
    assert cur == [e.cur.md5, e.cur.sha1] && prev == [e.prev.md5, e.prev.sha1];
    assert cur == prev ==> cur[0] == prev[0] && cur[1] == prev[1];
    PropertyColumnsAt(cur, prev, e.info[12], 'C');
  }
}
