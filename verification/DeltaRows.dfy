/** What the client gets to see in the row the server generated for one changed file. */
module DeltaRows {
  import opened Text
  import opened Paths
  import opened Pruning
  import opened FileTree
  import opened ChangedReport
  import opened ReportLines
  import opened SysImgGenerator

  /** A path the text formats can carry, that is no patch, no template and not below the sentinel. */
  ghost predicate OrdinaryPath(p: Path) {
    && IsPath(p) && Trimmed(p) && NUL !in p && '\n' !in p
    && !IsUnder(SENTINEL, p) && !EndsWith(p, PATCH_EXT) && !EndsWith(p, TEMPLATE_EXT)
  }

  predicate KnownKind(n: Node) {
    IsFile(n) || IsDir(n)
  }

  /** The properties whose change keeps a row from being a comment. */
  predicate Reported(a: Node, b: Node) {
    || a.bcount != b.bcount || a.mode != b.mode || a.uid != b.uid || a.gid != b.gid || a.mtime != b.mtime
    || a.ctime != b.ctime || a.inode != b.inode || a.lcount != b.lcount || ContentOf(a) != ContentOf(b)
  }

  function RowOf(w: World, p: Path, a: Node, b: Node): Result<seq<string>, EntryError> {
    ChangedProperties(EntryOf(w, p, a, b))
  }

  /** Whether the i-th info character reports a change. */
  predicate ReportedBy(a: Node, b: Node, i: nat) {
    match i
    case 3 => a.bcount != b.bcount
    case 4 => a.mode != b.mode
    case 5 => a.uid != b.uid
    case 6 => a.gid != b.gid
    case 8 => a.mtime != b.mtime
    case 9 => a.ctime != b.ctime
    case 10 => a.inode != b.inode
    case 11 => a.lcount != b.lcount
    case 12 => ContentOf(a) != ContentOf(b)
    case _ => false
  }

  lemma MarkTells(w: World, p: Path, a: Node, b: Node, i: nat)
    requires 3 <= i < 13
    ensures var e := EntryOf(w, p, a, b);
            && (e.info[i] == INFO_PATTERN[i] && PropertiesBehind(e.cur, INFO_PATTERN[i]) != [] <==> ReportedBy(a, b, i))
            && (e.info[i] == INFO_PATTERN[i] || e.info[i] == '.')
  {
    hide PropertiesOf, ContentOf;
    if i <= 5 {
      if i == 3 {} else if i == 4 {} else {}
    } else if i <= 8 {
      if i == 6 {} else if i == 7 {} else {}
    } else {
      if i == 9 {} else if i == 10 {} else if i == 11 {} else {}
    }
  }

  lemma AnyReportedIsReported(w: World, p: Path, a: Node, b: Node)
    ensures AnyReported(EntryOf(w, p, a, b), INFO_COLUMNS_END) <==> Reported(a, b)
  {
    hide EntryOf, PropertiesBehind, ContentOf;
    var e := EntryOf(w, p, a, b);
    forall i | 3 <= i < 13
      ensures e.info[i] == INFO_PATTERN[i] && PropertiesBehind(e.cur, INFO_PATTERN[i]) != [] <==> ReportedBy(a, b, i)
    {
      MarkTells(w, p, a, b, i);
    }
    assert Reported(a, b) <==>
      || ReportedBy(a, b, 3) || ReportedBy(a, b, 4) || ReportedBy(a, b, 5) || ReportedBy(a, b, 6) || ReportedBy(a, b, 8)
      || ReportedBy(a, b, 9) || ReportedBy(a, b, 10) || ReportedBy(a, b, 11) || ReportedBy(a, b, 12);
  }

  /** The server accepts every entry whose marks tell the truth. */
  lemma EntryAccepted(w: World, p: Path, a: Node, b: Node)
    ensures RowOf(w, p, a, b).Ok?
  {
    var e := EntryOf(w, p, a, b);
    MiddleAccepted(w, p, a, b, INFO_COLUMNS_END);
  }

  lemma {:induction false} MiddleAccepted(w: World, p: Path, a: Node, b: Node, n: nat)
    requires 3 <= n <= 13
    ensures Middle(EntryOf(w, p, a, b), n).Ok?
  {
    hide InfoColumns;
    if n > 3 {
      MiddleAccepted(w, p, a, b, n - 1);
      InfoAccepted(w, p, a, b, n - 1);
    }
  }

  lemma InfoAccepted(w: World, p: Path, a: Node, b: Node, i: nat)
    requires 3 <= i < 13
    ensures InfoColumns(EntryOf(w, p, a, b), i).Ok?
  {
    hide EntryOf, InfoString, PropertyColumns, PropertiesOf;
    MarkTells(w, p, a, b, i);
    if !ReportedBy(a, b, i) {
      UnreportedIsEqual(w, p, a, b, i);
    }
  }

  lemma UnreportedIsEqual(w: World, p: Path, a: Node, b: Node, i: nat)
    requires 3 <= i < 13 && !ReportedBy(a, b, i)
    ensures var e := EntryOf(w, p, a, b); var ref := INFO_PATTERN[i];
            PropertiesBehind(e.cur, ref) == PropertiesBehind(e.prev, ref)
  {
    hide InfoString, Numeral, IntText, Size;
    if i <= 5 {
      if i == 3 {} else if i == 4 {} else {}
    } else if i <= 8 {
      if i == 6 {} else if i == 7 {} else {}
    } else {
      if i == 9 {} else if i == 10 {} else if i == 11 {} else {}
    }
  }

  /** What `GetNewOld` gives for a property that went from one value to another. */
  function Change(prev: string, cur: string): (string, string) {
    (cur, if prev == cur then "." else prev)
  }

  ghost predicate ReadsAs(column: string, prev: string, cur: string) {
    ExpectedValue(column) == Some(prev) && GetNewOld(column) == Some(Change(prev, cur))
  }

  /** One property column of a generated row. */
  lemma GeneratedColumn(e: Entry, k: nat, column: string)
    requires ValidEntry(e) && k < 10 && ColumnIs(e, k, column)
    requires var i := COLUMN_MARKS[k];
             || e.info[i] == INFO_PATTERN[i]
             || (e.info[i] == '.' && ColumnValues(e.cur)[k] == ColumnValues(e.prev)[k])
    requires Value(ColumnValues(e.cur)[k]) && Value(ColumnValues(e.prev)[k])
    ensures ExpectedValue(column) == Some(ColumnValues(e.prev)[k])
    ensures GetNewOld(column) == Some((ColumnValues(e.cur)[k],
                                       if e.info[COLUMN_MARKS[k]] == '.' then "." else ColumnValues(e.prev)[k]))
    ensures Trimmed(column) && NUL !in column && column != ""
  {
    hide ColumnValues, Plain, IsMark, PropertyColumn, ExpectedValue, GetNewOld;
    var i := COLUMN_MARKS[k];
    var cur, prev := ColumnValues(e.cur)[k], ColumnValues(e.prev)[k];
    assert !AllowedInfoChar(INFO_PATTERN[i]);
    ExpectedIsOldExact(cur, prev, e.info[i], INFO_PATTERN[i]);
    GeneratedColumnIsTrimmed(e, k, column);
  }

  lemma GeneratedColumnIsTrimmed(e: Entry, k: nat, column: string)
    requires ValidEntry(e) && k < 10 && ColumnIs(e, k, column)
    requires var i := COLUMN_MARKS[k]; e.info[i] == INFO_PATTERN[i] || e.info[i] == '.'
    requires Value(ColumnValues(e.cur)[k]) && Value(ColumnValues(e.prev)[k])
    ensures Trimmed(column) && NUL !in column && column != ""
  {
    hide ColumnValues, Plain, IsMark, NewOld;
    var i := COLUMN_MARKS[k];
    ColumnIsTrimmed(ColumnValues(e.cur)[k], if e.info[i] == INFO_PATTERN[i] then ColumnValues(e.prev)[k] else ".");
  }

  lemma ColumnIsTrimmed(cur: string, prev: string)
    requires Plain(cur) && (Plain(prev) || prev == "." || prev == "=")
    ensures Trimmed(NewOld(cur, prev)) && NUL !in NewOld(cur, prev) && NewOld(cur, prev) != ""
  {
    var s := NewOld(cur, prev);
    assert s[0] == cur[0] && s[|s| - 1] == ')';
  }

  predicate Value(s: string) {
    Plain(s) && !IsMark(s)
  }

  lemma NumeralIsValue(n: nat, b: Base)
    ensures Value(Numeral(n, b))
  {
    NumeralIsWord(n, b);
    assert Numeral(n, b)[0] in Numeral(n, b);
  }

  lemma IntTextIsValue(n: int)
    ensures Value(IntText(n))
  {
    if n < 0 {
      NumeralIsWord(-n, 10);
      assert |IntText(n)| >= 2;
      assert forall i :: 0 < i < |IntText(n)| ==> IntText(n)[i] == Numeral(-n, 10)[i - 1];
    } else {
      NumeralIsValue(n, 10);
    }
  }

  lemma HashTextIsValue(w: World, n: Node)
    requires Lawful(w)
    ensures Value(HashText(n, w.md5)) && Value(HashText(n, w.sha1))
  {
    assert IsWord("None");
    if IsFile(n) {
      assert |w.md5(n.content)| == MD5_LEN && |w.sha1(n.content)| == SHA1_LEN;
    }
  }

  lemma ColumnValuesArePlain(w: World, p: Path, n: Node)
    requires Lawful(w)
    ensures forall k: nat :: k < 10 ==> Value(ColumnValues(PropertiesOf(w, p, n))[k])
  {
    hide Value, Lawful, Numeral, IntText, HashText;
    NumeralIsValue(n.bcount, 10);
    NumeralIsValue(n.mode, 8);
    NumeralIsValue(n.uid, 10);
    NumeralIsValue(n.gid, 10);
    IntTextIsValue(n.mtime);
    IntTextIsValue(n.ctime);
    NumeralIsValue(n.inode, 10);
    NumeralIsValue(n.lcount, 10);
    HashTextIsValue(w, n);
  }

  /** The client's reading of the columns it uses, for a file that went from a to b. */
  ghost predicate RowMeans(w: World, p: Path, a: Node, b: Node, row: seq<string>) {
    && |row| == COLUMN_COUNT
    && row[0] == (if Reported(a, b) then p else "# " + p)
    && row[4] == [if KindChar(a) == KindChar(b) then KindChar(b) else '!']
    && row[5] == [if Size(b) < Size(a) then '<' else if Size(b) > Size(a) then '>' else '=']
    && ExpectedValue(row[6]) == Some(IntText(Size(a)))
    && ReadsAs(row[8], Numeral(a.mode, 8), Numeral(b.mode, 8))
    && ReadsAs(row[9], Numeral(a.uid, 10), Numeral(b.uid, 10))
    && ReadsAs(row[10], Numeral(a.gid, 10), Numeral(b.gid, 10))
    && ReadsAs(row[14], Numeral(a.lcount, 10), Numeral(b.lcount, 10))
    && ExpectedValue(row[15]) == Some(HashText(a, w.md5))
    && ExpectedValue(row[16]) == Some(HashText(a, w.sha1))
    && GetNewOld(row[16])
        == Some((HashText(b, w.sha1), if ContentOf(a) == ContentOf(b) then "." else HashText(a, w.sha1)))
  }

  function ValueAt(w: World, p: Path, n: Node, k: nat): string
    requires k < 10
  {
    ColumnValues(PropertiesOf(w, p, n))[k]
  }

  lemma PropertyMeans(w: World, p: Path, a: Node, b: Node, k: nat, column: string)
    requires Lawful(w) && k < 10 && ColumnIs(EntryOf(w, p, a, b), k, column)
    ensures ExpectedValue(column) == Some(ValueAt(w, p, a, k))
    ensures GetNewOld(column) ==
              Some((ValueAt(w, p, b, k), if ReportedBy(a, b, COLUMN_MARKS[k]) then ValueAt(w, p, a, k) else "."))
    ensures Trimmed(column) && NUL !in column && column != ""
  {
    hide PropertiesOf, InfoString, ColumnIs, ExpectedValue, GetNewOld, Plain, IsMark, Lawful;
    var e := EntryOf(w, p, a, b);
    var i := COLUMN_MARKS[k];
    ColumnValuesArePlain(w, p, a);
    ColumnValuesArePlain(w, p, b);
    MarkTells(w, p, a, b, i);
    assert PropertiesBehind(e.cur, INFO_PATTERN[i]) != [] && INFO_PATTERN[i] != '.';
    if !ReportedBy(a, b, i) {
      UnreportedColumn(w, p, a, b, k);
    }
    GeneratedColumn(e, k, column);
  }

  lemma UnreportedColumn(w: World, p: Path, a: Node, b: Node, k: nat)
    requires k < 10 && !ReportedBy(a, b, COLUMN_MARKS[k])
    ensures ValueAt(w, p, a, k) == ValueAt(w, p, b, k)
  {
    hide Numeral, IntText, Size;
    if k <= 4 {
      if k == 0 {} else if k == 1 {} else if k == 2 {} else if k == 3 {} else {}
    } else {
      if k == 5 {} else if k == 6 {} else if k == 7 {} else if k == 8 {} else {}
    }
  }

  lemma LeadingMeans(w: World, p: Path, a: Node, b: Node)
    ensures var s := LeadingColumns(EntryOf(w, p, a, b));
            && s[4] == [if KindChar(a) == KindChar(b) then KindChar(b) else '!']
            && s[5] == [if Size(b) < Size(a) then '<' else if Size(b) > Size(a) then '>' else '=']
            && ExpectedValue(s[6]) == Some(IntText(Size(a)))
            && (forall i :: 1 <= i < 7 ==> Trimmed(s[i]) && NUL !in s[i])
  {
    hide Numeral, IntText, ExpectedValue, Size, Plain;
    var e := EntryOf(w, p, a, b);
    ExpectedSizeIsOld(Size(b), Size(a));
    InfoIsTrimmed(a, b);
    IntTextIsValue(Size(a));
    IntTextIsValue(Size(b));
    ColumnIsTrimmed(IntText(Size(b)), if Size(b) == Size(a) then "=" else IntText(Size(a)));
    NumeralIsValue(b.attr, 10);
    PlainIsTrimmed(Numeral(b.attr, 10));
  }

  lemma PlainIsTrimmed(s: string)
    requires Plain(s)
    ensures Trimmed(s) && NUL !in s
  {
  }

  lemma InfoIsTrimmed(a: Node, b: Node)
    ensures Trimmed(InfoString(a, b)) && NUL !in InfoString(a, b)
  {
    InfoSigns(a, b);
    hide InfoString;
    assert !InfoSign(NUL);
    SignsAreTrimmed(InfoString(a, b));
  }

  lemma SignsAreTrimmed(s: string)
    requires forall c :: c in s ==> InfoSign(c)
    ensures Trimmed(s)
  {
    if s != "" {
      assert s[0] in s && s[|s| - 1] in s;
    }
  }

  lemma SameNumeral(m: nat, n: nat, b: Base)
    ensures Numeral(m, b) == Numeral(n, b) <==> m == n
  {
    NumeralInjective(m, n, b);
  }

  lemma RowIsRead(w: World, p: Path, a: Node, b: Node)
    requires Lawful(w) && KnownKind(a) && KnownKind(b)
    ensures RowOf(w, p, a, b).Ok? && RowMeans(w, p, a, b, RowOf(w, p, a, b).value)
  {
    hide EntryOf, ColumnIs, ValueAt, ExpectedValue, GetNewOld, Numeral, HashText, IntText, ChangedProperties,
      AnyReported, ContentOf, LeadingColumns, AcceptedMark, Lawful;
    EntryAccepted(w, p, a, b);
    var e := EntryOf(w, p, a, b);
    var row := RowOf(w, p, a, b).value;
    RowShape(e);
    AnyReportedIsReported(w, p, a, b);
    LeadingMeans(w, p, a, b);
    LeadingInRow(e, row);
    EntryName(w, p, a, b);
    ValuesAt(w, p, a);
    ValuesAt(w, p, b);
    NumberColumn(w, p, a, b, 1, a.mode, b.mode, 8);
    NumberColumn(w, p, a, b, 2, a.uid, b.uid, 10);
    NumberColumn(w, p, a, b, 3, a.gid, b.gid, 10);
    NumberColumn(w, p, a, b, 7, a.lcount, b.lcount, 10);
    RowShapeAt(e, 8);
    PropertyMeans(w, p, a, b, 8, row[15]);
    RowShapeAt(e, 9);
    PropertyMeans(w, p, a, b, 9, row[16]);
  }

  /** A column with a number that is marked as changed exactly if it is. */
  lemma NumberColumn(w: World, p: Path, a: Node, b: Node, k: nat, m: nat, n: nat, base: Base)
    requires Lawful(w) && k < 10 && ChangedProperties(EntryOf(w, p, a, b)).Ok?
    requires ValueAt(w, p, a, k) == Numeral(m, base) && ValueAt(w, p, b, k) == Numeral(n, base)
    requires ReportedBy(a, b, COLUMN_MARKS[k]) <==> m != n
    ensures RowOf(w, p, a, b).Ok? && |RowOf(w, p, a, b).value| == COLUMN_COUNT
    ensures ReadsAs(RowOf(w, p, a, b).value[FIRST_PROPERTY_COLUMN + k], Numeral(m, base), Numeral(n, base))
  {
    hide EntryOf, ColumnIs, ValueAt, ExpectedValue, GetNewOld, Numeral, ChangedProperties, Lawful, ReportedBy;
    RowShapeAt(EntryOf(w, p, a, b), k);
    PropertyMeans(w, p, a, b, k, RowOf(w, p, a, b).value[FIRST_PROPERTY_COLUMN + k]);
    SameNumeral(m, n, base);
  }

  lemma EntryName(w: World, p: Path, a: Node, b: Node)
    ensures EntryOf(w, p, a, b).cur.name == p && EntryOf(w, p, a, b).package == w.package(p)
  {
  }

  lemma LeadingInRow(e: Entry, row: seq<string>)
    requires ValidEntry(e) && ChangedProperties(e) == Ok(row)
    ensures |row| == COLUMN_COUNT && forall i :: 1 <= i < 7 ==> row[i] == LeadingColumns(e)[i]
  {
    hide AcceptedMark, ColumnIs, ChangedProperties, AnyReported, IntText;
    RowShape(e);
  }

  lemma ValuesAt(w: World, p: Path, n: Node)
    ensures ValueAt(w, p, n, 1) == Numeral(n.mode, 8)
    ensures ValueAt(w, p, n, 2) == Numeral(n.uid, 10)
    ensures ValueAt(w, p, n, 3) == Numeral(n.gid, 10)
    ensures ValueAt(w, p, n, 7) == Numeral(n.lcount, 10)
    ensures ValueAt(w, p, n, 8) == HashText(n, w.md5)
    ensures ValueAt(w, p, n, 9) == HashText(n, w.sha1)
  {
    hide Numeral, IntText, HashText;
  }

  /** The row of a changed file reaches the client as the columns the server put in it, or not at all
      when nothing in it was reported as changed. */
  lemma RowSurvives(w: World, p: Path, a: Node, b: Node, host: Host)
    requires Lawful(w) && KnownKind(a) && KnownKind(b) && OrdinaryPath(p)
    ensures var row := RowOf(w, p, a, b);
            && row.Ok? && |row.value| == COLUMN_COUNT
            && ReadLine(PrintRow(row.value), COLUMN_COUNT, host)
                == if Reported(a, b) then Values(row.value) else Comment
  {
    hide EntryOf, ColumnIs, ValueAt, RowMeans, ChangedProperties, PrintRow, ReadLine, Trimmed, Lawful, OrdinaryPath,
      Reported, Separable;
    RowIsRead(w, p, a, b);
    var row := RowOf(w, p, a, b).value;
    RowColumnsClean(w, p, a, b);
    if Reported(a, b) {
      ChangedRowReadBack(row, host);
    } else {
      OrdinaryStart(p);
      CommentedRowIsSkipped(row, p, host);
    }
  }

  lemma OrdinaryStart(p: Path)
    requires OrdinaryPath(p)
    ensures p != "" && p[0] == '/' && Trimmed(p) && NUL !in p
  {
    PathStartsWithSlash(p);
  }

  lemma RowColumnsClean(w: World, p: Path, a: Node, b: Node)
    requires Lawful(w) && KnownKind(a) && KnownKind(b) && OrdinaryPath(p) && RowOf(w, p, a, b).Ok?
    ensures var row := RowOf(w, p, a, b).value;
            && |row| == COLUMN_COUNT && Separable(row)
            && row[0] == (if Reported(a, b) then p else "# " + p)
            && (Reported(a, b) ==> row[0][0] != '#' && forall c :: c in row ==> Trimmed(c))
  {
    hide EntryOf, ColumnIs, ValueAt, ChangedProperties, AnyReported, LeadingColumns, AcceptedMark, Lawful,
      OrdinaryPath, Trimmed, Reported;
    var e := EntryOf(w, p, a, b);
    var row := RowOf(w, p, a, b).value;
    RowShape(e);
    AnyReportedIsReported(w, p, a, b);
    EntryName(w, p, a, b);
    OrdinaryStart(p);
    LeadingMeans(w, p, a, b);
    LeadingInRow(e, row);
    LawfulPackage(w, p);
    forall i | 0 <= i < |row| ensures NUL !in row[i] && (i > 0 ==> Trimmed(row[i])) {
      if 7 <= i < 17 {
        RowShapeAt(e, i - 7);
        PropertyMeans(w, p, a, b, i - 7, row[i]);
      }
    }
  }

  lemma LawfulPackage(w: World, p: Path)
    requires Lawful(w)
    ensures w.package(p) != "" && Trimmed(w.package(p)) && NUL !in w.package(p)
  {
  }
}
