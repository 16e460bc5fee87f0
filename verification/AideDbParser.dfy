/** The reader of an AIDE database: one pass over its rows for the requested paths and properties. */
module AideDbParser {
  import opened Text
  import opened Paths
  import opened ChangedReport

  const OPENING := "@@begin_db"
  const CLOSING := "@@end_db"
  const SPEC := "@@db_spec"

  datatype TableError =
    | BadOpening | UnexpectedEnd | NoSpec | NoNames | MissingProperties | EmptyRow | WrongCount(path: Path)
    | NoSuchColumn | BadClosing | NotFound(path: Path) | BadInfo(path: Path)

  /** The values of one file by the names of their properties. */
  type Row = map<string, string>

  /******* the header *******/

  function Enumerated(names: seq<string>): (m: map<string, nat>)
    ensures m.Keys == set n | n in names
    ensures forall n :: n in m ==> m[n] < |names| && names[m[n]] == n
  {
    if names == [] then map[] else Enumerated(names[..|names| - 1])[names[|names| - 1] := |names| - 1]
  }

  method EnumerateColumns(names: seq<string>) returns (columns: map<string, nat>)
    ensures columns == Enumerated(names)
  {
    columns := map[];
    var columnNo := 0;
    for i := 0 to |names|
      invariant columnNo == i && columns == Enumerated(names[..i])
    {
      assert names[..i + 1][..i] == names[..i];
      columns := columns[names[i] := columnNo];
      columnNo := columnNo + 1;
    }
    assert names[..|names|] == names;
  }

  /** With different names the mapping is one to one and every column has its name. */
  lemma {:induction false} EnumeratedDistinct(names: seq<string>)
    requires forall i, j :: 0 <= i < j < |names| ==> names[i] != names[j]
    ensures |Enumerated(names)| == |names|
    ensures forall i :: 0 <= i < |names| ==> names[i] in Enumerated(names) && Enumerated(names)[names[i]] == i
  {
    if names != [] {
      var n := |names| - 1;
      var init := names[..n];
      assert forall i :: 0 <= i < n ==> init[i] == names[i];
      EnumeratedDistinct(init);
      assert names[n] !in init;
      assert names[n] !in Enumerated(init);
    }
  }

  /** The names after `@@db_spec` and the lines that follow. Without such a line the last line is taken for it. */
  function Header(lines: seq<string>, last: seq<string>): Result<(seq<string>, seq<string>), TableError> {
    if lines == [] then (if last == [] then Err(NoSpec) else Ok((last, [])))
    else
      var words := Words(lines[0]);
      if words != [] && words[0] == SPEC then
        if |words| == 1 then Err(NoNames) else Ok((words[1..], lines[1..]))
      else Header(lines[1..], SplitOnce(lines[0]))
  }

  /** `split(maxsplit=1)` */
  function SplitOnce(line: string): seq<string> {
    var s := LStrip(line);
    if s == "" then []
    else
      var n := WordLen(s);
      if LStrip(s[n..]) == "" then [s[..n]] else [s[..n], LStrip(s[n..])]
  }

  lemma {:induction false} WordsAfterStrip(s: string)
    ensures Words(LStrip(s)) == Words(s) && (LStrip(s) == "" <==> Words(s) == [])
    ensures LStrip(s) != "" ==> !IsSpace(LStrip(s)[0])
    ensures |LStrip(s)| <= |s| && LStrip(s) == s[|s| - |LStrip(s)|..]
  {
    if s != "" && IsSpace(s[0]) {
      WordsAfterStrip(s[1..]);
    }
  }

  /** The first word, and behind it all the rest of the line from the second one on. */
  lemma SplitOnceExact(line: string)
    ensures var words, parts := Words(line), SplitOnce(line);
            && |parts| == (if |words| < 2 then |words| else 2)
            && (|words| > 0 ==> parts[0] == words[0])
            && (|words| > 1 ==>
                  && Words(parts[1]) == words[1..] && !IsSpace(parts[1][0])
                  && |parts[1]| <= |line| && parts[1] == line[|line| - |parts[1]|..])
  {
    hide LStrip;
    WordsAfterStrip(line);
    var s := LStrip(line);
    if s != "" {
      var rest := s[WordLen(s)..];
      WordsAfterStrip(rest);
      assert Words(s) == [s[..WordLen(s)]] + Words(rest);
    }
  }

  const REQUIRED: set<string> :=
    {"name", "lname", "attr", "perm", "inode", "bcount", "uid", "gid", "size", "mtime", "ctime", "lcount", "md5",
     "sha1"}

  /******* the rows *******/

  /** Which row is read: its path is requested. `unquote` is the percent-decoding of the path. */
  function PathOf(unquote: string -> string, line: string): Path
    requires Words(line) != []
  {
    unquote(Words(line)[0])
  }

  /** The words of a row, the path decoded. */
  function Decoded(unquote: string -> string, line: string): seq<string>
    requires Words(line) != []
  {
    Words(line)[0 := unquote(Words(line)[0])]
  }

  function Picked(words: seq<string>, columns: map<string, nat>, properties: set<string>): Row
    requires forall n :: n in properties ==> n in columns && columns[n] < |words|
  {
    map n | n in properties :: words[columns[n]]
  }

  /** Every property is in one of the columns a row is let to have; it may not be if the header repeats a name. */
  predicate ColumnsFit(columns: map<string, nat>, properties: set<string>)
    requires properties <= columns.Keys
  {
    forall n :: n in properties ==> columns[n] < |columns|
  }

  /** The rows read so far, the last one of a path winning. */
  function ReadRows(unquote: string -> string, rows: seq<string>, paths: set<Path>, properties: set<string>,
                    columns: map<string, nat>): Result<map<Path, Row>, TableError>
    requires properties <= columns.Keys
  {
    if rows == [] then Ok(map[])
    else match ReadRows(unquote, rows[..|rows| - 1], paths, properties, columns)
         case Err(e) => Err(e)
         case Ok(read) =>
           var line := rows[|rows| - 1];
           if Words(line) == [] then Err(EmptyRow)
           else
             var path := PathOf(unquote, line);
             if path !in paths then Ok(read)
             else if |Words(line)| != |columns| then Err(WrongCount(path))
             else if !ColumnsFit(columns, properties) then Err(NoSuchColumn)
             else Ok(read[path := Picked(Decoded(unquote, line), columns, properties)])
  }

  lemma {:induction false} ReadRowsStays(unquote: string -> string, rows: seq<string>, paths: set<Path>,
                                         properties: set<string>, columns: map<string, nat>, i: nat)
    requires properties <= columns.Keys && i <= |rows|
    ensures ReadRows(unquote, rows[..i], paths, properties, columns).Err? ==>
              ReadRows(unquote, rows, paths, properties, columns)
                  == ReadRows(unquote, rows[..i], paths, properties, columns)
    decreases |rows| - i
  {
    if i < |rows| {
      assert rows[..i + 1][..i] == rows[..i];
      ReadRowsStays(unquote, rows, paths, properties, columns, i + 1);
    } else {
      assert rows[..i] == rows;
    }
  }

  method GetFilesPropertiesValues(unquote: string -> string, rows: seq<string>, paths: set<Path>,
                                  properties: set<string>, columns: map<string, nat>)
    returns (r: Result<map<Path, Row>, TableError>)
    requires properties <= columns.Keys
    ensures r == match ReadRows(unquote, rows, paths, properties, columns)
                 case Err(e) => Err(e)
                 case Ok(read) => if rows != [] && rows[|rows| - 1] == CLOSING then Ok(read) else Err(BadClosing)
  {
    hide ColumnsFit, Words;
    var read: map<Path, Row> := map[];
    for i := 0 to |rows|
      invariant ReadRows(unquote, rows[..i], paths, properties, columns) == Ok(read)
    {
      assert rows[..i + 1][..i] == rows[..i];
      ReadRowsStays(unquote, rows, paths, properties, columns, i + 1);
      var words := Words(rows[i]);
      if words == [] {
        return Err(EmptyRow);
      }
      var path := unquote(words[0]);
      if path !in paths {
        continue;
      }
      if |words| != |columns| {
        return Err(WrongCount(path));
      }
      words := words[0 := path];
      if !ColumnsFit(columns, properties) {
        return Err(NoSuchColumn);
      }
      RowColumns(columns, properties);
      read := read[path := map n | n in properties :: words[columns[n]]];
    }
    assert rows[..|rows|] == rows;
    r := if rows != [] && rows[|rows| - 1] == CLOSING then Ok(read) else Err(BadClosing);
  }

  lemma RowColumns(columns: map<string, nat>, properties: set<string>)
    requires properties <= columns.Keys && ColumnsFit(columns, properties)
    ensures forall n :: n in properties ==> n in columns && columns[n] < |columns|
  {
  }

  /******* the whole table *******/

  /** The last row of a path. */
  function LastRow(unquote: string -> string, rows: seq<string>, p: Path): Option<seq<string>> {
    if rows == [] then None
    else
      var line := rows[|rows| - 1];
      if Words(line) != [] && PathOf(unquote, line) == p then Some(Decoded(unquote, line))
      else LastRow(unquote, rows[..|rows| - 1], p)
  }

  predicate RowFits(unquote: string -> string, line: string, paths: set<Path>, properties: set<string>,
                    columns: map<string, nat>)
    requires properties <= columns.Keys
  {
    Words(line) != []
      && (PathOf(unquote, line) in paths ==> |Words(line)| == |columns| && ColumnsFit(columns, properties))
  }

  ghost predicate IsRead(unquote: string -> string, rows: seq<string>, paths: set<Path>, properties: set<string>,
                         columns: map<string, nat>, read: map<Path, Row>)
    requires properties <= columns.Keys
  {
    && (forall p :: p in read <==> p in paths && LastRow(unquote, rows, p).Some?)
    && (forall p :: p in read ==> |LastRow(unquote, rows, p).value| == |columns| && ColumnsFit(columns, properties))
    && (forall p :: p in read ==> read[p].Keys == properties)
    && (forall p, n :: p in read && n in properties ==> read[p][n] == LastRow(unquote, rows, p).value[columns[n]])
  }

  /** The one pass gives up exactly on a blank row or a requested row with a wrong number of columns; else it gives
      for each requested path in the table, and for no other, the requested columns of the last row, and no others. */
  lemma {:induction false} OnePassExact(unquote: string -> string, rows: seq<string>, paths: set<Path>,
                                        properties: set<string>, columns: map<string, nat>)
    requires properties <= columns.Keys
    ensures var r := ReadRows(unquote, rows, paths, properties, columns);
            && (r.Ok? <==> forall i :: 0 <= i < |rows| ==> RowFits(unquote, rows[i], paths, properties, columns))
            && (r.Ok? ==> IsRead(unquote, rows, paths, properties, columns, r.value))
  {
    hide Words, PathOf, ColumnsFit, IsRead, Decoded, Picked;
    if rows == [] {
      NothingIsRead(unquote, paths, properties, columns);
    } else {
      var n := |rows| - 1;
      var init, line := rows[..n], rows[n];
      OnePassExact(unquote, init, paths, properties, columns);
      assert forall i :: 0 <= i < n ==> init[i] == rows[i];
      assert rows == init + [line];
      var read := ReadRows(unquote, init, paths, properties, columns);
      if read.Ok? && RowFits(unquote, line, paths, properties, columns) {
        OneMoreRowIsRead(unquote, init, line, paths, properties, columns, read.value);
      }
    }
  }

  lemma NothingIsRead(unquote: string -> string, paths: set<Path>, properties: set<string>, columns: map<string, nat>)
    requires properties <= columns.Keys
    ensures IsRead(unquote, [], paths, properties, columns, map[])
  {
  }

  lemma OneMoreRowIsRead(unquote: string -> string, rows: seq<string>, line: string, paths: set<Path>,
                         properties: set<string>, columns: map<string, nat>, read: map<Path, Row>)
    requires properties <= columns.Keys && IsRead(unquote, rows, paths, properties, columns, read)
    requires RowFits(unquote, line, paths, properties, columns)
    ensures var p := PathOf(unquote, line);
            if p in paths then
              && ColumnsFit(columns, properties) && |Decoded(unquote, line)| == |columns|
              && IsRead(unquote, rows + [line], paths, properties, columns,
                  read[p := Picked(Decoded(unquote, line), columns, properties)])
            else IsRead(unquote, rows + [line], paths, properties, columns, read)
  {
    hide Words, PathOf, LastRow;
    forall q ensures LastRow(unquote, rows + [line], q)
                  == if PathOf(unquote, line) == q then Some(Decoded(unquote, line)) else LastRow(unquote, rows, q) {
      LastRowAppend(unquote, rows, line, q);
    }
  }

  lemma LastRowAppend(unquote: string -> string, rows: seq<string>, line: string, q: Path)
    requires Words(line) != []
    ensures LastRow(unquote, rows + [line], q)
         == if PathOf(unquote, line) == q then Some(Decoded(unquote, line)) else LastRow(unquote, rows, q)
  {
    hide Words, PathOf;
    assert (rows + [line])[..|rows|] == rows;
  }

  function Restricted(table: map<Path, Row>, paths: set<Path>, properties: set<string>): map<Path, Row> {
    map p | p in table && p in paths :: map n | n in table[p] && n in properties :: table[p][n]
  }

  /** Reading part of the table is reading more of it and then dropping the rest. */
  lemma RestrictionCommutes(unquote: string -> string, rows: seq<string>, all: set<Path>, paths: set<Path>,
                            names: set<string>, properties: set<string>, columns: map<string, nat>)
    requires names <= columns.Keys && paths <= all && properties <= names
    requires ReadRows(unquote, rows, all, names, columns).Ok?
    ensures ReadRows(unquote, rows, paths, properties, columns)
         == Ok(Restricted(ReadRows(unquote, rows, all, names, columns).value, paths, properties))
  {
    hide ReadRows, IsRead, RowFits, Restricted;
    OnePassExact(unquote, rows, all, names, columns);
    OnePassExact(unquote, rows, paths, properties, columns);
    forall i | 0 <= i < |rows| ensures RowFits(unquote, rows[i], paths, properties, columns) {
      FewerFit(unquote, rows[i], all, paths, names, properties, columns);
    }
    var table, read := ReadRows(unquote, rows, all, names, columns).value,
        ReadRows(unquote, rows, paths, properties, columns).value;
    RestrictedIsRead(unquote, rows, all, paths, names, properties, columns, table);
    ReadIsUnique(unquote, rows, paths, properties, columns, read, Restricted(table, paths, properties));
  }

  lemma FewerFit(unquote: string -> string, line: string, all: set<Path>, paths: set<Path>, names: set<string>,
                 properties: set<string>, columns: map<string, nat>)
    requires names <= columns.Keys && paths <= all && properties <= names && RowFits(unquote, line, all, names, columns)
    ensures RowFits(unquote, line, paths, properties, columns)
  {
    hide Words, PathOf;
  }

  lemma RestrictedIsRead(unquote: string -> string, rows: seq<string>, all: set<Path>, paths: set<Path>,
                         names: set<string>, properties: set<string>, columns: map<string, nat>, table: map<Path, Row>)
    requires names <= columns.Keys && paths <= all && properties <= names
    requires IsRead(unquote, rows, all, names, columns, table)
    ensures IsRead(unquote, rows, paths, properties, columns, Restricted(table, paths, properties))
  {
    hide LastRow;
  }

  lemma ReadIsUnique(unquote: string -> string, rows: seq<string>, paths: set<Path>, properties: set<string>,
                     columns: map<string, nat>, a: map<Path, Row>, b: map<Path, Row>)
    requires properties <= columns.Keys
    requires IsRead(unquote, rows, paths, properties, columns, a)
             && IsRead(unquote, rows, paths, properties, columns, b)
    ensures a == b
  {
    hide LastRow, ColumnsFit;
    forall p | p in a ensures a[p] == b[p] {
      assert a[p].Keys == b[p].Keys;
      forall n | n in a[p] ensures a[p][n] == b[p][n] {
      }
    }
  }

  /******* the whole file *******/

  function Database(unquote: string -> string, lines: seq<string>, paths: set<Path>,
                    properties: set<string>): Result<map<Path, Row>, TableError> {
    if paths == {} then Ok(map[])
    else if lines == [] then Err(UnexpectedEnd)
    else if lines[0] != OPENING then Err(BadOpening)
    else match Header(lines[1..], [])
         case Err(e) => Err(e)
         case Ok((names, rows)) =>
           var columns := Enumerated(names);
           if !(REQUIRED <= columns.Keys) || !(properties <= columns.Keys) then Err(MissingProperties)
           else match ReadRows(unquote, rows, paths, properties, columns)
                case Err(e) => Err(e)
                case Ok(read) => if rows != [] && rows[|rows| - 1] == CLOSING then Ok(read) else Err(BadClosing)
  }

  method GetAllInfilePropertiesNames(lines: seq<string>) returns (r: Result<(seq<string>, seq<string>), TableError>)
    ensures r == Header(lines, [])
  {
    hide Words, SplitOnce;
    var words: seq<string> := [];
    var rest := lines;
    while rest != []
      invariant Header(lines, []) == Header(rest, words)
      decreases |rest|
    {
      var all := Words(rest[0]);
      if all != [] && all[0] == SPEC {
        if |all| == 1 {
          return Err(NoNames);
        }
        return Ok((all[1..], rest[1..]));
      }
      words := SplitOnce(rest[0]);
      rest := rest[1..];
    }
    r := if words == [] then Err(NoSpec) else Ok((words, []));
  }

  method GetFilesProperties(unquote: string -> string, lines: seq<string>, paths: set<Path>, properties: set<string>)
    returns (r: Result<map<Path, Row>, TableError>)
    ensures r == Database(unquote, lines, paths, properties)
  {
    hide Words, Header, ReadRows, Enumerated;
    if paths == {} {
      return Ok(map[]);
    }
    if lines == [] {
      return Err(UnexpectedEnd);
    }
    if lines[0] != OPENING {
      return Err(BadOpening);
    }
    var header := GetAllInfilePropertiesNames(lines[1..]);
    if header.Err? {
      return Err(header.error);
    }
    var (names, rows) := header.value;
    var columns := EnumerateColumns(names);
    if !(REQUIRED <= columns.Keys) || !(properties <= columns.Keys) {
      return Err(MissingProperties);
    }
    r := GetFilesPropertiesValues(unquote, rows, paths, properties, columns);
  }

  /** The last line is never taken for the header: it has too few words. */
  lemma NoSpecIsRejected(unquote: string -> string, lines: seq<string>, paths: set<Path>, properties: set<string>)
    requires paths != {} && lines != []
    requires forall i :: 0 < i < |lines| ==> Words(lines[i]) == [] || Words(lines[i])[0] != SPEC
    ensures Database(unquote, lines, paths, properties).Err?
  {
    hide Words, ReadRows, SplitOnce, Enumerated;
    HeaderWithoutSpec(lines[1..], []);
    if Header(lines[1..], []).Ok? {
      TooFewNames(Header(lines[1..], []).value.0);
    }
  }

  lemma {:induction false} HeaderWithoutSpec(lines: seq<string>, last: seq<string>)
    requires forall i :: 0 <= i < |lines| ==> Words(lines[i]) == [] || Words(lines[i])[0] != SPEC
    requires |last| <= 2
    ensures Header(lines, last).Ok? ==> |Header(lines, last).value.0| <= 2
    decreases |lines|
  {
    hide Words, SplitOnce;
    if lines != [] {
      SplitOnceIsShort(lines[0]);
      HeaderWithoutSpec(lines[1..], SplitOnce(lines[0]));
    }
  }

  lemma SplitOnceIsShort(line: string)
    ensures |SplitOnce(line)| <= 2
  {
  }

  lemma TooFewNames(names: seq<string>)
    requires |names| <= 2
    ensures !(REQUIRED <= Enumerated(names).Keys)
  {
    assert "name" in REQUIRED && "lname" in REQUIRED && "attr" in REQUIRED;
    assert "name" != "lname" && "name" != "attr" && "lname" != "attr";
  }

  /******* reading back a printed table *******/

  function JoinWords(words: seq<string>): string {
    Join(words, ' ')
  }

  predicate AllWords(words: seq<string>) {
    forall i :: 0 <= i < |words| ==> IsWord(words[i])
  }

  lemma {:induction false} WordsOfJoin(words: seq<string>)
    requires AllWords(words) && words != []
    ensures Words(JoinWords(words)) == words
  {
    hide Words, IsWord;
    if |words| == 1 {
      WordsAtom(words[0]);
      assert words == [words[0]];
    } else {
      WordsOfJoin(words[1..]);
      WordsCons(words[0], ' ', JoinWords(words[1..]));
      assert words == [words[0]] + words[1..];
    }
  }

  function RowLines(rows: seq<seq<string>>): (s: seq<string>)
    ensures |s| == |rows| && forall i :: 0 <= i < |rows| ==> s[i] == JoinWords(rows[i])
  {
    seq(|rows|, i requires 0 <= i < |rows| => JoinWords(rows[i]))
  }

  /** A table as AIDE writes it: other lines may stand before the names. */
  function PrintTable(comments: seq<string>, names: seq<string>, rows: seq<seq<string>>): seq<string> {
    [OPENING] + comments + [JoinWords([SPEC] + names)] + RowLines(rows) + [CLOSING]
  }

  ghost predicate CleanTable(comments: seq<string>, names: seq<string>, rows: seq<seq<string>>) {
    && (forall i :: 0 <= i < |comments| ==> Words(comments[i]) == [] || Words(comments[i])[0] != SPEC)
    && AllWords(names) && (forall n :: n in REQUIRED ==> n in names)
    && (forall i, j :: 0 <= i < j < |names| ==> names[i] != names[j])
    && (forall i :: 0 <= i < |rows| ==> |rows[i]| == |names| && AllWords(rows[i]))
  }

  lemma {:induction false} HeaderSkips(comments: seq<string>, names: seq<string>, rest: seq<string>, last: seq<string>)
    requires forall i :: 0 <= i < |comments| ==> Words(comments[i]) == [] || Words(comments[i])[0] != SPEC
    requires AllWords(names) && names != []
    ensures Header(comments + [JoinWords([SPEC] + names)] + rest, last) == Ok((names, rest))
    decreases |comments|
  {
    hide Words, IsWord, JoinWords, SplitOnce;
    var lines := comments + [JoinWords([SPEC] + names)] + rest;
    if comments == [] {
      SpecIsWord();
      WordsOfJoin([SPEC] + names);
      assert lines[0] == JoinWords([SPEC] + names) && lines[1..] == rest;
      assert ([SPEC] + names)[1..] == names;
    } else {
      assert lines[0] == comments[0] && lines[1..] == comments[1..] + [JoinWords([SPEC] + names)] + rest;
      HeaderSkips(comments[1..], names, rest, SplitOnce(comments[0]));
    }
  }

  lemma SpecIsWord()
    ensures IsWord(SPEC) && IsWord(CLOSING)
  {
  }

  /** The decoded last row of a path in the table. */
  function LastOf(unquote: string -> string, rows: seq<seq<string>>, p: Path): Option<seq<string>> {
    if rows == [] then None
    else
      var row := rows[|rows| - 1];
      if row != [] && unquote(row[0]) == p then Some(row[0 := p]) else LastOf(unquote, rows[..|rows| - 1], p)
  }

  lemma {:induction false} LastRowOfTable(unquote: string -> string, rows: seq<seq<string>>, p: Path)
    requires forall i :: 0 <= i < |rows| ==> rows[i] != [] && AllWords(rows[i])
    ensures LastRow(unquote, RowLines(rows), p) == LastOf(unquote, rows, p)
  {
    hide Words, IsWord, JoinWords;
    if rows != [] {
      var n := |rows| - 1;
      WordsOfJoin(rows[n]);
      LastRowOfTable(unquote, rows[..n], p);
      assert RowLines(rows)[..n] == RowLines(rows[..n]);
    }
  }

  lemma LastRowBeforeClosing(unquote: string -> string, lines: seq<string>, p: Path)
    requires p != unquote(CLOSING)
    ensures LastRow(unquote, lines + [CLOSING], p) == LastRow(unquote, lines, p)
  {
    SpecIsWord();
    WordsAtom(CLOSING);
    assert (lines + [CLOSING])[..|lines|] == lines;
  }

  /** What a printed table gives, whatever the order of its columns: for each requested path in it the requested
      properties of its last row, each from the column with its name. */
  lemma TableIsRead(unquote: string -> string, comments: seq<string>, names: seq<string>, rows: seq<seq<string>>,
                    paths: set<Path>, properties: set<string>)
    requires CleanTable(comments, names, rows) && paths != {} && unquote(CLOSING) !in paths
    requires forall n :: n in properties ==> n in names
    ensures var r := Database(unquote, PrintTable(comments, names, rows), paths, properties);
            && r.Ok?
            && (forall p :: p in r.value <==> p in paths && LastOf(unquote, rows, p).Some?)
            && (forall p :: p in r.value ==> r.value[p].Keys == properties)
            && (forall p, j :: p in r.value && 0 <= j < |names| && names[j] in properties ==>
                  j < |LastOf(unquote, rows, p).value| && r.value[p][names[j]] == LastOf(unquote, rows, p).value[j])
  {
    hide Words, IsWord, JoinWords, Header, LastRow, LastOf, ReadRows, Enumerated, RowLines, ColumnsFit, RowFits,
      AllWords, Database, PrintTable;
    var read := RowLines(rows) + [CLOSING];
    var columns := Enumerated(names);
    EnumeratedDistinct(names);
    NamesFit(names, properties);
    assert "name" in names by { assert "name" in REQUIRED; }
    forall i | 0 <= i < |read| ensures RowFits(unquote, read[i], paths, properties, columns) {
      TableRowsFit(unquote, rows, paths, properties, columns, i);
    }
    OnePassExact(unquote, read, paths, properties, columns);
    TableHeaderIsRead(unquote, comments, names, rows, paths, properties);
    forall p | p in paths ensures LastRow(unquote, read, p) == LastOf(unquote, rows, p) {
      LastRowBeforeClosing(unquote, RowLines(rows), p);
      LastRowOfTable(unquote, rows, p);
    }
  }

  lemma TableHeaderIsRead(unquote: string -> string, comments: seq<string>, names: seq<string>,
                          rows: seq<seq<string>>, paths: set<Path>, properties: set<string>)
    requires CleanTable(comments, names, rows) && paths != {} && properties <= Enumerated(names).Keys
    ensures var read := ReadRows(unquote, RowLines(rows) + [CLOSING], paths, properties, Enumerated(names));
            read.Ok? ==> Database(unquote, PrintTable(comments, names, rows), paths, properties) == read
  {
    hide IsWord, JoinWords, Header, ReadRows, RowLines, Enumerated, Database;
    var lines := PrintTable(comments, names, rows);
    var read := RowLines(rows) + [CLOSING];
    assert "name" in names by { assert "name" in REQUIRED; }
    HeaderSkips(comments, names, read, []);
    assert lines[0] == OPENING && lines[1..] == comments + [JoinWords([SPEC] + names)] + read;
    assert REQUIRED <= Enumerated(names).Keys;
    DatabaseUnfolds(unquote, lines, names, read, paths, properties);
  }

  lemma DatabaseUnfolds(unquote: string -> string, lines: seq<string>, names: seq<string>, rows: seq<string>,
                        paths: set<Path>, properties: set<string>)
    requires paths != {} && lines != [] && lines[0] == OPENING && Header(lines[1..], []) == Ok((names, rows))
    requires REQUIRED <= Enumerated(names).Keys && properties <= Enumerated(names).Keys
    requires rows != [] && rows[|rows| - 1] == CLOSING
    ensures Database(unquote, lines, paths, properties) == ReadRows(unquote, rows, paths, properties, Enumerated(names))
  {
    hide Words, Header, ReadRows, Enumerated;
  }

  lemma NamesFit(names: seq<string>, properties: set<string>)
    requires forall i, j :: 0 <= i < j < |names| ==> names[i] != names[j]
    requires forall n :: n in properties ==> n in names
    ensures properties <= Enumerated(names).Keys && ColumnsFit(Enumerated(names), properties)
  {
    EnumeratedDistinct(names);
  }

  lemma {:induction false} TableRowsFit(unquote: string -> string, rows: seq<seq<string>>, paths: set<Path>,
                                        properties: set<string>, columns: map<string, nat>, i: nat)
    requires properties <= columns.Keys && ColumnsFit(columns, properties)
    requires columns != map[] && unquote(CLOSING) !in paths && i <= |rows|
    requires forall k :: 0 <= k < |rows| ==> |rows[k]| == |columns| && AllWords(rows[k])
    ensures RowFits(unquote, (RowLines(rows) + [CLOSING])[i], paths, properties, columns)
  {
    hide IsWord, JoinWords, ColumnsFit, AllWords, RowFits;
    if i < |rows| {
      RowLineFits(unquote, rows[i], paths, properties, columns);
    } else {
      ClosingFits(unquote, paths, properties, columns);
    }
  }

  lemma RowLineFits(unquote: string -> string, row: seq<string>, paths: set<Path>, properties: set<string>,
                    columns: map<string, nat>)
    requires row != [] && AllWords(row) && |row| == |columns| && properties <= columns.Keys
             && ColumnsFit(columns, properties)
    ensures RowFits(unquote, JoinWords(row), paths, properties, columns)
  {
    hide Words, JoinWords;
    WordsOfJoin(row);
  }

  lemma ClosingFits(unquote: string -> string, paths: set<Path>, properties: set<string>, columns: map<string, nat>)
    requires properties <= columns.Keys && unquote(CLOSING) !in paths
    ensures RowFits(unquote, CLOSING, paths, properties, columns)
  {
    hide Words;
    SpecIsWord();
    WordsAtom(CLOSING);
  }

  /******* entries *******/

  /** A changed entry: its info string, its properties now, and before the change once those are loaded. */
  datatype FullEntry = FullEntry(info: string, properties: Row, previous: Option<Row>)

  const FILE_TYPES := "fdlcbpsDP!?"

  /** What an entry is made with: as many characters as the pattern has, and a type of file for the first. */
  predicate InfoFits(info: string) {
    |info| == |INFO_PATTERN| && info[0] in FILE_TYPES
  }

  /** Every listed path has to be in the database, with an info string an entry can be made with. */
  method GetFilesEntries(unquote: string -> string, lines: seq<string>, simple: map<Path, string>)
    returns (r: Result<map<Path, FullEntry>, TableError>)
    ensures match Database(unquote, lines, simple.Keys, REQUIRED)
            case Err(e) => r == Err(e)
            case Ok(read) =>
              && (r.Ok? <==> simple.Keys <= read.Keys && forall p :: p in simple ==> InfoFits(simple[p]))
              && (r.Ok? ==> r.value.Keys == simple.Keys && forall p :: p in simple ==>
                  r.value[p] == FullEntry(simple[p], read[p], None))
  {
    hide Database, InfoFits;
    var read := GetFilesProperties(unquote, lines, simple.Keys, REQUIRED);
    if read.Err? {
      return Err(read.error);
    }
    var left := simple.Keys;
    var entries: map<Path, FullEntry> := map[];
    while left != {}
      invariant left <= simple.Keys && entries.Keys == simple.Keys - left && entries.Keys <= read.value.Keys
      invariant forall p :: p in entries ==> entries[p] == FullEntry(simple[p], read.value[p], None)
      invariant forall p :: p in entries ==> InfoFits(simple[p])
      decreases |left|
    {
      var p :| p in left;
      if p !in read.value {
        return Err(NotFound(p));
      }
      if !InfoFits(simple[p]) {
        return Err(BadInfo(p));
      }
      entries := entries[p := FullEntry(simple[p], read.value[p], None)];
      left := left - {p};
    }
    r := Ok(entries);
  }

  /** The properties before the change come from the client's database; a path it does not have stays without. */
  method SetChangedPropertiesPrevValues(unquote: string -> string, lines: seq<string>, changed: map<Path, FullEntry>)
    returns (r: Result<map<Path, FullEntry>, TableError>)
    ensures match Database(unquote, lines, changed.Keys, REQUIRED)
            case Err(e) => r == Err(e)
            case Ok(old_) =>
              r.Ok? && r.value.Keys == changed.Keys
              && forall p :: p in changed ==>
                   r.value[p] == changed[p].(previous := if p in old_ then Some(old_[p]) else changed[p].previous)
  {
    hide Words, Header, Enumerated;
    var found := GetFilesProperties(unquote, lines, changed.Keys, REQUIRED);
    if found.Err? {
      return Err(found.error);
    }
    OnlyRequested(unquote, lines, changed.Keys, REQUIRED);
    var left := found.value.Keys;
    var entries := changed;
    while left != {}
      invariant left <= found.value.Keys && entries.Keys == changed.Keys
      invariant forall p :: p in changed ==>
                  entries[p] == changed[p].(previous :=
                    if p in found.value && p !in left then Some(found.value[p]) else changed[p].previous)
      decreases |left|
    {
      var p :| p in left;
      entries := entries[p := entries[p].(previous := Some(found.value[p]))];
      left := left - {p};
    }
    r := Ok(entries);
  }

  lemma OnlyRequested(unquote: string -> string, lines: seq<string>, paths: set<Path>, properties: set<string>)
    ensures Database(unquote, lines, paths, properties).Ok? ==>
              Database(unquote, lines, paths, properties).value.Keys <= paths
  {
    hide Words, Header, Enumerated, ReadRows, LastRow;
    if Database(unquote, lines, paths, properties).Ok? && paths != {} {
      var (names, rows) := Header(lines[1..], []).value;
      OnePassExact(unquote, rows, paths, properties, Enumerated(names));
    }
  }
}
