/** A report line: the NUL-separated, space-padded form the server writes and the client's reading of it. */
module ReportLines {
  import opened Text
  import opened ChangedReport

  /******* writing *******/

  /** The widths of the 18 columns of changed.txt, and the spaces the format adds after them. */
  const WIDTHS: seq<nat> := [50, 50, 24, 18, 10, 16, 25, 25, 25, 25, 25, 30, 30, 25, 12, 73, 100, 25]
  const EXTRA: seq<nat> := [0, 0, 1, 0, 0, 0, 0, 0, 0, 0, 0, 0, 0, 0, 0, 0, 0, 0]

  function Padding(width: nat, s: string): nat {
    if |s| < width then width - |s| else 0
  }

  /** `"{:<width}".format(column + "\0")` */
  function Cell(column: string, pad: nat): string {
    column + [NUL] + Repeat(' ', pad)
  }

  function Cells(columns: seq<string>, pads: seq<nat>): string
    requires |pads| == |columns|
  {
    if columns == [] then ""
    else
      var n := |columns| - 1;
      Cells(columns[..n], pads[..n]) + Cell(columns[n], pads[n])
  }

  function Pads(columns: seq<string>): (pads: seq<nat>)
    requires |columns| <= COLUMN_COUNT
    ensures |pads| == |columns|
  {
    seq(|columns|, i requires 0 <= i < |columns| => Padding(WIDTHS[i], columns[i] + [NUL]) + EXTRA[i])
  }

  function PrintRow(columns: seq<string>): string
    requires |columns| == COLUMN_COUNT
  {
    RStripChar(Strip(Cells(columns, Pads(columns))), NUL)
  }

  /** None is the error raised for a row that does not have one value for each header. */
  method PrintChangedRow(columns: seq<string>) returns (line: Option<string>)
    ensures line == if |columns| == COLUMN_COUNT then Some(PrintRow(columns)) else None
  {
    if |columns| != COLUMN_COUNT {
      return None;
    }
    var text := "";
    for i := 0 to |columns|
      invariant text == Cells(columns[..i], Pads(columns)[..i])
    {
      var p := columns[i] + [NUL];
      text := text + (p + Repeat(' ', Padding(WIDTHS[i], p)) + Repeat(' ', EXTRA[i]));
      assert columns[..i + 1][..i] == columns[..i] && Pads(columns)[..i + 1][..i] == Pads(columns)[..i];
      assert p + Repeat(' ', Padding(WIDTHS[i], p)) + Repeat(' ', EXTRA[i]) == Cell(columns[i], Pads(columns)[i]);
    }
    assert columns[..|columns|] == columns && Pads(columns)[..|columns|] == Pads(columns);
    line := Some(RStripChar(Strip(text), NUL));
  }

  const NAME_WIDTH := 100

  /** A line of added.txt or removed.txt. */
  function PrintEntry(path: string, package: string): string {
    path + [NUL] + Repeat(' ', Padding(NAME_WIDTH, path + [NUL])) + package
  }

  /******* reading *******/

  datatype Host = Host(system: string, distro: string, machine: string)

  datatype Row = Blank | Comment | ForeignSystem | Corrupted(values: seq<string>) | Values(values: seq<string>)

  function StripAll(parts: seq<string>): (r: seq<string>)
    ensures |r| == |parts| && forall i :: 0 <= i < |r| ==> r[i] == Strip(parts[i])
  {
    seq(|parts|, i requires 0 <= i < |parts| => Strip(parts[i]))
  }

  /** The value behind `# name : value` in a comment line. */
  function CommentValue(name: string, comment: string): Option<string> {
    var t := LStrip(comment);
    if t == "" || t[0] != '#' then None
    else
      var u := LStrip(t[1..]);
      if !(name <= u) then None
      else
        var v := LStrip(u[|name|..]);
        if v == "" || v[0] != ':' then None else Some(LStrip(v[1..]))
  }

  function Lower(s: string): string {
    seq(|s|, i requires 0 <= i < |s| => if 'A' <= s[i] <= 'Z' then s[i] - 'A' + 'a' else s[i])
  }

  /** The same character, or the same letter in its two cases. */
  predicate SameButCase(c: char, d: char) {
    c == d || ('A' <= c <= 'Z' && d == c - 'A' + 'a') || ('A' <= d <= 'Z' && c == d - 'A' + 'a')
  }

  /** Two texts are the same in lower case exactly if they are the same but for the case of letters. */
  lemma LowerExact(s: string, t: string)
    ensures Lower(s) == Lower(t) <==> |s| == |t| && forall i :: 0 <= i < |s| ==> SameButCase(s[i], t[i])
  {
    if |s| == |t| {
      forall i | 0 <= i < |s| ensures Lower(s)[i] == Lower(t)[i] <==> SameButCase(s[i], t[i]) {
      }
      if Lower(s) == Lower(t) {
        forall i | 0 <= i < |s| ensures SameButCase(s[i], t[i]) {
          assert Lower(s)[i] == Lower(t)[i];
        }
      }
    } else {
      assert |Lower(s)| == |s| && |Lower(t)| == |t|;
    }
  }

  predicate Present(value: Option<string>) {
    value.Some? && value.value != ""
  }

  /** A comment that names the system, distribution or processor must name the local one. */
  predicate CommentFits(comment: string, host: Host) {
    var system := CommentValue("System", comment);
    var distro := CommentValue("GNU/Linux distribution", comment);
    var machine := CommentValue("CPU architecture", comment);
    if Present(system) then Lower(host.system) == Lower(system.value)
    else if Present(distro) then Lower(host.distro) == Lower(distro.value)
    else if Present(machine) then Lower(host.machine) == Lower(machine.value)
    else true
  }

  /** One line of a report of which rows have n values. */
  function ReadLine(raw: string, n: nat, host: Host): Row {
    var line := Strip(raw);
    if line != "" && line[0] == '#' then
      if CommentFits(line, host) then Comment else ForeignSystem
    else if line == "" then Blank
    else
      var values := StripAll(Split(line, NUL));
      if |values| != n then Corrupted(values) else Values(values)
  }

  function GetNewOld(property: string): Option<(string, string)> {
    var words := Words(property);
    if |words| != 2 then None
    else Some((words[0], RStripChar(LStripChar(words[1], '('), ')')))
  }

  /** The value the client's file must have before the change. */
  function ExpectedValue(property: string): Option<string> {
    match GetNewOld(property)
    case None => None
    case Some((new_, old_)) => Some(if old_ == "." || old_ == "=" then new_ else old_)
  }

  /******* what is written is read back *******/

  /** The cells without what follows the last column. */
  function Body(columns: seq<string>, pads: seq<nat>): string
    requires |columns| > 0 && |pads| == |columns|
  {
    var n := |columns| - 1;
    if n == 0 then columns[0]
    else Body(columns[..n], pads[..n]) + [NUL] + (Repeat(' ', pads[n - 1]) + columns[n])
  }

  lemma {:induction false} CellsAreBody(columns: seq<string>, pads: seq<nat>)
    requires |columns| > 0 && |pads| == |columns|
    ensures Cells(columns, pads) == Body(columns, pads) + [NUL] + Repeat(' ', pads[|columns| - 1])
  {
    var n := |columns| - 1;
    if n > 0 {
      CellsAreBody(columns[..n], pads[..n]);
    } else {
      assert columns[..0] == [];
    }
  }

  ghost predicate Separable(columns: seq<string>) {
    && |columns| > 0
    && (forall c :: c in columns ==> NUL !in c)
    && columns[0] != "" && columns[|columns| - 1] != ""
    && !IsSpace(columns[0][0])
  }

  lemma {:induction false} BodyEnds(columns: seq<string>, pads: seq<nat>)
    requires |columns| > 0 && |pads| == |columns| && columns[0] != "" && columns[|columns| - 1] != ""
    ensures var b := Body(columns, pads);
            b != "" && b[0] == columns[0][0] && b[|b| - 1] == columns[|columns| - 1][|columns[|columns| - 1]| - 1]
  {
    BodyStart(columns, pads);
  }

  lemma {:induction false} BodyStart(columns: seq<string>, pads: seq<nat>)
    requires |columns| > 0 && |pads| == |columns| && columns[0] != ""
    ensures Body(columns, pads) != "" && Body(columns, pads)[0] == columns[0][0]
  {
    var n := |columns| - 1;
    if n > 0 {
      BodyStart(columns[..n], pads[..n]);
    }
  }

  lemma {:induction false} SplitAppend(s: string, t: string, sep: char)
    requires sep !in t
    ensures Split(s + [sep] + t, sep) == Split(s, sep) + [t]
  {
    if s == "" {
      assert s + [sep] + t == [sep] + t;
      assert ([sep] + t)[1..] == t;
      SplitAtom(t, sep);
    } else {
      assert (s + [sep] + t)[1..] == s[1..] + [sep] + t;
      SplitAppend(s[1..], t, sep);
    }
  }

  lemma {:induction false} SplitBody(columns: seq<string>, pads: seq<nat>)
    requires |columns| > 0 && |pads| == |columns| && forall c :: c in columns ==> NUL !in c
    requires forall c :: c in columns ==> Trimmed(c)
    ensures StripAll(Split(Body(columns, pads), NUL)) == columns
  {
    var n := |columns| - 1;
    var last := columns[n];
    StripTrimmed(last);
    if n == 0 {
      SplitAtom(last, NUL);
    } else {
      var init := columns[..n];
      SplitBody(init, pads[..n]);
      var piece := Repeat(' ', pads[n - 1]) + last;
      SplitAppend(Body(init, pads[..n]), piece, NUL);
      if last == "" {
        assert piece == Repeat(' ', pads[n - 1]);
        StripSpaces(pads[n - 1]);
      } else {
        StripPadding(pads[n - 1], last, 0);
        assert piece + Repeat(' ', 0) == piece;
      }
      assert columns == init + [last];
    }
  }

  lemma PrintedIsBody(columns: seq<string>, pads: seq<nat>)
    requires Separable(columns) && |pads| == |columns|
    ensures RStripChar(Strip(Cells(columns, pads)), NUL) == Body(columns, pads)
  {
    hide Cells, Body, IsSpace;
    var body := Body(columns, pads);
    CellsAreBody(columns, pads);
    BodyEnds(columns, pads);
    LastColumnHasNoNul(columns);
    StripPrinted(body, pads[|columns| - 1]);
  }

  lemma LastColumnHasNoNul(columns: seq<string>)
    requires Separable(columns)
    ensures var last := columns[|columns| - 1]; last[|last| - 1] != NUL
  {
    var last := columns[|columns| - 1];
    assert last in columns;
    assert last[|last| - 1] in last;
  }

  lemma StripPrinted(body: string, pad: nat)
    requires body != "" && !IsSpace(body[0]) && body[|body| - 1] != NUL
    ensures RStripChar(Strip(body + [NUL] + Repeat(' ', pad)), NUL) == body
  {
    var printed := body + [NUL] + Repeat(' ', pad);
    assert printed[0] == body[0];
    assert LStrip(printed) == printed;
    RStripPadding(body + [NUL], pad);
    assert (body + [NUL])[..|body|] == body;
  }

  /** A line of trimmed columns is read back as those columns, and only trimmed columns are ever read back. */
  lemma BodyReadBack(columns: seq<string>, pads: seq<nat>, host: Host)
    requires Separable(columns) && |pads| == |columns| && columns[0][0] != '#'
    ensures ReadLine(Body(columns, pads), |columns|, host) == Values(columns) <==>
              forall c :: c in columns ==> Trimmed(c)
  {
    hide Body, Split, Cells;
    var body := Body(columns, pads);
    BodyEnds(columns, pads);
    if forall c :: c in columns ==> Trimmed(c) {
      assert Trimmed(columns[0]) && Trimmed(columns[|columns| - 1]);
      TrimmedBodyReads(columns, pads, host);
    } else {
      ReadValuesAreTrimmed(body, |columns|, host);
    }
  }

  lemma TrimmedBodyReads(columns: seq<string>, pads: seq<nat>, host: Host)
    requires Separable(columns) && |pads| == |columns| && columns[0][0] != '#'
    requires forall c :: c in columns ==> Trimmed(c)
    ensures ReadLine(Body(columns, pads), |columns|, host) == Values(columns)
  {
    hide Body, Split, Cells, IsSpace, CommentFits, Strip;
    var body := Body(columns, pads);
    BodyEnds(columns, pads);
    assert Trimmed(columns[|columns| - 1]);
    assert Trimmed(body);
    StripTrimmed(body);
    SplitBody(columns, pads);
    assert |Split(body, NUL)| == |StripAll(Split(body, NUL))| == |columns|;
  }

  lemma ReadValuesAreTrimmed(raw: string, n: nat, host: Host)
    ensures ReadLine(raw, n, host).Values? ==> forall v :: v in ReadLine(raw, n, host).values ==> Trimmed(v)
  {
    hide Split, CommentFits, Trimmed;
    var parts := Split(Strip(raw), NUL);
    forall i | 0 <= i < |parts| ensures Trimmed(StripAll(parts)[i]) {
      StripFixedPoints(parts[i]);
    }
  }

  /** The 18 columns of a changed row survive printing and reading exactly when each of them is trimmed. */
  lemma ChangedRowReadBack(columns: seq<string>, host: Host)
    requires |columns| == COLUMN_COUNT && Separable(columns) && columns[0][0] != '#'
    ensures ReadLine(PrintRow(columns), COLUMN_COUNT, host) == Values(columns) <==>
              forall c :: c in columns ==> Trimmed(c)
  {
    PrintedIsBody(columns, Pads(columns));
    BodyReadBack(columns, Pads(columns), host);
  }

  /** So does a line of added.txt or removed.txt. */
  lemma EntryReadBack(path: string, package: string, host: Host)
    requires Separable([path, package]) && path[0] != '#'
    ensures ReadLine(PrintEntry(path, package), 2, host) == Values([path, package]) <==>
              Trimmed(path) && Trimmed(package)
  {
    var columns, pads: seq<nat> := [path, package], [Padding(NAME_WIDTH, path + [NUL]), 0];
    assert columns[..1] == [path];
    assert Body(columns, pads) == PrintEntry(path, package);
    assert columns[0] == path && columns[1] == package;
    BodyReadBack(columns, pads, host);
  }

  /** A row without a reported change is written as a comment, and the client passes over it whatever its host. */
  lemma CommentedRowIsSkipped(columns: seq<string>, name: string, host: Host)
    requires |columns| == COLUMN_COUNT && Separable(columns)
    requires columns[0] == "# " + name && name != "" && name[0] == '/'
    ensures ReadLine(PrintRow(columns), COLUMN_COUNT, host) == Comment
  {
    hide Body, Pads, Cells, ReadLine, Separable;
    PrintedIsBody(columns, Pads(columns));
    BodyPrefix(columns, Pads(columns));
    CommentLineIsSkipped(PrintRow(columns), host);
  }

  lemma CommentLineIsSkipped(raw: string, host: Host)
    requires |raw| >= 3 && raw[0] == '#' && raw[1] == ' ' && raw[2] == '/'
    ensures ReadLine(raw, COLUMN_COUNT, host) == Comment
  {
    hide Split, CommentValue, StripAll;
    var line := Strip(raw);
    assert LStrip(raw) == raw;
    StripKeepsStart(raw, 3);
    assert line[..3] == raw[..3];
    assert line[0] == line[..3][0] && line[1] == line[..3][1] && line[2] == line[..3][2];
    NoCommentValue(line, "System");
    NoCommentValue(line, "GNU/Linux distribution");
    NoCommentValue(line, "CPU architecture");
  }

  lemma NoCommentValue(line: string, name: string)
    requires |line| >= 3 && line[0] == '#' && line[1] == ' ' && line[2] == '/' && name != "" && name[0] != '/'
    ensures CommentValue(name, line) == None
  {
    assert LStrip(line) == line;
    var t := line[1..];
    assert t[0] == ' ' && t[1..][0] == '/';
    assert LStrip(t) == t[1..];
  }

  lemma {:induction false} BodyPrefix(columns: seq<string>, pads: seq<nat>)
    requires |columns| > 0 && |pads| == |columns|
    ensures columns[0] <= Body(columns, pads)
  {
    var n := |columns| - 1;
    if n > 0 {
      BodyPrefix(columns[..n], pads[..n]);
    }
  }

  /** Stripping the end cannot reach the last non-space character. */
  lemma {:induction false} StripKeepsStart(s: string, n: nat)
    requires 0 < n <= |s| && !IsSpace(s[n - 1])
    ensures |RStrip(s)| >= n && RStrip(s)[..n] == s[..n]
  {
    if IsSpace(s[|s| - 1]) {
      StripKeepsStart(s[..|s| - 1], n);
    }
  }

  /******* the values the client reads from a property column *******/

  predicate IsMark(s: string) {
    s == "." || s == "=" || s == ":" || s == "+" || s == "-"
  }

  lemma NewOldReadBack(new_: string, old_: string)
    requires Plain(new_) && (Plain(old_) || IsMark(old_))
    ensures GetNewOld(NewOld(new_, old_)) == Some((new_, old_))
  {
    hide Words, LStripChar, RStripChar, IsWord;
    var w := "(" + old_ + ")";
    assert NewOld(new_, old_) == new_ + [' '] + w;
    BracketedIsWord(old_);
    WordsCons(new_, ' ', w);
    WordsAtom(w);
    BracketsComeOff(old_);
  }

  lemma BracketedIsWord(old_: string)
    requires Plain(old_) || IsMark(old_)
    ensures IsWord("(" + old_ + ")") && old_ != "" && old_[0] != '(' && old_[|old_| - 1] != ')'
  {
    assert old_[0] in old_ && old_[|old_| - 1] in old_;
  }

  lemma BracketsComeOff(old_: string)
    requires old_ != "" && old_[0] != '(' && old_[|old_| - 1] != ')'
    ensures RStripChar(LStripChar("(" + old_ + ")", '('), ')') == old_
  {
    var w := "(" + old_ + ")";
    assert w[1..] == old_ + ")";
    assert (old_ + ")")[..|old_|] == old_;
    assert LStripChar(w, '(') == old_ + ")";
    assert RStripChar(old_ + ")", ')') == RStripChar(old_, ')') == old_;
  }

  lemma BlankMarkIsMalformed(new_: string)
    requires Plain(new_)
    ensures GetNewOld(NewOld(new_, " ")) == None
  {
    hide Words;
    assert NewOld(new_, " ") == new_ + [' '] + "( )";
    WordsCons(new_, ' ', "( )");
    assert "( )" == "(" + [' '] + ")";
    assert IsWord("(") && IsWord(")");
    WordsCons("(", ' ', ")");
    WordsAtom(")");
  }

  /** For every mark the server lets pass, the client expects the old value exactly when the mark reports the change
      or is the dot; the other marks for "no change" are not read back as such. */
  lemma ExpectedIsOldExact(cur: string, prev: string, c: char, ref: char)
    requires Plain(cur) && Plain(prev) && !IsMark(prev)
    requires !AllowedInfoChar(ref) && (c == ref || (AllowedInfoChar(c) && cur == prev))
    ensures ExpectedValue(PropertyColumn(cur, prev, c, ref)) == Some(prev) <==> c == ref || c == '.'
    ensures c == ref ==> GetNewOld(PropertyColumn(cur, prev, c, ref)) == Some((cur, prev))
    ensures c == '.' ==> GetNewOld(PropertyColumn(cur, prev, c, ref)) == Some((cur, "."))
  {
    if c == ref {
      NewOldReadBack(cur, prev);
      assert prev != "." && prev != "=";
    } else if c == ' ' {
      BlankMarkIsMalformed(cur);
    } else {
      NewOldReadBack(cur, [c]);
    }
  }

  /** Each of the other marks is taken for the old value itself. */
  lemma MarkIsTakenForValue(cur: string, c: char, ref: char)
    requires Plain(cur) && !IsMark(cur) && (c == ':' || c == '+' || c == '-') && c != ref
    ensures ExpectedValue(PropertyColumn(cur, cur, c, ref)) == Some([c]) && [c] != cur
  {
    NewOldReadBack(cur, [c]);
  }

  /** The size column always gives the old size. */
  lemma ExpectedSizeIsOld(cur: nat, prev: nat)
    ensures ExpectedValue(NewOld(IntText(cur), if cur == prev then "=" else IntText(prev))) == Some(IntText(prev))
  {
    NumeralIsWord(cur, 10);
    NumeralIsWord(prev, 10);
    if cur == prev {
      NewOldReadBack(IntText(cur), "=");
    } else {
      NewOldReadBack(IntText(cur), IntText(prev));
      assert IntText(prev)[0] in IntText(prev);
    }
  }
}
