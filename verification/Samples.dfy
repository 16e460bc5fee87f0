/** The texts of the formats, letter by letter. */
module Samples {
  import opened Text
  import opened Paths
  import opened ChangedReport
  import opened ReportLines
  import opened ReportHeader
  import opened AideCheckParser
  import opened AideDbParser
  import opened AideDbManager
  import opened ImageNames
  import opened BulkIo
  import opened Transfer
  import opened PackagesManager

  /** The start of a report of `aide --check`, up to the end of its first section. */
  function ReportStart(title: string, entry: string): seq<string> {
    ["AIDE found differences between database and filesystem!!", "",
     "---------------------------------------------------", title,
     "---------------------------------------------------", "", entry, ""]
  }

  /** A report with a single section is accepted under each of the two closing titles, whichever section it has. */
  lemma SampleReport(closing: string)
    requires closing in ["Detailed information about changes:", "The attributes of the (uncompressed) database(s):"]
    ensures var end := ["---------------------------------------------------", closing];
            && Parse(ReportStart("Added entries:", "f++++++++++++++++: /tmp/a: b") + end)
               == Ok(Entries(map["/tmp/a: b" := "f++++++++++++++++"], map[], map[]))
            && Parse(ReportStart("Removed entries:", "f----------------: /tmp/a: b") + end)
               == Ok(Entries(map[], map["/tmp/a: b" := "f----------------"], map[]))
            && Parse(ReportStart("Changed entries:", "f >.... mc..C    : /tmp/a: b") + end)
               == Ok(Entries(map[], map[], map["/tmp/a: b" := "f >.... mc..C    "]))
  {
    hide Parse;
    OneSection(Added, "f++++++++++++++++", closing);
    OneSection(Removed, "f----------------", closing);
    OneSection(Changed, "f >.... mc..C    ", closing);
    EntriesSpelled();
  }

  lemma EntriesSpelled()
    ensures "f++++++++++++++++" + ": " + "/tmp/a: b" == "f++++++++++++++++: /tmp/a: b"
    ensures "f----------------" + ": " + "/tmp/a: b" == "f----------------: /tmp/a: b"
    ensures "f >.... mc..C    " + ": " + "/tmp/a: b" == "f >.... mc..C    : /tmp/a: b"
  {
  }

  lemma OneSection(section: Section, info: string, closing: string)
    requires info in ["f++++++++++++++++", "f----------------", "f >.... mc..C    "]
    requires closing in ["Detailed information about changes:", "The attributes of the (uncompressed) database(s):"]
    ensures var m := map["/tmp/a: b" := info];
            Parse(ReportStart(Title(section), info + ": " + "/tmp/a: b")
                  + ["---------------------------------------------------", closing]) ==
              Ok(Entries(if section == Added then m else map[], if section == Removed then m else map[],
                         if section == Changed then m else map[]))
  {
    hide Parse;
    var m := map["/tmp/a: b" := info];
    var e := Entries(if section == Added then m else map[], if section == Removed then m else map[],
                     if section == Changed then m else map[]);
    var before := ["AIDE found differences between database and filesystem!!", ""];
    var part := Part(before, section, 1, [(info, "/tmp/a: b")]);
    var tail := ["---------------------------------------------------", closing];
    assert CleanInfo(info) by {
      assert info[0] == 'f';
    }
    PrintedSample(part, section, info);
    assert Says([part], section, m);
    ReportIsRead([part], tail, e);
  }

  lemma PrintedSample(part: Part, section: Section, info: string)
    requires part == Part(["AIDE found differences between database and filesystem!!", ""], section, 1,
                          [(info, "/tmp/a: b")])
    ensures PrintAll([part]) == ReportStart(Title(section), info + ": " + "/tmp/a: b")
  {
    hide Title;
    var line := info + ": " + "/tmp/a: b";
    assert ListingLines(part.entries) == [EntryLine(info, "/tmp/a: b")] + ListingLines([]) == [line];
    assert Blanks(1) == [""] + Blanks(0) == [""];
    assert [part][1..] == [] && PrintAll([part]) == Printed(part) + PrintAll([]) == Printed(part);
    assert Printed(part) == part.before + [SEPARATOR, Title(section), SEPARATOR] + [""] + [line] + [""];
  }

  /******* the database *******/

  /** A database has to begin and to end with its own lines, and to have the names of its columns in between. */
  lemma SampleFrame(unquote: string -> string, lines: seq<string>, paths: set<Path>, properties: set<string>)
    requires paths != {} && lines != []
    ensures Database(unquote, lines, paths, properties) == Err(BadOpening) <==> lines[0] != "@@begin_db"
    ensures Database(unquote, lines, paths, properties).Ok? ==> lines[|lines| - 1] == "@@end_db"
    ensures Database(unquote, lines, paths, properties).Ok? ==>
              exists i :: 0 < i < |lines| && Words(lines[i]) != [] && Words(lines[i])[0] == "@@db_spec"
  {
    hide Words, ReadRows, Enumerated, SplitOnce;
    HeaderIsTail(lines[1..], []);
    if Header(lines[1..], []).Ok? {
      var (names, rows) := Header(lines[1..], []).value;
      if properties <= Enumerated(names).Keys {
        RowErrors(unquote, rows, paths, properties, Enumerated(names));
      }
    }
    if forall i :: 0 < i < |lines| ==> Words(lines[i]) == [] || Words(lines[i])[0] != "@@db_spec" {
      NoSpecIsRejected(unquote, lines, paths, properties);
    }
  }

  lemma {:induction false} HeaderIsTail(lines: seq<string>, last: seq<string>)
    ensures Header(lines, last).Err? ==> Header(lines, last).error != BadOpening
    ensures Header(lines, last).Ok? && Header(lines, last).value.1 != [] ==>
              lines != [] && Header(lines, last).value.1[|Header(lines, last).value.1| - 1] == lines[|lines| - 1]
    decreases |lines|
  {
    hide Words, SplitOnce;
    if lines != [] {
      HeaderIsTail(lines[1..], SplitOnce(lines[0]));
    }
  }

  const COLUMN_NAMES := ["name", "lname", "attr", "perm", "inode", "bcount", "uid", "gid", "size", "mtime", "ctime",
                         "lcount", "md5", "sha1"]

  /** These columns are enough for a database, and none of them may be missing. */
  lemma SampleColumns(name: string)
    ensures name in REQUIRED <==> name in COLUMN_NAMES
  {
  }

  lemma {:induction false} RowErrors(unquote: string -> string, rows: seq<string>, paths: set<Path>,
                                     properties: set<string>, columns: map<string, nat>)
    requires properties <= columns.Keys
    ensures ReadRows(unquote, rows, paths, properties, columns) != Err(BadOpening)
  {
    hide Words, ColumnsFit;
    if rows != [] {
      RowErrors(unquote, rows[..|rows| - 1], paths, properties, columns);
    }
  }

  /******* short texts *******/

  lemma SampleNames()
    ensures ImageName(0, 12) == "myscm-img.0.12.tar.gz" && OldName(7) == "aide.db.7" && OldName(-1) == "aide.db.-1"
  {
    assert Numeral(12, 10) == Numeral(1, 10) + ['2'] && Numeral(1, 10) == "1";
    assert IntText(12) == "12" && IntText(0) == "0" && IntText(7) == "7" && IntText(-1) == "-1";
    assert "myscm-img" + "." + "0" + "." + "12" + ".tar.gz" == "myscm-img.0.12.tar.gz";
    assert "aide.db" + "." + "7" == "aide.db.7" && "aide.db" + "." + "-1" == "aide.db.-1";
  }

  /** The lines of a header that name the platform, the distribution in title case. */
  lemma SampleIdentity()
    ensures IdentityLines(Host("Linux", "arch linux", "x86_64")) ==
              ["# System" + Repeat(' ', 18) + ": Linux",
               "# GNU/Linux distribution" + Repeat(' ', 2) + ": Arch Linux",
               "# CPU architecture" + Repeat(' ', 8) + ": x86_64"]
  {
    hide InfoLine, TitleCase;
    ArchLinux();
    SampleLine("System", "Linux", "# System", ": Linux", 18);
    SampleLine("GNU/Linux distribution", "Arch Linux", "# GNU/Linux distribution", ": Arch Linux", 2);
    SampleLine("CPU architecture", "x86_64", "# CPU architecture", ": x86_64", 8);
  }

  lemma ArchLinux()
    ensures TitleCase("arch linux") == "Arch Linux"
  {
  }

  /** A line of a header without a value, and one of added.txt. */
  lemma SampleLines()
    ensures InfoLine("Hostname", "") == "# Hostname" + Repeat(' ', 16) + ": ?"
    ensures PrintEntry("/a", "bash") == "/a" + [NUL] + Repeat(' ', 97) + "bash"
  {
    assert "# " + "Hostname" == "# Hostname" && ": " + "?" == ": ?";
  }

  lemma SampleLine(key: string, value: string, start: string, end: string, n: nat)
    requires start == "# " + key && end == ": " + value && value != "" && |key| + n == 24
    ensures InfoLine(key, value) == start + Repeat(' ', n) + end
  {
    assert "# " + key + Repeat(' ', n) + ": " + value == "# " + key + Repeat(' ', n) + (": " + value);
  }

  /** Where the columns of a row of changed.txt begin, if no value is longer than its column. */
  lemma SampleColumnsOfRow()
    ensures Pads(seq(COLUMN_COUNT, i => "x")) ==
              [48, 48, 23, 16, 8, 14, 23, 23, 23, 23, 23, 28, 28, 23, 10, 71, 98, 23]
  {
  }

  /** The packet that announces 258 bytes. */
  lemma SamplePacket()
    ensures Packet(258) == [16, 0, 0, 1, 0, 0, 0, 0, 0, 0, 1, 2, 0, 0, 0, 0]
  {
    LastDigit(1, 2, 7);
    LastDigit(0, 1, 6);
    NoDigits(6);
    LastDigit(0, 1, 1);
    NoDigits(1);
    hide BigEndian;
    assert Packet(258) == [16, 0] + BigEndian(1, 2) + BigEndian(258, 8) + [0, 0, 0, 0];
  }

  lemma LastDigit(m: nat, d: nat, k: nat)
    requires d < 256
    ensures BigEndian(m * 256 + d, k + 1) == BigEndian(m, k) + [d]
  {
  }

  lemma {:induction false} NoDigits(k: nat)
    ensures BigEndian(0, k) == seq(k, i => 0)
  {
    if k > 0 {
      NoDigits(k - 1);
    }
  }

  /** Which info strings an entry can be made with. */
  lemma SampleInfos(info: string)
    ensures InfoFits(info) <==>
              |info| == 17 && info[0] in {'f', 'd', 'l', 'c', 'b', 'p', 's', 'D', 'P', '!', '?'}
  {
  }

  /** A number is read with a sign of either kind and with white space about it; a sign alone is none. */
  lemma SampleNumbers(n: nat, base: Base)
    ensures var s := Numeral(n, base); var minus: int := 0 - n;
            && ParseInt("+" + s, base) == Some(n) && ParseInt("-" + s, base) == Some(minus)
            && ParseInt(" " + s, base) == Some(n)
            && ParseInt("+", base) == None && ParseInt("", base) == None
  {
    hide Numeral, ParseDigits, Strip, IsSpace;
    var s := Numeral(n, base);
    ParseNumeral(n, base);
    NumeralIsWord(n, base);
    SignsAreNoSpace();
    assert s[0] in s && s[|s| - 1] in s;
    StripTrimmed(s);
    StripTrimmed("+" + s);
    StripTrimmed("-" + s);
    StripTrimmed("+");
    StripTrimmed("");
    assert ("+" + s)[1..] == s && ("-" + s)[1..] == s && "+"[1..] == "";
    BlankIsStripped(s);
  }

  lemma SignsAreNoSpace()
    ensures !IsSpace('+') && !IsSpace('-')
  {
  }

  lemma BlankIsStripped(s: string)
    ensures Strip(" " + s) == Strip(s)
  {
    assert LStrip(" " + s) == LStrip(s) by {
      assert (" " + s)[1..] == s;
    }
  }

  /** What C and Python call white space; Python has the separators of Unicode besides. */
  lemma SampleSpaces(c: char)
    ensures CSpace(c) <==> c in {' ', '\t', '\n', '\U{b}', '\U{c}', '\r'}
    ensures c < '\U{80}' ==>
              (IsSpace(c) <==> CSpace(c) || c in {'\U{1c}', '\U{1d}', '\U{1e}', '\U{1f}'})
    ensures c >= '\U{80}' ==>
              (IsSpace(c) <==>
                c in {'\U{85}', '\U{a0}', '\U{1680}', '\U{2000}', '\U{2001}', '\U{2002}', '\U{2003}', '\U{2004}',
                      '\U{2005}', '\U{2006}', '\U{2007}', '\U{2008}', '\U{2009}', '\U{200a}', '\U{2028}',
                      '\U{2029}', '\U{202f}', '\U{205f}', '\U{3000}'})
  {
  }
}
