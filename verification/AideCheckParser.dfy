/** The reader of the report `aide --check` prints: its sections of added, removed and changed entries. */
module AideCheckParser {
  import opened Text
  import opened Paths

  datatype Section = Added | Removed | Changed

  const SEPARATOR := "---------------------------------------------------"
  const FILES_ATTRS := "The attributes of the (uncompressed) database(s):"
  const DETAILED_INFO := "Detailed information about changes:"

  function Title(s: Section): string {
    match s
    case Added => "Added entries:"
    case Removed => "Removed entries:"
    case Changed => "Changed entries:"
  }

  function SectionOf(line: string): Option<Section> {
    if line == Title(Added) then Some(Added)
    else if line == Title(Removed) then Some(Removed)
    else if line == Title(Changed) then Some(Changed)
    else None
  }

  predicate EndsSections(line: string) {
    line == FILES_ATTRS || line == DETAILED_INFO
  }

  datatype CheckError = NoSeparator | UnexpectedEnd | UnexpectedLine(line: string) | BadEntry(line: string)

  /** The info string of each path. */
  type Simple = map<Path, string>

  /******* one entry *******/

  function UpToColon(s: string): (n: nat)
    ensures n <= |s| && (n < |s| ==> s[n] == ':')
    ensures forall i :: 0 <= i < n ==> s[i] != ':'
  {
    if s == "" || s[0] == ':' then 0 else 1 + UpToColon(s[1..])
  }

  /** The info string up to the first colon, and the path after it. */
  function SimpleEntry(line: string): Result<(string, Path), CheckError> {
    var s := LStrip(line);
    var n := UpToColon(s);
    if n == |s| then Err(BadEntry(line)) else Ok((s[..n], LStrip(s[n + 1..])))
  }

  predicate CleanInfo(info: string) {
    info != "" && !IsSpace(info[0]) && ':' !in info
  }

  predicate CleanPath(p: Path) {
    p != "" && p[0] == '/' && '\n' !in p
  }

  function EntryLine(info: string, p: Path): string {
    info + ": " + p
  }

  /** The path may hold colons, spaces, anything but a line end. */
  lemma EntryLineReads(info: string, p: Path)
    requires CleanInfo(info) && CleanPath(p)
    ensures SimpleEntry(EntryLine(info, p)) == Ok((info, p))
  {
    var s := EntryLine(info, p);
    assert LStrip(s) == s;
    assert s[|info|] == ':' && forall i :: 0 <= i < |info| ==> s[i] == info[i];
    assert UpToColon(s) == |info|;
    assert s[..|info|] == info;
    var rest := s[|info| + 1..];
    assert rest[0] == ' ' && rest[1..] == p;
    assert LStrip(p) == p;
  }

  /******* the sections *******/

  /** The lines after the first one that equals x. */
  function SkipPast(lines: seq<string>, x: string): (r: Option<seq<string>>)
    ensures r.Some? ==> |r.value| < |lines|
  {
    if lines == [] then None
    else if lines[0] == x then Some(lines[1..])
    else SkipPast(lines[1..], x)
  }

  function ReadUpToEmpty(lines: seq<string>, d: Simple): (r: Result<(Simple, seq<string>), CheckError>)
    ensures r.Ok? ==> |r.value.1| <= |lines|
  {
    if lines == [] then Ok((d, []))
    else if lines[0] == "" then Ok((d, lines[1..]))
    else match SimpleEntry(lines[0])
         case Err(e) => Err(e)
         case Ok((info, p)) => ReadUpToEmpty(lines[1..], d[p := info])
  }

  /** Leading empty lines are skipped; the next empty line ends the entries. */
  function ReadEntries(lines: seq<string>): (r: Result<(Simple, seq<string>), CheckError>)
    ensures r.Ok? ==> |r.value.1| <= |lines|
  {
    if lines == [] then Ok((map[], []))
    else if lines[0] == "" then ReadEntries(lines[1..])
    else match SimpleEntry(lines[0])
         case Err(e) => Err(e)
         case Ok((info, p)) => ReadUpToEmpty(lines[1..], map[p := info])
  }

  /** At most `rounds` more sections; a section that was found is expected no more. */
  function ReadSections(lines: seq<string>, found: map<Section, Simple>,
                        rounds: nat): Result<map<Section, Simple>, CheckError>
    decreases rounds
  {
    if rounds == 0 then Ok(found)
    else match SkipPast(lines, SEPARATOR)
         case None => Err(NoSeparator)
         case Some(rest) =>
           if rest == [] then Err(UnexpectedEnd)
           else
             var section := SectionOf(rest[0]);
             if section.Some? && section.value !in found then
               if |rest| < 2 then Err(UnexpectedEnd)
               else if rest[1] != SEPARATOR then Err(UnexpectedLine(rest[1]))
               else match ReadEntries(rest[2..])
                    case Err(e) => Err(e)
                    case Ok((d, after)) => ReadSections(after, found[section.value := d], rounds - 1)
             else if EndsSections(rest[0]) then Ok(found)
             else Err(UnexpectedLine(rest[0]))
  }

  const SECTION_COUNT := 3

  /** The three maps; a section the report does not have leaves its map empty. */
  datatype Entries = Entries(added: Simple, removed: Simple, changed: Simple)

  function EntriesOf(found: map<Section, Simple>): Entries {
    Entries(if Added in found then found[Added] else map[],
            if Removed in found then found[Removed] else map[],
            if Changed in found then found[Changed] else map[])
  }

  function Parse(lines: seq<string>): Result<Entries, CheckError> {
    match ReadSections(lines, map[], SECTION_COUNT)
    case Err(e) => Err(e)
    case Ok(found) => Ok(EntriesOf(found))
  }

  /******* the reader, line by line *******/

  class LineIterator {
    const lines: seq<string>
    var at: nat

    ghost predicate Valid() reads this { at <= |lines| }

    function Rest(): seq<string>
      reads this
      requires Valid()
    {
      lines[at..]
    }

    constructor (lines: seq<string>)
      ensures Valid() && Rest() == lines
    {
      this.lines, at := lines, 0;
    }

    /** None is the StopIteration. */
    method Next() returns (line: Option<string>)
      requires Valid()
      modifies this
      ensures Valid()
      ensures line == if old(Rest()) == [] then None else Some(old(Rest())[0])
      ensures Rest() == if old(Rest()) == [] then [] else old(Rest())[1..]
    {
      if at == |lines| {
        return None;
      }
      line := Some(lines[at]);
      at := at + 1;
    }
  }

  method ReadToLine(it: LineIterator, searched: string) returns (found: bool)
    requires it.Valid()
    modifies it
    ensures it.Valid()
    ensures match SkipPast(old(it.Rest()), searched)
            case None => !found
            case Some(rest) => found && it.Rest() == rest
  {
    while true
      invariant it.Valid() && SkipPast(old(it.Rest()), searched) == SkipPast(it.Rest(), searched)
      decreases |it.Rest()|
    {
      var line := it.Next();
      if line == None {
        return false;
      }
      if line.value == searched {
        return true;
      }
    }
  }

  method CreateSimpleEntries(it: LineIterator) returns (r: Result<Simple, CheckError>)
    requires it.Valid()
    modifies it
    ensures it.Valid()
    ensures match ReadEntries(old(it.Rest()))
            case Err(e) => r == Err(e)
            case Ok((d, rest)) => r == Ok(d) && it.Rest() == rest
  {
    hide SimpleEntry;
    var d: Simple := map[];
    var first := true;
    while first
      invariant it.Valid()
      invariant first ==> ReadEntries(old(it.Rest())) == ReadEntries(it.Rest())
      invariant !first ==> ReadEntries(old(it.Rest())) == ReadUpToEmpty(it.Rest(), d)
      decreases first, |it.Rest()|
    {
      var line := it.Next();
      if line == None {
        return Ok(map[]);
      }
      if line.value != "" {
        var entry := SimpleEntry(line.value);
        if entry.Err? {
          return Err(entry.error);
        }
        d := map[entry.value.1 := entry.value.0];
        first := false;
      }
    }
    while true
      invariant it.Valid() && ReadEntries(old(it.Rest())) == ReadUpToEmpty(it.Rest(), d)
      decreases |it.Rest()|
    {
      var line := it.Next();
      if line == None || line.value == "" {
        return Ok(d);
      }
      var entry := SimpleEntry(line.value);
      if entry.Err? {
        return Err(entry.error);
      }
      d := d[entry.value.1 := entry.value.0];
    }
  }

  method ReadAllEntries(it: LineIterator) returns (r: Result<Entries, CheckError>)
    requires it.Valid()
    modifies it
    ensures r == Parse(old(it.Rest()))
  {
    hide ReadEntries, SectionOf, EndsSections;
    var found: map<Section, Simple> := map[];
    for i := 0 to SECTION_COUNT
      invariant it.Valid()
      invariant ReadSections(old(it.Rest()), map[], SECTION_COUNT) == ReadSections(it.Rest(), found, SECTION_COUNT - i)
    {
      var separated := ReadToLine(it, SEPARATOR);
      if !separated {
        return Err(NoSeparator);
      }
      var line := it.Next();
      if line == None {
        return Err(UnexpectedEnd);
      }
      var section := SectionOf(line.value);
      if section.Some? && section.value !in found {
        var second := it.Next();
        if second == None {
          return Err(UnexpectedEnd);
        }
        if second.value != SEPARATOR {
          return Err(UnexpectedLine(second.value));
        }
        var d := CreateSimpleEntries(it);
        if d.Err? {
          return Err(d.error);
        }
        found := found[section.value := d.value];
      } else if EndsSections(line.value) {
        break;
      } else {
        return Err(UnexpectedLine(line.value));
      }
    }
    r := Ok(EntriesOf(found));
  }

  /******* reading back a report *******/

  /** A section as it is printed, after any other lines: its title, blank lines, and one line for each entry. */
  datatype Part = Part(before: seq<string>, section: Section, blanks: nat, entries: seq<(string, Path)>)

  function ListingLines(entries: seq<(string, Path)>): seq<string> {
    if entries == [] then [] else [EntryLine(entries[0].0, entries[0].1)] + ListingLines(entries[1..])
  }

  function Blanks(n: nat): seq<string> {
    if n == 0 then [] else [""] + Blanks(n - 1)
  }

  function Printed(part: Part): seq<string> {
    part.before + [SEPARATOR, Title(part.section), SEPARATOR] + Blanks(part.blanks) + ListingLines(part.entries) + [""]
  }

  function PrintAll(parts: seq<Part>): seq<string> {
    if parts == [] then [] else Printed(parts[0]) + PrintAll(parts[1..])
  }

  predicate CleanEntries(entries: seq<(string, Path)>) {
    forall i :: 0 <= i < |entries| ==> CleanInfo(entries[i].0) && CleanPath(entries[i].1)
  }

  predicate CleanPart(part: Part) {
    part.entries != [] && CleanEntries(part.entries) && SEPARATOR !in part.before
  }

  function MapFrom(d: Simple, entries: seq<(string, Path)>): Simple
    decreases |entries|
  {
    if entries == [] then d else MapFrom(d[entries[0].1 := entries[0].0], entries[1..])
  }

  /** The entries of a map, in any order. */
  ghost predicate Enumerates(entries: seq<(string, Path)>, m: Simple) {
    && (forall i :: 0 <= i < |entries| ==> entries[i].1 in m && m[entries[i].1] == entries[i].0)
    && (forall p :: p in m ==> exists i :: 0 <= i < |entries| && entries[i].1 == p)
  }

  lemma {:induction false} MapFromEntry(d: Simple, entries: seq<(string, Path)>, m: Simple, p: Path)
    requires forall i :: 0 <= i < |entries| ==> entries[i].1 in m && m[entries[i].1] == entries[i].0
    ensures p in MapFrom(d, entries) <==> p in d || exists i :: 0 <= i < |entries| && entries[i].1 == p
    ensures p in MapFrom(d, entries) && (p in d ==> p in m && d[p] == m[p]) ==> p in m && MapFrom(d, entries)[p] == m[p]
    decreases |entries|
  {
    if entries != [] {
      var next := d[entries[0].1 := entries[0].0];
      MapFromEntry(next, entries[1..], m, p);
      assert forall i :: 0 < i < |entries| ==> entries[1..][i - 1] == entries[i];
      if i :| 0 <= i < |entries| && entries[i].1 == p {
        if i > 0 { assert entries[1..][i - 1].1 == p; }
      }
    }
  }

  lemma MapFromListing(entries: seq<(string, Path)>, m: Simple)
    requires Enumerates(entries, m)
    ensures MapFrom(map[], entries) == m
  {
    forall p ensures p in MapFrom(map[], entries) <==> p in m {
      MapFromEntry(map[], entries, m, p);
    }
    forall p | p in m ensures MapFrom(map[], entries)[p] == m[p] {
      MapFromEntry(map[], entries, m, p);
    }
  }

  lemma EntryLineNotEmpty(info: string, p: Path)
    ensures EntryLine(info, p) != ""
  {
  }

  lemma {:induction false} EntriesRead(entries: seq<(string, Path)>, d: Simple, rest: seq<string>)
    requires CleanEntries(entries)
    ensures ReadUpToEmpty(ListingLines(entries) + [""] + rest, d) == Ok((MapFrom(d, entries), rest))
  {
    hide SimpleEntry, EntryLine, CleanInfo, CleanPath;
    var lines := ListingLines(entries) + [""] + rest;
    if entries == [] {
      assert lines[0] == "" && lines[1..] == rest;
    } else {
      var (info, p) := entries[0];
      EntryLineReads(info, p);
      EntryLineNotEmpty(info, p);
      assert lines[0] == EntryLine(info, p);
      assert lines[1..] == ListingLines(entries[1..]) + [""] + rest;
      EntriesRead(entries[1..], d[p := info], rest);
    }
  }

  lemma {:induction false} BlanksAndEntriesRead(blanks: nat, entries: seq<(string, Path)>, rest: seq<string>)
    requires CleanEntries(entries) && entries != []
    ensures ReadEntries(Blanks(blanks) + ListingLines(entries) + [""] + rest) == Ok((MapFrom(map[], entries), rest))
  {
    hide SimpleEntry, EntryLine, CleanEntries, ReadUpToEmpty, MapFrom, ListingLines;
    var lines := Blanks(blanks) + ListingLines(entries) + [""] + rest;
    if blanks > 0 {
      assert lines[0] == "" && lines[1..] == Blanks(blanks - 1) + ListingLines(entries) + [""] + rest;
      BlanksAndEntriesRead(blanks - 1, entries, rest);
    } else {
      assert lines == ListingLines(entries) + [""] + rest;
      FirstEntryRead(entries, rest);
    }
  }

  lemma FirstEntryRead(entries: seq<(string, Path)>, rest: seq<string>)
    requires CleanEntries(entries) && entries != []
    ensures ReadEntries(ListingLines(entries) + [""] + rest) == Ok((MapFrom(map[], entries), rest))
  {
    hide SimpleEntry, EntryLine, CleanInfo, CleanPath, ReadUpToEmpty;
    var lines := ListingLines(entries) + [""] + rest;
    var (info, p) := entries[0];
    EntryLineReads(info, p);
    EntryLineNotEmpty(info, p);
    assert lines[0] == EntryLine(info, p);
    assert lines[1..] == ListingLines(entries[1..]) + [""] + rest;
    EntriesRead(entries[1..], map[p := info], rest);
    assert map[][p := info] == map[p := info];
  }

  lemma {:induction false} SkipsBefore(before: seq<string>, x: string, rest: seq<string>)
    requires x !in before
    ensures SkipPast(before + [x] + rest, x) == Some(rest)
  {
    var lines := before + [x] + rest;
    if before == [] {
      assert lines[0] == x && lines[1..] == rest;
    } else {
      assert lines[1..] == before[1..] + [x] + rest;
      SkipsBefore(before[1..], x, rest);
    }
  }

  lemma FirstLetters()
    ensures Title(Added)[..1] == "A" && Title(Removed)[..1] == "R" && Title(Changed)[..1] == "C"
    ensures forall s :: |Title(s)| < |DETAILED_INFO| < |FILES_ATTRS|
  {
  }

  lemma TitlesAreTitles(s: Section)
    ensures SectionOf(Title(s)) == Some(s) && !EndsSections(Title(s))
  {
    FirstLetters();
  }

  /** One printed section is read as itself, or rejected if it was there before. */
  lemma SectionRead(part: Part, rest: seq<string>, found: map<Section, Simple>, rounds: nat)
    requires CleanPart(part) && rounds > 0
    ensures ReadSections(Printed(part) + rest, found, rounds) ==
              if part.section in found then Err(UnexpectedLine(Title(part.section)))
              else ReadSections(rest, found[part.section := MapFrom(map[], part.entries)], rounds - 1)
  {
    hide Title, SectionOf, EndsSections, ReadEntries, CleanEntries;
    var body := Blanks(part.blanks) + ListingLines(part.entries) + [""] + rest;
    var lines := Printed(part) + rest;
    assert lines == part.before + [SEPARATOR] + ([Title(part.section), SEPARATOR] + body);
    SkipsBefore(part.before, SEPARATOR, [Title(part.section), SEPARATOR] + body);
    var after := [Title(part.section), SEPARATOR] + body;
    assert after[0] == Title(part.section) && after[1] == SEPARATOR && after[2..] == body;
    TitlesAreTitles(part.section);
    BlanksAndEntriesRead(part.blanks, part.entries, rest);
  }

  predicate DistinctSections(parts: seq<Part>) {
    forall i, j :: 0 <= i < j < |parts| ==> parts[i].section != parts[j].section
  }

  /** The sections found when the parts are read one after the other. */
  function FoundIn(parts: seq<Part>): map<Section, Simple> {
    if parts == [] then map[]
    else FoundIn(parts[..|parts| - 1])[parts[|parts| - 1].section := MapFrom(map[], parts[|parts| - 1].entries)]
  }

  lemma {:induction false} FoundKeys(parts: seq<Part>)
    ensures forall s :: s in FoundIn(parts) <==> exists i :: 0 <= i < |parts| && parts[i].section == s
    ensures DistinctSections(parts) ==>
              forall i :: 0 <= i < |parts| ==> FoundIn(parts)[parts[i].section] == MapFrom(map[], parts[i].entries)
  {
    hide MapFrom;
    if parts != [] {
      var n := |parts| - 1;
      FoundKeys(parts[..n]);
      assert forall i :: 0 <= i < n ==> parts[..n][i] == parts[i];
      forall s ensures s in FoundIn(parts) <==> exists i :: 0 <= i < |parts| && parts[i].section == s {
        if s in FoundIn(parts[..n]) {
          var i :| 0 <= i < n && parts[..n][i].section == s;
          assert parts[i].section == s;
        }
      }
    }
  }

  lemma PrintAllSplits(parts: seq<Part>, i: nat)
    requires i < |parts|
    ensures PrintAll(parts[i..]) == Printed(parts[i]) + PrintAll(parts[i + 1..])
  {
    assert parts[i..][0] == parts[i] && parts[i..][1..] == parts[i + 1..];
  }

  /** After i sections, all of them different, the reader has found those and stands at the next one. */
  lemma {:induction false} FirstSectionsRead(parts: seq<Part>, tail: seq<string>, i: nat)
    requires i <= |parts| && i <= SECTION_COUNT && DistinctSections(parts[..i])
    requires forall k :: 0 <= k < |parts| ==> CleanPart(parts[k])
    ensures ReadSections(PrintAll(parts) + tail, map[], SECTION_COUNT)
         == ReadSections(PrintAll(parts[i..]) + tail, FoundIn(parts[..i]), SECTION_COUNT - i)
  {
    hide CleanPart, Printed, ReadSections, DistinctSections, MapFrom;
    if i == 0 {
      assert parts[0..] == parts && parts[..0] == [];
    } else {
      var before, part := parts[..i - 1], parts[i - 1];
      assert parts[..i][..i - 1] == before && parts[..i][i - 1] == part;
      FewerDistinct(parts[..i], i - 1);
      FirstSectionsRead(parts, tail, i - 1);
      PrintAllSplits(parts, i - 1);
      var rest := PrintAll(parts[i..]) + tail;
      assert PrintAll(parts[i - 1..]) + tail == Printed(part) + rest;
      NewIsNotFound(parts, i - 1);
      SectionRead(part, rest, FoundIn(before), SECTION_COUNT - (i - 1));
    }
  }

  lemma FewerDistinct(parts: seq<Part>, i: nat)
    requires i <= |parts| && DistinctSections(parts)
    ensures DistinctSections(parts[..i])
  {
  }

  lemma NewIsNotFound(parts: seq<Part>, i: nat)
    requires i < |parts| && DistinctSections(parts[..i + 1])
    ensures parts[i].section !in FoundIn(parts[..i])
  {
    hide FoundIn, MapFrom;
    FoundKeys(parts[..i]);
    assert forall k :: 0 <= k < i ==> parts[..i][k] == parts[..i + 1][k];
    assert parts[..i + 1][i] == parts[i];
  }

  lemma AllSectionsRead(parts: seq<Part>, tail: seq<string>)
    requires |parts| <= SECTION_COUNT && DistinctSections(parts)
    requires forall k :: 0 <= k < |parts| ==> CleanPart(parts[k])
    ensures ReadSections(PrintAll(parts) + tail, map[], SECTION_COUNT)
              == ReadSections(tail, FoundIn(parts), SECTION_COUNT - |parts|)
  {
    hide ReadSections, FoundIn, CleanPart, DistinctSections;
    assert parts[..|parts|] == parts && parts[|parts|..] == [];
    FirstSectionsRead(parts, tail, |parts|);
    assert PrintAll([]) == [] && [] + tail == tail;
  }

  /** What the parts say of one section. */
  ghost predicate Says(parts: seq<Part>, s: Section, m: Simple) {
    if exists i :: 0 <= i < |parts| && parts[i].section == s
    then exists i :: 0 <= i < |parts| && parts[i].section == s && Enumerates(parts[i].entries, m)
    else m == map[]
  }

  lemma FoundSays(parts: seq<Part>, s: Section, m: Simple)
    requires DistinctSections(parts) && Says(parts, s, m)
    ensures (if s in FoundIn(parts) then FoundIn(parts)[s] else map[]) == m
  {
    FoundKeys(parts);
    if s in FoundIn(parts) {
      var i :| 0 <= i < |parts| && parts[i].section == s && Enumerates(parts[i].entries, m);
      MapFromListing(parts[i].entries, m);
    }
  }

  /** What may follow the sections: nothing is looked at after the third, else the report goes on with a separator and
      one of the two closing titles. */
  predicate Closes(parts: seq<Part>, tail: seq<string>) {
    |parts| == SECTION_COUNT || (|tail| >= 2 && tail[0] == SEPARATOR && EndsSections(tail[1]))
  }

  /** Three maps, printed as sections in any order and with any of them absent, are read back. */
  lemma ReportIsRead(parts: seq<Part>, tail: seq<string>, e: Entries)
    requires |parts| <= SECTION_COUNT && DistinctSections(parts) && Closes(parts, tail)
    requires forall k :: 0 <= k < |parts| ==> CleanPart(parts[k])
    requires Says(parts, Added, e.added) && Says(parts, Removed, e.removed) && Says(parts, Changed, e.changed)
    ensures Parse(PrintAll(parts) + tail) == Ok(e)
  {
    hide SEPARATOR, Printed, MapFrom, ReadEntries, FoundIn, Enumerates, CleanPart, Says, EndsSections, Title;
    AllSectionsRead(parts, tail);
    if |parts| < SECTION_COUNT {
      EndIsNoTitle(tail[1]);
      TailRead(tail, FoundIn(parts), SECTION_COUNT - |parts|);
    }
    FoundSays(parts, Added, e.added);
    FoundSays(parts, Removed, e.removed);
    FoundSays(parts, Changed, e.changed);
  }

  lemma EndIsNoTitle(line: string)
    requires EndsSections(line)
    ensures SectionOf(line) == None
  {
    FirstLetters();
  }

  lemma RepeatIsFound(parts: seq<Part>, i: nat)
    requires i < |parts| && exists k :: 0 <= k < i && parts[k].section == parts[i].section
    ensures parts[i].section in FoundIn(parts[..i])
  {
    hide FoundIn, MapFrom;
    FoundKeys(parts[..i]);
    var k :| 0 <= k < i && parts[k].section == parts[i].section;
    assert parts[..i][k].section == parts[i].section;
  }

  /** A section repeated among the first three is rejected. */
  lemma RepeatIsRejected(parts: seq<Part>, tail: seq<string>, i: nat)
    requires i < |parts| && i < SECTION_COUNT && DistinctSections(parts[..i])
    requires exists k :: 0 <= k < i && parts[k].section == parts[i].section
    requires forall k :: 0 <= k < |parts| ==> CleanPart(parts[k])
    ensures Parse(PrintAll(parts) + tail) == Err(UnexpectedLine(Title(parts[i].section)))
  {
    hide SEPARATOR, Printed, PrintAll, MapFrom, ReadSections, FoundIn, CleanPart, Title, DistinctSections;
    FirstSectionsRead(parts, tail, i);
    PrintAllSplits(parts, i);
    assert PrintAll(parts[i..]) + tail == Printed(parts[i]) + (PrintAll(parts[i + 1..]) + tail);
    RepeatIsFound(parts, i);
    SectionRead(parts[i], PrintAll(parts[i + 1..]) + tail, FoundIn(parts[..i]), SECTION_COUNT - i);
  }

  lemma TailRead(tail: seq<string>, found: map<Section, Simple>, rounds: nat)
    requires rounds > 0 && (tail != [] ==> tail[0] == SEPARATOR) && (|tail| >= 2 ==> SectionOf(tail[1]) == None)
    ensures ReadSections(tail, found, rounds) ==
              if tail == [] then Err(NoSeparator)
              else if |tail| == 1 then Err(UnexpectedEnd)
              else if EndsSections(tail[1]) then Ok(found)
              else Err(UnexpectedLine(tail[1]))
  {
    hide SEPARATOR, EndsSections, SectionOf, ReadEntries;
    if tail != [] {
      SkipsBefore([], SEPARATOR, tail[1..]);
      assert [] + [SEPARATOR] + tail[1..] == tail;
    }
  }

  /** After fewer than three sections the report has to go on with one of the closing titles. */
  lemma UnknownIsRejected(parts: seq<Part>, tail: seq<string>)
    requires |parts| < SECTION_COUNT && DistinctSections(parts)
    requires forall k :: 0 <= k < |parts| ==> CleanPart(parts[k])
    requires (tail != [] ==> tail[0] == SEPARATOR) && (|tail| >= 2 ==> SectionOf(tail[1]) == None)
    ensures Parse(PrintAll(parts) + tail).Ok? <==> |tail| >= 2 && EndsSections(tail[1])
  {
    hide SEPARATOR, ReadSections, FoundIn, CleanPart, EndsSections, SectionOf, PrintAll, DistinctSections;
    AllSectionsRead(parts, tail);
    TailRead(tail, FoundIn(parts), SECTION_COUNT - |parts|);
  }
}
