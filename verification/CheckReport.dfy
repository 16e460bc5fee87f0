/** The report AIDE prints for the difference of a snapshot and a disk reaches the image generator unchanged. */
module CheckReport {
  import opened Text
  import opened Paths
  import opened Pruning
  import opened FileTree
  import opened SysImgGenerator
  import opened AideCheckParser
  import opened ChangedReport
  import opened AideDbParser
  import opened DeltaRows
  import opened DeltaAdded

  /** The info string of an entry that is only on one side. */
  function OneSided(n: Node, mark: char): (s: string)
    ensures |s| == 17
  {
    [KindChar(n)] + seq(16, i => mark)
  }

  /** The info string of each listed path. */
  function Infos(r: Report, base: Disk, now: Disk): Entries
    requires ListsFit(r, base, now)
  {
    Entries(map p | p in r.added :: OneSided(now[p], '+'),
            map p | p in r.removed :: OneSided(base[p], '-'),
            map p | p in r.changed :: InfoString(base[p], now[p]))
  }

  predicate ListsFit(r: Report, base: Disk, now: Disk) {
    && (forall p :: p in r.added ==> p in now)
    && (forall p :: p in r.removed ==> p in base)
    && (forall p :: p in r.changed ==> p in base && p in now)
  }

  function Listing(paths: seq<Path>, m: map<Path, string>): (entries: seq<(string, Path)>)
    requires forall p :: p in paths ==> p in m
    ensures |entries| == |paths| && forall i :: 0 <= i < |paths| ==> entries[i] == (m[paths[i]], paths[i])
  {
    seq(|paths|, i requires 0 <= i < |paths| => (m[paths[i]], paths[i]))
  }

  /** One section, if it has entries. */
  function SectionFor(before: seq<string>, section: Section, blanks: nat, paths: seq<Path>,
                      m: map<Path, string>): seq<Part>
    requires forall p :: p in paths ==> p in m
  {
    if paths == [] then [] else [Part(before, section, blanks, Listing(paths, m))]
  }

  /** The sections AIDE prints, after the lines of its summary. */
  function PartsOf(summary: seq<string>, blanks: nat, r: Report, e: Entries): seq<Part>
    requires forall p :: p in r.added ==> p in e.added
    requires forall p :: p in r.removed ==> p in e.removed
    requires forall p :: p in r.changed ==> p in e.changed
  {
    SectionFor(summary, Added, blanks, r.added, e.added) + SectionFor(summary, Removed, blanks, r.removed, e.removed)
    + SectionFor(summary, Changed, blanks, r.changed, e.changed)
  }

  lemma InfosAreClean(a: Node, b: Node, mark: char)
    requires mark == '+' || mark == '-'
    ensures CleanInfo(OneSided(a, mark)) && CleanInfo(InfoString(a, b))
  {
    InfoSigns(a, b);
    hide InfoString;
    SignsAreClean(InfoString(a, b));
    SignsAreClean(OneSided(a, mark));
  }

  /** An entry can be made with each info string of the report. */
  lemma InfosFit(a: Node, b: Node, mark: char)
    ensures InfoFits(OneSided(a, mark)) && InfoFits(InfoString(a, b))
  {
    assert 'f' in FILE_TYPES && 'd' in FILE_TYPES && '!' in FILE_TYPES by {
      assert FILE_TYPES[0] == 'f' && FILE_TYPES[1] == 'd' && FILE_TYPES[9] == '!';
    }
    hide Size, ContentOf;
    assert InfoString(a, b)[0] == 'f' || InfoString(a, b)[0] == 'd' || InfoString(a, b)[0] == '!';
    assert OneSided(a, mark)[0] == 'f' || OneSided(a, mark)[0] == 'd';
  }

  lemma SignsAreClean(info: string)
    requires info != "" && forall c :: c in info ==> InfoSign(c)
    ensures CleanInfo(info)
  {
    assert info[0] in info;
  }

  lemma OrdinaryIsClean(p: Path)
    requires OrdinaryPath(p)
    ensures CleanPath(p)
  {
    hide IsUnder, Trimmed;
    PathStartsWithSlash(p);
  }

  lemma SectionIsClean(before: seq<string>, section: Section, blanks: nat, paths: seq<Path>, m: map<Path, string>)
    requires forall p :: p in paths ==> p in m && CleanPath(p) && CleanInfo(m[p])
    requires SEPARATOR !in before
    ensures forall k :: 0 <= k < |SectionFor(before, section, blanks, paths, m)| ==>
              CleanPart(SectionFor(before, section, blanks, paths, m)[k])
                && SectionFor(before, section, blanks, paths, m)[k].section == section
    ensures |SectionFor(before, section, blanks, paths, m)| == if paths == [] then 0 else 1
  {
    hide CleanPath, CleanInfo, SEPARATOR;
  }

  lemma ListingLists(paths: seq<Path>, m: map<Path, string>)
    requires forall p :: p in m <==> p in paths
    ensures Enumerates(Listing(paths, m), m)
  {
    forall p | p in m ensures exists i :: 0 <= i < |Listing(paths, m)| && Listing(paths, m)[i].1 == p {
      var i :| 0 <= i < |paths| && paths[i] == p;
      assert Listing(paths, m)[i].1 == p;
    }
  }

  /** What is printed for a report is read back as exactly its three lists, each path with its info string, whatever
      lines and blank lines are printed around the sections. */
  lemma CheckReportIsRead(w: World, tracked: iset<Path>, base: Snapshot, now: Disk, r: Report, summary: seq<string>,
                          blanks: nat, closing: string, rest: seq<string>)
    requires Origin(w, tracked, base, now, r) && SEPARATOR !in summary && EndsSections(closing)
    ensures ListsFit(r, base.files, now)
    ensures var e := Infos(r, base.files, now);
            Parse(PrintAll(PartsOf(summary, blanks, r, e)) + ([SEPARATOR, closing] + rest)) == Ok(e)
  {
    hide Origin, SEPARATOR, CleanPart, CleanPath, CleanInfo, OrdinaryPath, SectionFor, Parse, PrintAll, EndsSections,
      OneSided, InfoString, Enumerates, Listing;
    ReportListsFit(w, tracked, base, now, r);
    var e := Infos(r, base.files, now);
    EntriesAreClean(w, tracked, base, now, r);
    var parts := PartsOf(summary, blanks, r, e);
    var tail := [SEPARATOR, closing] + rest;
    SectionIsClean(summary, Added, blanks, r.added, e.added);
    SectionIsClean(summary, Removed, blanks, r.removed, e.removed);
    SectionIsClean(summary, Changed, blanks, r.changed, e.changed);
    assert tail[0] == SEPARATOR && tail[1] == closing;
    PartsSay(summary, blanks, r, e);
    ReportIsRead(parts, tail, e);
  }

  lemma ReportListsFit(w: World, tracked: iset<Path>, base: Snapshot, now: Disk, r: Report)
    requires Origin(w, tracked, base, now, r)
    ensures ListsFit(r, base.files, now)
  {
    hide Origin;
    forall p ensures p in r.added ==> p in now
             ensures p in r.removed ==> p in base.files
             ensures p in r.changed ==> p in base.files && p in now {
      AddedIff(w, tracked, base, now, r, p);
    }
  }

  lemma EntriesAreClean(w: World, tracked: iset<Path>, base: Snapshot, now: Disk, r: Report)
    requires Origin(w, tracked, base, now, r) && ListsFit(r, base.files, now)
    ensures var e := Infos(r, base.files, now);
            && (forall p :: p in r.added ==> p in e.added && CleanPath(p) && CleanInfo(e.added[p]))
            && (forall p :: p in r.removed ==> p in e.removed && CleanPath(p) && CleanInfo(e.removed[p]))
            && (forall p :: p in r.changed ==> p in e.changed && CleanPath(p) && CleanInfo(e.changed[p]))
  {
    hide Origin, CleanPath, CleanInfo, OrdinaryPath, OneSided, InfoString;
    forall p | p in r.added ensures CleanPath(p) && CleanInfo(OneSided(now[p], '+')) {
      PathIsOrdinary(w, tracked, base, now, r, p);
      OrdinaryIsClean(p);
      InfosAreClean(now[p], now[p], '+');
    }
    forall p | p in r.removed ensures CleanPath(p) && CleanInfo(OneSided(base.files[p], '-')) {
      PathIsOrdinary(w, tracked, base, now, r, p);
      OrdinaryIsClean(p);
      InfosAreClean(base.files[p], base.files[p], '-');
    }
    forall p | p in r.changed ensures CleanPath(p) && CleanInfo(InfoString(base.files[p], now[p])) {
      PathIsOrdinary(w, tracked, base, now, r, p);
      OrdinaryIsClean(p);
      InfosAreClean(base.files[p], now[p], '+');
    }
  }

  lemma PathIsOrdinary(w: World, tracked: iset<Path>, base: Snapshot, now: Disk, r: Report, p: Path)
    requires Origin(w, tracked, base, now, r) && (p in now || p in base.files)
    ensures OrdinaryPath(p)
  {
    hide OrdinaryPath, ValidDisk, Lawful, ReportOf, KnownKind;
  }

  lemma PartsSay(summary: seq<string>, blanks: nat, r: Report, e: Entries)
    requires forall p :: p in e.added <==> p in r.added
    requires forall p :: p in e.removed <==> p in r.removed
    requires forall p :: p in e.changed <==> p in r.changed
    ensures var parts := PartsOf(summary, blanks, r, e);
            && |parts| <= SECTION_COUNT && DistinctSections(parts)
            && Says(parts, Added, e.added) && Says(parts, Removed, e.removed) && Says(parts, Changed, e.changed)
  {
    hide Enumerates, SectionFor, Says;
    var a, b := SectionFor(summary, Added, blanks, r.added, e.added),
        SectionFor(summary, Removed, blanks, r.removed, e.removed);
    var c := SectionFor(summary, Changed, blanks, r.changed, e.changed);
    OneSection(summary, Added, blanks, r.added, e.added);
    OneSection(summary, Removed, blanks, r.removed, e.removed);
    OneSection(summary, Changed, blanks, r.changed, e.changed);
    assert a + b + c == [] + a + (b + c) == a + b + (c) == (a + b) + c + [];
    SaysOneOf([], a, b + c, Added, e.added);
    SaysOneOf(a, b, c, Removed, e.removed);
    SaysOneOf(a + b, c, [], Changed, e.changed);
  }

  /** No part for an empty map, else one that lists it. */
  ghost predicate IsSection(part: seq<Part>, s: Section, m: map<Path, string>) {
    if part == [] then m == map[] else |part| == 1 && part[0].section == s && Enumerates(part[0].entries, m)
  }

  lemma OneSection(before: seq<string>, section: Section, blanks: nat, paths: seq<Path>, m: map<Path, string>)
    requires forall p :: p in m <==> p in paths
    ensures IsSection(SectionFor(before, section, blanks, paths, m), section, m)
  {
    hide Enumerates, Listing;
    ListingLists(paths, m);
  }

  lemma SaysOneOf(x: seq<Part>, part: seq<Part>, y: seq<Part>, s: Section, m: map<Path, string>)
    requires IsSection(part, s, m)
    requires (forall k :: 0 <= k < |x| ==> x[k].section != s) && (forall k :: 0 <= k < |y| ==> y[k].section != s)
    ensures Says(x + part + y, s, m)
  {
    hide Enumerates;
    var parts := x + part + y;
    if part != [] {
      assert parts[|x|] == part[0];
    } else {
      assert parts == x + y;
    }
  }
}
