/** A dry run of a generated image: what it finds wrong is the platform, and nothing else. */
module DryRun {
  import opened Text
  import opened Paths
  import opened Pruning
  import opened AddedEntries
  import opened FileTree
  import opened ChangedReport
  import opened ReportLines
  import opened ReportHeader
  import opened SysImgGenerator
  import opened SysImgExtractor
  import opened DeltaRows
  import opened DeltaAdded
  import opened DeltaChanged
  import opened DeltaTheorem
  import opened ValidationTheorem

  /** Content, permissions and owner are passed over, whatever is on the disk. */
  lemma RowPasses(w: World, run: Runner, p: Path, a: Node, b: Node, row: seq<string>, st: Work)
    requires RowMeans(w, p, a, b, row)
    ensures ApplyRow(w, run, true, st, row).Done? && ApplyRow(w, run, true, st, row).state.disk == st.disk
  {
    hide GetNewOld, ExpectedValue, Numeral, ParseInt, IntText, HashText, ContentOf, Reported, KindChar, Size;
    ParseIntNumeral(b.mode, 8);
  }

  lemma {:induction false} RowsPass(w: World, host: Host, run: Runner, base: Snapshot, now: Disk, paths: seq<Path>,
                                    lines: seq<string>, st: Work, n: nat)
    requires ChangedSetting(w, base, now, paths) && LinesOf(w, base, now, paths, lines) && n <= |lines|
    ensures var o := ApplyLines(w, host, run, true, st, lines[..n]); o.Done? && o.state.disk == st.disk
  {
    hide Lawful, OrdinaryDisk, OrdinaryPath, KnownKind, RowOf, RowMeans, PrintRow, ReadLine, ApplyRow, Reported;
    if n > 0 {
      assert lines[..n][..n - 1] == lines[..n - 1];
      RowsPass(w, host, run, base, now, paths, lines, st, n - 1);
      var p := paths[n - 1];
      assert p in paths;
      RowIsRead(w, p, base.files[p], now[p]);
      RowSurvives(w, p, base.files[p], now[p], host);
      var before := ApplyLines(w, host, run, true, st, lines[..n - 1]).state;
      RowPasses(w, run, p, base.files[p], now[p], RowOf(w, p, base.files[p], now[p]).value, before);
    }
  }

  lemma {:induction false} RemovalPasses(w: World, host: Host, disk: Disk, paths: seq<Path>)
    requires Lawful(w) && forall p :: p in paths ==> OrdinaryPath(p)
    ensures RemoveLines(host, true, disk, EntryLines(w, paths)) == Done(disk)
  {
    hide Lawful, OrdinaryPath, ReadLine, PrintEntry;
    var lines := EntryLines(w, paths);
    if paths != [] {
      var n := |paths| - 1;
      RemovalPasses(w, host, disk, paths[..n]);
      assert lines[..n] == EntryLines(w, paths[..n]);
      ListedLineReads(w, paths[n], host);
    }
  }

  /** The client may be in any state and need not hold the snapshot: a dry run of the image goes through and leaves its
      disk as it is, unless it is not what the server is; then it stops at the list of added files. */
  lemma DryRunExact(w: World, host: Host, run: Runner, tracked: iset<Path>, base: Snapshot, now: Disk, r: Report,
                    client: Disk, image: Image, walk: seq<Path>)
    requires Origin(w, tracked, base, now, r) && ReportFits(r, base, now) && Generate(w, base, now, r) == Ok(image)
    requires forall p :: p in walk ==> p in ExtractedTree(run, image.added)
    ensures ApplyParts(w, host, run, true, image, walk, client) ==
              if HostFits(w.identity, host) then Done(client) else Stopped(client, ReportCorrupted)
  {
    hide Origin, Generate, Run, SortPaths, DiskSource, TopPaths, FilesOf, LinesOf, MembersOf, ExtractedTree, MoveAll,
      ApplyLines, RemoveLines, HeaderOf, HostFits, ReportReads, EntryLines, ExtractedMembers, ChangedSetting, Lawful,
      AllSkipped, OrdinaryPath;
    GeneratedIs(w, tracked, base, now, r);
    ListedAreOrdinary(w, tracked, base, now, r);
    OriginFacts(w, tracked, base, now, r);
    AddedReportReads(w, host, Run(DiskSource(now), SortPaths(r.added)).listed);
    if HostFits(w.identity, host) {
      var st := Work(client, ExtractedMembers(run, image.changed));
      ChangedPasses(w, host, run, tracked, base, now, r, image, st);
      HeaderOfExact(w, RemovedTxt, host);
      RemovedPastHeader(host, true, client, HeaderOf(w, RemovedTxt), EntryLines(w, TopPaths(r.removed)));
      RemovalPasses(w, host, client, TopPaths(r.removed));
    }
  }

  lemma ChangedPasses(w: World, host: Host, run: Runner, tracked: iset<Path>, base: Snapshot, now: Disk, r: Report,
                      image: Image, st: Work)
    requires Origin(w, tracked, base, now, r) && ReportFits(r, base, now) && ImageOf(w, base, now, r, image)
    requires Lawful(w) && HostFits(w.identity, host)
    ensures var o := ApplyLines(w, host, run, true, st, image.changedTxt); o.Done? && o.state.disk == st.disk
  {
    hide Origin, Run, SortPaths, DiskSource, TopPaths, FilesOf, LinesOf, MembersOf, ApplyLines, HeaderOf, HostFits,
      EntryLines, ChangedSetting, Lawful, AllSkipped;
    SettingFits(w, tracked, base, now, r);
    var rows :| image.changedTxt == HeaderOf(w, ChangedTxt) + rows && LinesOf(w, base, now, r.changed, rows);
    RowsPass(w, host, run, base, now, r.changed, rows, st, |rows|);
    assert rows[..|rows|] == rows;
    HeaderOfExact(w, ChangedTxt, host);
    AppliedPastHeader(w, host, run, true, st, HeaderOf(w, ChangedTxt), rows);
  }
}
