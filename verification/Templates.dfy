/** Files with a template beside them: the server's own version is not sent. */
module Templates {
  import opened Text
  import opened Paths
  import opened Pruning
  import opened AddedEntries
  import opened FileTree
  import opened ChangedReport
  import opened ReportLines
  import opened SysImgGenerator

  /** A regular file that is no template itself and has its template beside it. */
  ghost predicate Beside(disk: Disk, p: Path) {
    && p in disk && IsFile(disk[p])
    && p + ".myscm-template" in disk && IsFile(disk[p + ".myscm-template"])
    && forall s: string :: p != s + ".myscm-template"
  }

  /** The paths without those, in their order. */
  ghost function Untemplated(disk: Disk, paths: seq<Path>): (kept: seq<Path>)
    ensures forall p :: p in kept <==> p in paths && !Beside(disk, p)
  {
    if paths == [] then []
    else
      var last := paths[|paths| - 1];
      Untemplated(disk, paths[..|paths| - 1]) + if Beside(disk, last) then [] else [last]
  }

  lemma IsTemplated(disk: Disk, p: Path)
    ensures HasTemplate(disk, p) <==> Beside(disk, p)
  {
    if EndsWith(p, TEMPLATE_EXT) {
      assert p == p[..|p| - |TEMPLATE_EXT|] + ".myscm-template";
    } else {
      forall s: string ensures p != s + ".myscm-template" {
        assert (s + ".myscm-template")[|s|..] == TEMPLATE_EXT;
      }
    }
  }

  lemma {:induction false} TemplatedIsNotListed(src: Source, s: seq<Path>, p: Path)
    requires p in src.templated
    ensures Run(src, s).Progress? ==> p !in Run(src, s).listed
  {
    hide CommonPath, Subtree;
    if s != [] {
      TemplatedIsNotListed(src, s[..|s| - 1], p);
    }
  }

  lemma UntemplatedStep(disk: Disk, init: seq<Path>, last: Path)
    ensures Untemplated(disk, init + [last]) == Untemplated(disk, init) + if Beside(disk, last) then [] else [last]
  {
    hide Beside;
    assert (init + [last])[..|init|] == init;
  }

  lemma ChangedStep(w: World, base: Snapshot, disk: Disk, init: seq<Path>, last: Path)
    requires (forall p :: p in init ==> p in base.files && p in disk) && last in base.files && last in disk
    ensures forall p :: p in init + [last] ==> p in base.files && p in disk
    ensures AddAllChanged(w, base, disk, init + [last]) ==
              if AddAllChanged(w, base, disk, init).Ok?
              then AddChanged(w, base, disk, AddAllChanged(w, base, disk, init).value, last)
              else AddAllChanged(w, base, disk, init)
  {
    hide AddChanged;
    assert (init + [last])[..|init|] == init;
  }

  lemma {:induction false} ChangedSkips(w: World, base: Snapshot, disk: Disk, paths: seq<Path>)
    requires forall p :: p in paths ==> p in base.files && p in disk
    ensures AddAllChanged(w, base, disk, paths) == AddAllChanged(w, base, disk, Untemplated(disk, paths))
  {
    hide Beside, AddAllChanged, AddChanged, Untemplated;
    if paths == [] {
      NothingChanged(w, base, disk);
    } else {
      var init, last := paths[..|paths| - 1], paths[|paths| - 1];
      ChangedSkips(w, base, disk, init);
      assert paths == init + [last];
      ChangedStep(w, base, disk, init, last);
      UntemplatedStep(disk, init, last);
      if Beside(disk, last) {
        assert Untemplated(disk, init) + [] == Untemplated(disk, init);
        if AddAllChanged(w, base, disk, init).Ok? {
          RowOrNone(w, base, disk, AddAllChanged(w, base, disk, init).value, last);
        }
      } else {
        ChangedStep(w, base, disk, Untemplated(disk, init), last);
      }
    }
  }

  lemma NothingChanged(w: World, base: Snapshot, disk: Disk)
    ensures Untemplated(disk, []) == [] && AddAllChanged(w, base, disk, []) == Ok(ChangedPart(map[], []))
  {
  }

  /** The row of a changed path. */
  function RowFor(w: World, base: Snapshot, disk: Disk, p: Path): Result<seq<string>, EntryError>
    requires p in base.files && p in disk
  {
    ChangedProperties(EntryOf(w, p, base.files[p], disk[p]))
  }

  /** A changed path with a template adds nothing; any other one adds its row, or is an error. */
  lemma RowOrNone(w: World, base: Snapshot, disk: Disk, part: ChangedPart, p: Path)
    requires p in base.files && p in disk
    ensures var o := AddChanged(w, base, disk, part, p);
            if Beside(disk, p) then o == Ok(part)
            else o.Ok? ==> && RowFor(w, base, disk, p).Ok? && |RowFor(w, base, disk, p).value| == COLUMN_COUNT
                           && o.value.lines == part.lines + [PrintRow(RowFor(w, base, disk, p).value)]
  {
    IsTemplated(disk, p);
    hide Beside, EntryOf, ChangedProperties, PrintRow, HasTemplate;
  }

  /** The rows are those of the paths. */
  ghost predicate RowsFor(w: World, base: Snapshot, disk: Disk, paths: seq<Path>, lines: seq<string>) {
    && |lines| == |paths|
    && forall i :: 0 <= i < |lines| ==>
         && paths[i] in base.files && paths[i] in disk && RowFor(w, base, disk, paths[i]).Ok?
         && |RowFor(w, base, disk, paths[i]).value| == COLUMN_COUNT
         && lines[i] == PrintRow(RowFor(w, base, disk, paths[i]).value)
  }

  /** Each changed path without a template has exactly one row, in the order of the report. */
  lemma {:induction false} OneRowEach(w: World, base: Snapshot, disk: Disk, paths: seq<Path>)
    requires forall p :: p in paths ==> p in base.files && p in disk
    requires AddAllChanged(w, base, disk, paths).Ok?
    ensures RowsFor(w, base, disk, Untemplated(disk, paths), AddAllChanged(w, base, disk, paths).value.lines)
  {
    hide Beside, AddAllChanged, AddChanged, Untemplated, PrintRow, RowFor;
    if paths == [] {
      NothingChanged(w, base, disk);
    } else {
      var init, last := paths[..|paths| - 1], paths[|paths| - 1];
      assert paths == init + [last];
      ChangedStep(w, base, disk, init, last);
      OneRowEach(w, base, disk, init);
      UntemplatedStep(disk, init, last);
      RowOrNone(w, base, disk, AddAllChanged(w, base, disk, init).value, last);
    }
  }

  /** An image is made as if the changed files with a template were not reported as changed; no added file with a
      template is listed, and the changed files without one have their rows. */
  lemma TemplatedIsLeftOut(w: World, base: Snapshot, disk: Disk, r: Report)
    requires ReportFits(r, base, disk)
    ensures Generate(w, base, disk, r) == Generate(w, base, disk, r.(changed := Untemplated(disk, r.changed)))
    ensures Generate(w, base, disk, r).Ok? ==>
              var image := Generate(w, base, disk, r).value;
              && (exists listed :: && image.addedTxt == HeaderOf(w, AddedTxt) + EntryLines(w, listed)
                                   && forall p :: p in listed ==> !Beside(disk, p))
              && exists rows :: && image.changedTxt == HeaderOf(w, ChangedTxt) + rows
                                && RowsFor(w, base, disk, Untemplated(disk, r.changed), rows)
  {
    hide Beside, HasTemplate, Run, SortPaths, AddAllChanged, EntryLines, HeaderOf, TopPaths, RowsFor, Untemplated;
    ChangedSkips(w, base, disk, r.changed);
    var st := Run(DiskSource(disk), SortPaths(r.added));
    if Generate(w, base, disk, r).Ok? {
      OneRowEach(w, base, disk, r.changed);
      forall p | p in st.listed ensures !Beside(disk, p) {
        ListedIsUntemplated(disk, r.added, p);
      }
    }
  }

  lemma ListedIsUntemplated(disk: Disk, paths: seq<Path>, p: Path)
    requires Run(DiskSource(disk), SortPaths(paths)).Progress?
    ensures p in Run(DiskSource(disk), SortPaths(paths)).listed ==> !Beside(disk, p)
  {
    IsTemplated(disk, p);
    assert Beside(disk, p) ==> p in DiskSource(disk).templated;
    hide Beside, HasTemplate, Run, SortPaths;
    if Beside(disk, p) {
      TemplatedIsNotListed(DiskSource(disk), SortPaths(paths), p);
    }
  }
}
