/** The loop that writes the added entries: sorted pruning, the template test and the archive member guard. */
module AddedEntries {
  import opened Text
  import opened Paths
  import opened Pruning

  /** The paths on the server's disk, and those of them that have a template file beside them. */
  datatype Source = Source(tree: set<Path>, templated: set<Path>)

  /** Every ancestor of a path on disk is on disk; a templated path is a regular file, so nothing is below it. */
  ghost predicate ValidSource(src: Source) {
    && (forall p :: p in src.tree ==> IsPath(p))
    && (forall a, p :: IsPath(a) && p in src.tree && IsUnder(a, p) ==> a in src.tree)
    && (forall p, q :: p in src.templated && q in src.tree && IsUnder(p, q) ==> q == p)
  }

  /** What `TarFile.add` writes for a path: the path and all there is below it. */
  function Subtree(tree: set<Path>, p: Path): set<Path> {
    set q | q in tree && IsUnder(p, q)
  }

  /** The loop's variables: `common_path`, the members written to the archive, the lines of added.txt. */
  datatype Progress =
    | Progress(common: Path, archive: multiset<Path>, listed: seq<Path>)
    | MissingOnDisk(path: Path, archive: multiset<Path>)

  const START := Progress(SENTINEL, multiset{}, [])

  function Step(src: Source, st: Progress, path: Path): Progress {
    if st.MissingOnDisk? || CommonPath(path, st.common) == st.common then st
    else if path in src.templated || path in st.archive then st.(common := path)
    else if path !in src.tree then MissingOnDisk(path, st.archive)
    else Progress(path, st.archive + multiset(Subtree(src.tree, path)), st.listed + [path])
  }

  function Run(src: Source, s: seq<Path>): Progress {
    if s == [] then START else Step(src, Run(src, s[..|s| - 1]), s[|s| - 1])
  }

  /** None is the error raised for an entry that is not on disk. */
  method AddEntries(src: Source, paths: seq<Path>)
    returns (archive: multiset<Path>, listed: seq<Path>, missing: Option<Path>)
    ensures match Run(src, SortPaths(paths))
            case Progress(_, a, l) => missing == None && archive == a && listed == l
            case MissingOnDisk(p, a) => missing == Some(p) && archive == a
  {
    hide CommonPath, Subtree, SortPaths;
    var sorted := SortPaths(paths);
    var commonPath := SENTINEL;
    archive, listed, missing := multiset{}, [], None;
    for i := 0 to |sorted|
      invariant missing == None && Run(src, sorted[..i]) == Progress(commonPath, archive, listed)
    {
      var path := sorted[i];
      assert sorted[..i + 1][..i] == sorted[..i];
      StaysMissing(src, sorted, i + 1);
      if CommonPath(path, commonPath) == commonPath {
        continue;
      }
      commonPath := path;
      if path in src.templated {
        continue;
      }
      if path in archive {
        continue;
      }
      if path !in src.tree {
        missing := Some(path);
        return;
      }
      archive := archive + multiset(Subtree(src.tree, path));
      listed := listed + [path];
    }
    assert sorted[..|sorted|] == sorted;
  }

  lemma {:induction false} StaysMissing(src: Source, s: seq<Path>, i: nat)
    requires i <= |s|
    ensures Run(src, s[..i]).MissingOnDisk? ==> Run(src, s) == Run(src, s[..i])
    decreases |s| - i
  {
    if i < |s| {
      assert s[..i + 1][..i] == s[..i];
      StaysMissing(src, s, i + 1);
    } else {
      assert s[..i] == s;
    }
  }

  /** The loop never meets a missing path when all entries are on disk. */
  ghost predicate LoopInvariant(src: Source, s: seq<Path>, st: Progress) {
    && st.Progress?
    && (forall q :: st.archive[q] <= 1)
    && (forall q :: q in st.archive <==> q in src.tree && Covered(q, st.listed))
    && (forall l :: l in st.listed ==> l in s)
    && Incomparable(st.listed)
    && (forall p :: p in s && p !in src.templated ==> p in st.archive)
    && (if s == [] then st.common == SENTINEL else st.common in s)
  }

  /** The member guard repairs what the prefix test misses. */
  lemma {:induction false} RunKeepsInvariant(src: Source, s: seq<Path>)
    requires ValidSource(src) && Ascending(s)
    requires forall p :: p in s ==> p in src.tree && !IsUnder(SENTINEL, p)
    ensures LoopInvariant(src, s, Run(src, s))
  {
    hide CommonPath, IsUnder, IsPath, LoopInvariant, Subtree;
    if s == [] {
      StartKeepsInvariant(src);
    } else {
      var init, path := s[..|s| - 1], s[|s| - 1];
      RunKeepsInvariant(src, init);
      var st := Run(src, init);
      assert s == init + [path] && path in s && forall p :: p in init ==> p in s;
      CommonIsPath(src, init, st);
      PathOfSource(src, path);
      CommonPathTest(path, st.common);
      if IsUnder(st.common, path) {
        SkippedIsWritten(src, init, st, path);
        SkippingKeepsInvariant(src, init, st, path, st.common);
      } else if path in src.templated || path in st.archive {
        SkippingKeepsInvariant(src, init, st, path, path);
      } else {
        AscendingLast(s, init, path);
        AddingKeepsInvariant(src, init, st, path);
      }
    }
  }

  lemma StartKeepsInvariant(src: Source)
    ensures LoopInvariant(src, [], START)
  {
    hide IsUnder;
  }

  lemma PathOfSource(src: Source, path: Path)
    requires ValidSource(src) && path in src.tree
    ensures IsPath(path)
  {
    hide IsUnder, IsPath;
  }

  lemma CommonIsPath(src: Source, s: seq<Path>, st: Progress)
    requires ValidSource(src) && LoopInvariant(src, s, st) && forall p :: p in s ==> p in src.tree
    ensures st.Progress? && IsPath(st.common) && (s == [] ==> st.common == SENTINEL)
  {
    hide IsUnder, IsPath, Covered, Incomparable;
    SentinelIsPath();
  }

  lemma AscendingLast(s: seq<Path>, init: seq<Path>, last: Path)
    requires Ascending(s) && s == init + [last]
    ensures forall p :: p in init ==> TextLe(p, last)
  {
    hide TextLe;
    forall p | p in init ensures TextLe(p, last) {
      var i :| 0 <= i < |init| && init[i] == p;
      assert s[i] == p && s[|init|] == last;
    }
  }

  lemma SkippingKeepsInvariant(src: Source, s: seq<Path>, st: Progress, path: Path, common: Path)
    requires LoopInvariant(src, s, st) && (path !in src.templated ==> path in st.archive)
    requires common == path || (common == st.common && s != [])
    ensures LoopInvariant(src, s + [path], st.(common := common))
  {
    hide IsUnder, Covered, Incomparable;
    var longer := s + [path];
    assert forall p :: p in longer <==> p in s || p == path;
  }

  lemma SkippedIsWritten(src: Source, s: seq<Path>, st: Progress, path: Path)
    requires ValidSource(src) && LoopInvariant(src, s, st)
    requires path in src.tree && IsPath(path) && IsUnder(st.common, path) && !IsUnder(SENTINEL, path)
    requires forall p :: p in s ==> p in src.tree
    ensures path !in src.templated ==> path in st.archive
  {
    hide CommonPath, IsUnder, IsPath;
    if path !in src.templated {
      assert s != [] && st.common in s;
      if st.common !in src.templated {
        var l :| l in st.listed && IsUnder(l, st.common);
        assert IsPath(l);
        UnderTransitive(l, st.common, path);
      }
    }
  }

  lemma AddingKeepsInvariant(src: Source, s: seq<Path>, st: Progress, path: Path)
    requires ValidSource(src) && LoopInvariant(src, s, st)
    requires path in src.tree && path !in st.archive && path !in src.templated
    requires forall p :: p in s ==> p in src.tree && TextLe(p, path)
    ensures LoopInvariant(src, s + [path],
              Progress(path, st.archive + multiset(Subtree(src.tree, path)), st.listed + [path]))
  {
    hide CommonPath, IsUnder, IsPath, TextLe, Covered, Incomparable;
    var listed := st.listed + [path];
    var below := Subtree(src.tree, path);
    forall l | l in st.listed ensures !IsUnder(l, path) && !IsUnder(path, l) {
      NewEntryIncomparable(src, s, st, path, l);
    }
    IncomparableAppend(st.listed, path);
    forall q | q in st.archive ensures q !in below {
      NewMembersAreNew(src, s, st, path, q);
    }
    forall q ensures q in st.archive + multiset(below) <==> q in src.tree && Covered(q, listed) {
      CoveredAppend(st.listed, path, q);
    }
    UnderReflexive(path);
    assert forall p :: p in s + [path] <==> p in s || p == path;
  }

  lemma NewMembersAreNew(src: Source, s: seq<Path>, st: Progress, path: Path, q: Path)
    requires ValidSource(src) && LoopInvariant(src, s, st)
    requires path in src.tree && path !in st.archive && q in st.archive
    requires forall l :: l in st.listed ==> !IsUnder(path, l)
    requires forall p :: p in s ==> p in src.tree
    ensures !IsUnder(path, q)
  {
    hide CommonPath, IsUnder, IsPath, Incomparable;
    var l :| l in st.listed && IsUnder(l, q);
    if IsUnder(path, q) {
      assert IsPath(l) && IsPath(path);
      UnderComparable(l, path, q);
    }
  }

  lemma IncomparableAppend(s: seq<Path>, path: Path)
    requires Incomparable(s) && forall l :: l in s ==> !IsUnder(l, path) && !IsUnder(path, l)
    ensures Incomparable(s + [path])
  {
    hide IsUnder;
    var t := s + [path];
    forall i, j | 0 <= i < j < |t| ensures !IsUnder(t[i], t[j]) && !IsUnder(t[j], t[i]) {
      assert t[i] == s[i];
      if j < |s| { assert t[j] == s[j]; } else { assert s[i] in s; }
    }
  }

  lemma CoveredAppend(listed: seq<Path>, path: Path, q: Path)
    ensures Covered(q, listed + [path]) <==> Covered(q, listed) || IsUnder(path, q)
  {
    hide IsUnder;
    var both := listed + [path];
    assert path in both;
    if Covered(q, listed) {
      var k :| k in listed && IsUnder(k, q);
      assert k in both;
    }
  }

  lemma NewEntryIncomparable(src: Source, s: seq<Path>, st: Progress, path: Path, l: Path)
    requires LoopInvariant(src, s, st) && path in src.tree && path !in st.archive
    requires l in st.listed && forall p :: p in s ==> TextLe(p, path)
    ensures !IsUnder(l, path) && !IsUnder(path, l)
  {
    hide CommonPath, IsUnder, IsPath, TextLe, Incomparable;
    if IsUnder(path, l) {
      UnderLe(path, l);
      TextLeTotal(path, l);
      UnderReflexive(path);
    }
  }

  /** For any added entries on the disk: no member is written twice, added.txt never lists a path and its
      ancestor, and the archive holds the disk below the listed paths, which covers every added path. */
  lemma AddedLoopIsSound(src: Source, paths: seq<Path>)
    requires ValidSource(src) && forall p :: p in paths ==> p in src.tree && !IsUnder(SENTINEL, p)
    ensures var st := Run(src, SortPaths(paths));
            && st.Progress?
            && (forall q :: st.archive[q] <= 1)
            && Incomparable(st.listed)
            && (forall l :: l in st.listed ==> l in paths)
            && (forall q :: q in st.archive <==> q in src.tree && Covered(q, st.listed))
            && (forall p :: p in paths && p !in src.templated ==> p in st.archive)
  {
    hide IsUnder, IsPath, Run, SortPaths;
    SortPathsSorts(paths);
    RunKeepsInvariant(src, SortPaths(paths));
  }
}
