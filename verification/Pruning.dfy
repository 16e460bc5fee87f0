/** The sorted pruning loops of the scanner and the image generator, and the member guard of the added loop. */
module Pruning {
  import opened Text
  import opened Paths

  const SENTINEL_NAME: string := "non-existing-path-to-initialize-loop"
  const SENTINEL: Path := "/" + SENTINEL_NAME

  lemma SentinelIsPath()
    ensures IsPath(SENTINEL)
  {
    assert IsName(SENTINEL_NAME);
    assert IsPathOf(SENTINEL, [SENTINEL_NAME]);
  }

  ghost predicate AllPaths(s: seq<Path>) {
    forall p :: p in s ==> IsPath(p)
  }

  /******* list.sort *******/

  predicate Ascending(s: seq<Path>) {
    forall i, j :: 0 <= i < j < |s| ==> TextLe(s[i], s[j])
  }

  function Inserted(x: Path, s: seq<Path>): seq<Path> {
    if s == [] || TextLe(x, s[0]) then [x] + s else [s[0]] + Inserted(x, s[1..])
  }

  function SortPaths(s: seq<Path>): seq<Path> {
    if s == [] then [] else Inserted(s[0], SortPaths(s[1..]))
  }

  lemma {:induction false} InsertedSorts(x: Path, s: seq<Path>)
    requires Ascending(s)
    ensures Ascending(Inserted(x, s))
    ensures multiset(Inserted(x, s)) == multiset(s) + multiset{x}
  {
    if s == [] {
    } else if TextLe(x, s[0]) {
      forall j | 0 <= j < |s| ensures TextLe(x, s[j]) {
        if j > 0 { TextLeTransitive(x, s[0], s[j]); }
      }
    } else {
      InsertedSorts(x, s[1..]);
      var t := Inserted(x, s[1..]);
      assert s == [s[0]] + s[1..];
      TextLeTotal(x, s[0]);
      forall j | 0 <= j < |t| ensures TextLe(s[0], t[j]) {
        assert t[j] in multiset(t);
        assert t[j] == x || t[j] in s[1..];
      }
    }
  }

  lemma NothingAscends()
    ensures Ascending([])
  {
  }

  /** `list.sort` gives an ascending permutation. */
  lemma {:induction false} SortPathsSorts(s: seq<Path>)
    ensures Ascending(SortPaths(s))
    ensures multiset(SortPaths(s)) == multiset(s)
    ensures forall p :: p in SortPaths(s) <==> p in s
    ensures |SortPaths(s)| == |s|
  {
    hide Inserted, TextLe, Ascending;
    if s == [] {
      NothingAscends();
    } else {
      SortPathsSorts(s[1..]);
      InsertedSorts(s[0], SortPaths(s[1..]));
      assert s == [s[0]] + s[1..];
    }
    forall p ensures p in SortPaths(s) <==> p in s {
      assert p in SortPaths(s) <==> p in multiset(SortPaths(s));
      assert p in s <==> p in multiset(s);
    }
    assert |multiset(SortPaths(s))| == |multiset(s)|;
  }

  /******* the plain loop: removed entries, and the directories the scanner copies *******/

  function Pruned(s: seq<Path>, common: Path): seq<Path> {
    if s == [] then []
    else if CommonPath(s[0], common) == common then Pruned(s[1..], common)
    else [s[0]] + Pruned(s[1..], s[0])
  }

  function TopPaths(paths: seq<Path>): seq<Path> {
    Pruned(SortPaths(paths), SENTINEL)
  }

  method PruneDescendants(paths: seq<Path>) returns (kept: seq<Path>)
    ensures kept == TopPaths(paths)
  {
    var sorted := SortPaths(paths);
    var commonPath := SENTINEL;
    kept := [];
    for i := 0 to |sorted|
      invariant kept + Pruned(sorted[i..], commonPath) == TopPaths(paths)
    {
      var path := sorted[i];
      assert sorted[i..][1..] == sorted[i + 1..];
      if CommonPath(path, commonPath) == commonPath {
        continue;
      }
      commonPath := path;
      kept := kept + [path];
    }
    assert kept + [] == kept;
  }

  lemma {:induction false} PrunedSubset(s: seq<Path>, common: Path)
    ensures forall k :: k in Pruned(s, common) ==> k in s
  {
    if s != [] {
      PrunedSubset(s[1..], common);
      PrunedSubset(s[1..], s[0]);
    }
  }

  ghost predicate Covered(p: Path, kept: seq<Path>) {
    exists k :: k in kept && IsUnder(k, p)
  }

  lemma {:induction false} PrunedCovers(s: seq<Path>, common: Path)
    requires AllPaths(s) && IsPath(common)
    ensures forall p :: p in s ==> IsUnder(common, p) || Covered(p, Pruned(s, common))
  {
    if s != [] {
      var head, rest := s[0], s[1..];
      assert IsPath(head);
      CommonPathTest(head, common);
      if IsUnder(common, head) {
        PrunedCovers(rest, common);
      } else {
        PrunedCovers(rest, head);
        var kept := Pruned(s, common);
        assert kept[0] == head && head in kept;
        forall p | p in s ensures IsUnder(common, p) || Covered(p, kept) {
          if p != head && !IsUnder(head, p) {
            assert Covered(p, Pruned(rest, head));
            var k :| k in Pruned(rest, head) && IsUnder(k, p);
            assert k in kept;
          }
        }
      }
    }
  }

  /** A path under the sentinel that sorts first is dropped for good. */
  lemma {:induction false} SentinelSwallows(s: seq<Path>, q: Path)
    requires AllPaths(s) && Ascending(s) && IsUnder(SENTINEL, q)
    requires forall e :: e in s ==> TextLe(q, e)
    ensures q !in Pruned(s, SENTINEL)
  {
    if s != [] {
      SentinelIsPath();
      assert IsPath(s[0]);
      CommonPathTest(s[0], SENTINEL);
      if IsUnder(SENTINEL, s[0]) {
        SentinelSwallows(s[1..], q);
      } else {
        PrunedSubset(s[1..], s[0]);
        TextLeTotal(q, s[0]);
      }
    }
  }

  /** Pruning loses nothing, unless the path that sorts first lies under the made-up initial path. */
  lemma CoverageExact(paths: seq<Path>)
    requires AllPaths(paths)
    ensures (forall p :: p in paths ==> Covered(p, TopPaths(paths)))
       <==> (paths == [] || !IsUnder(SENTINEL, SortPaths(paths)[0]))
  {
    var s := SortPaths(paths);
    SortPathsSorts(paths);
    if s != [] {
      SentinelIsPath();
      assert s[0] in paths;
      CommonPathTest(s[0], SENTINEL);
      if IsUnder(SENTINEL, s[0]) {
        forall e | e in s ensures TextLe(s[0], e) { TextLeTotal(s[0], s[0]); }
        SentinelSwallows(s, s[0]);
        PrunedSubset(s, SENTINEL);
        if Covered(s[0], TopPaths(paths)) {
          var k :| k in TopPaths(paths) && IsUnder(k, s[0]);
          UnderLe(k, s[0]);
          TextLeTotal(k, s[0]);
          assert false;
        }
      } else {
        PrunedCovers(s[1..], s[0]);
        var kept := TopPaths(paths);
        assert kept[0] == s[0];
        forall p | p in paths ensures Covered(p, kept) {
          assert p in s;
          if p == s[0] || IsUnder(s[0], p) {
            assert s[0] in kept && IsUnder(s[0], p);
          } else {
            assert Covered(p, Pruned(s[1..], s[0]));
            var k :| k in Pruned(s[1..], s[0]) && IsUnder(k, p);
            assert k in kept;
          }
        }
      }
    }
  }

  /** For a set of entries closed under descendants in the tree it is taken from,
      the kept paths stand for exactly that set. */
  lemma ExpansionIsInput(paths: seq<Path>, tree: set<Path>)
    requires AllPaths(paths) && (forall p :: p in paths ==> p in tree && !IsUnder(SENTINEL, p))
    requires forall p, q :: p in paths && q in tree && IsUnder(p, q) ==> q in paths
    ensures forall q :: q in tree ==> (Covered(q, TopPaths(paths)) <==> q in paths)
  {
    SortPathsSorts(paths);
    CoverageExact(paths);
    PrunedSubset(SortPaths(paths), SENTINEL);
    if paths != [] {
      assert SortPaths(paths)[0] in paths;
    }
  }

  /******* when the kept paths are pairwise incomparable *******/

  predicate Incomparable(s: seq<Path>) {
    forall i, j :: 0 <= i < j < |s| ==> !IsUnder(s[i], s[j]) && !IsUnder(s[j], s[i])
  }

  /** No other path of the list lies above it. */
  predicate IsTop(a: Path, s: seq<Path>) {
    a in s && forall b :: b in s && IsUnder(b, a) ==> b == a
  }

  /** In sorted order nothing foreign stands between a topmost path and a path below it. */
  predicate Contiguous(s: seq<Path>) {
    forall i, j, k :: 0 <= i < j < k < |s| && IsTop(s[i], s) && IsUnder(s[i], s[k]) ==> IsUnder(s[i], s[j])
  }

  predicate Distinct(s: seq<Path>) {
    forall i, j :: 0 <= i < j < |s| ==> s[i] != s[j]
  }

  lemma {:induction false} TopAncestor(b: Path, s: seq<Path>) returns (a: Path)
    requires AllPaths(s) && b in s
    ensures IsTop(a, s) && IsUnder(a, b)
    decreases |b|
  {
    if IsTop(b, s) {
      a := b;
    } else {
      var c :| c in s && IsUnder(c, b) && c != b;
      a := TopAncestor(c, s);
      assert IsPath(a);
      UnderTransitive(a, c, b);
    }
  }

  /** With contiguous subtrees only topmost paths are kept, each once. */
  lemma {:induction false} ContiguousKeepsTops(s: seq<Path>, last: nat, i: nat)
    requires AllPaths(s) && Ascending(s) && Contiguous(s) && last < i <= |s|
    requires IsTop(s[last], s) && forall j :: last < j < i ==> IsUnder(s[last], s[j])
    ensures forall k :: k in Pruned(s[i..], s[last]) ==> IsTop(k, s) && k != s[last]
    ensures Distinct(Pruned(s[i..], s[last]))
    decreases |s| - i
  {
    hide IsUnder, TextLe, IsPath, CommonPath;
    if i < |s| {
      var c, head := s[last], s[i];
      assert s[i..][0] == head && s[i..][1..] == s[i + 1..];
      assert IsPath(head) && IsPath(c);
      CommonPathTest(head, c);
      if IsUnder(c, head) {
        ContiguousKeepsTops(s, last, i + 1);
      } else {
        HeadIsTop(s, last, i);
        ContiguousKeepsTops(s, i, i + 1);
        UnderReflexive(c);
        var rest := Pruned(s[i + 1..], head);
        PrunedSubset(s[i + 1..], head);
        forall k | k in rest ensures k != c {
          assert k in s[i + 1..];
          var j :| i < j < |s| && s[j] == k;
          assert TextLe(head, k) && TextLe(c, head);
          TextLeTotal(head, c);
        }
        assert head !in rest;
      }
    }
  }

  lemma HeadIsTop(s: seq<Path>, last: nat, i: nat)
    requires AllPaths(s) && Ascending(s) && Contiguous(s) && last < i < |s|
    requires IsTop(s[last], s) && forall j :: last < j < i ==> IsUnder(s[last], s[j])
    requires !IsUnder(s[last], s[i])
    ensures IsTop(s[i], s)
  {
    hide IsUnder, TextLe, IsPath;
    var c := s[last];
    var a := TopAncestor(s[i], s);
    if a != s[i] {
      var j :| 0 <= j < |s| && s[j] == a;
      UnderLe(a, s[i]);
      TextLeTotal(a, s[i]);
      assert false;
    }
  }

  /** The loop can be cut anywhere: what was kept so far, then the rest with the path kept last. */
  lemma {:induction false} PrunedCut(s: seq<Path>, j: nat, common: Path) returns (front: seq<Path>, c: Path)
    requires j <= |s|
    ensures Pruned(s, common) == front + Pruned(s[j..], c)
    ensures c == common || c in front
  {
    if j == 0 {
      front, c := [], common;
      assert s[0..] == s && [] + Pruned(s, c) == Pruned(s, c);
    } else {
      assert s[1..][j - 1..] == s[j..];
      if CommonPath(s[0], common) == common {
        front, c := PrunedCut(s[1..], j - 1, common);
      } else {
        front, c := PrunedCut(s[1..], j - 1, s[0]);
        assert [s[0]] + (front + Pruned(s[j..], c)) == ([s[0]] + front) + Pruned(s[j..], c);
        front := [s[0]] + front;
      }
    }
  }

  /** An intruder between a topmost path and a path below it leaves both a kept path above the
      other: the second one is covered by a kept path that is not the topmost one. */
  lemma IntruderSplitsSubtree(s: seq<Path>, i: nat, j: nat, k: nat) returns (other: Path)
    requires AllPaths(s) && Ascending(s) && forall p :: p in s ==> !IsUnder(SENTINEL, p)
    requires i < j < k < |s| && IsTop(s[i], s) && IsUnder(s[i], s[k]) && !IsUnder(s[i], s[j])
    ensures other in Pruned(s, SENTINEL) && other != s[i] && IsUnder(other, s[k])
  {
    hide IsUnder, TextLe, IsPath, CommonPath, IsTop;
    SentinelIsPath();
    var a, m, b := s[i], s[j], s[k];
    var front, c := PrunedCut(s, j, SENTINEL);
    PrunedSubset(s, SENTINEL);
    assert c == SENTINEL || c in s;
    assert IsPath(c) && IsPath(m) && b in s[j..];
    forall x | x in s[j..] ensures x != a {
      var n :| j <= n < |s| && s[n] == x;
      assert TextLe(a, m) && (j < n ==> TextLe(m, x));
      UnderReflexive(a);
      TextLeTotal(a, m);
    }
    PrunedSubset(s[j..], c);
    if c == a {
      CommonPathTest(m, a);
      assert s[j..][0] == m && s[j..][1..] == s[j + 1..];
      assert b in s[j + 1..];
      PrunedCovers(s[j + 1..], m);
      if IsUnder(m, b) {
        other := m;
        assert Pruned(s[j..], c)[0] == m;
      } else {
        assert Covered(b, Pruned(s[j + 1..], m));
        other :| other in Pruned(s[j + 1..], m) && IsUnder(other, b);
      }
      assert other in Pruned(s[j..], c);
    } else {
      PrunedCovers(s[j..], c);
      if IsUnder(c, b) {
        other := c;
      } else {
        assert Covered(b, Pruned(s[j..], c));
        other :| other in Pruned(s[j..], c) && IsUnder(other, b);
      }
    }
  }

  /** The kept paths are pairwise incomparable exactly when no foreign path sorts into a topmost subtree. */
  lemma IncomparableExact(paths: seq<Path>)
    requires AllPaths(paths) && forall p :: p in paths ==> !IsUnder(SENTINEL, p)
    ensures Incomparable(TopPaths(paths)) <==> Contiguous(SortPaths(paths))
  {
    hide IsUnder, IsPath, TextLe, CommonPath, Incomparable, Contiguous, Ascending, SortPaths, Pruned;
    SortPathsSorts(paths);
    if paths == [] {
      IncomparableEmpty();
    } else if Contiguous(SortPaths(paths)) {
      ContiguousThenIncomparable(paths);
    } else {
      IntruderThenComparable(paths);
    }
  }

  lemma IncomparableEmpty()
    ensures Incomparable(TopPaths([])) && Contiguous(SortPaths([]))
  {
  }

  lemma ContiguousThenIncomparable(paths: seq<Path>)
    requires AllPaths(paths) && paths != [] && forall p :: p in paths ==> !IsUnder(SENTINEL, p)
    requires Contiguous(SortPaths(paths))
    ensures Incomparable(TopPaths(paths))
  {
    hide IsUnder, IsPath, TextLe, CommonPath, SortPaths;
    var s := SortPaths(paths);
    SortPathsSorts(paths);
    SentinelIsPath();
    assert s[0] in paths;
    CommonPathTest(s[0], SENTINEL);
    FirstIsTop(s);
    ContiguousKeepsTops(s, 0, 1);
    TopsAreIncomparable(s, TopPaths(paths));
  }

  lemma IntruderThenComparable(paths: seq<Path>)
    requires AllPaths(paths) && paths != [] && forall p :: p in paths ==> !IsUnder(SENTINEL, p)
    requires !Contiguous(SortPaths(paths))
    ensures !Incomparable(TopPaths(paths))
  {
    hide IsUnder, IsPath, TextLe, CommonPath, SortPaths, Incomparable, Contiguous, Ascending, IsTop, Pruned;
    var s := SortPaths(paths);
    SortPathsSorts(paths);
    var i, j, k := FindIntruder(s);
    var top, low := s[i], s[k];
    var other := IntruderSplitsSubtree(s, i, j, k);
    TopIsKept(paths, top);
    PrunedSubset(s, SENTINEL);
    assert IsPath(top) && IsPath(other);
    UnderComparable(top, other, low);
    ComparablePair(TopPaths(paths), top, other);
  }

  lemma FindIntruder(s: seq<Path>) returns (i: nat, j: nat, k: nat)
    requires !Contiguous(s)
    ensures i < j < k < |s| && IsTop(s[i], s) && IsUnder(s[i], s[k]) && !IsUnder(s[i], s[j])
  {
    hide IsUnder, IsTop;
    i, j, k :| i < j < k < |s| && IsTop(s[i], s) && IsUnder(s[i], s[k]) && !IsUnder(s[i], s[j]);
  }

  lemma TopIsKept(paths: seq<Path>, a: Path)
    requires AllPaths(paths) && IsTop(a, SortPaths(paths)) && forall p :: p in paths ==> !IsUnder(SENTINEL, p)
    ensures a in TopPaths(paths)
  {
    hide IsUnder, IsPath, SortPaths, Pruned;
    var s := SortPaths(paths);
    SortPathsSorts(paths);
    assert s[0] in paths;
    CoverageExact(paths);
    var k :| k in TopPaths(paths) && IsUnder(k, a);
    PrunedSubset(s, SENTINEL);
  }

  lemma FirstIsTop(s: seq<Path>)
    requires s != [] && Ascending(s)
    ensures IsTop(s[0], s)
  {
    forall b | b in s && IsUnder(b, s[0]) ensures b == s[0] {
      UnderLe(b, s[0]);
      TextLeTotal(b, s[0]);
    }
  }

  lemma TopsAreIncomparable(s: seq<Path>, tops: seq<Path>)
    requires Distinct(tops) && forall k :: k in tops ==> IsTop(k, s)
    ensures Incomparable(tops)
  {
    hide IsUnder;
    forall i, j | 0 <= i < j < |tops| ensures !IsUnder(tops[i], tops[j]) && !IsUnder(tops[j], tops[i]) {
      assert IsTop(tops[i], s) && IsTop(tops[j], s);
    }
  }

  lemma ComparablePair(s: seq<Path>, a: Path, b: Path)
    requires a in s && b in s && a != b && (IsUnder(a, b) || IsUnder(b, a))
    ensures !Incomparable(s)
  {
    var i :| 0 <= i < |s| && s[i] == a;
    var j :| 0 <= j < |s| && s[j] == b;
    if i < j {
      assert IsUnder(s[i], s[j]) || IsUnder(s[j], s[i]);
    } else {
      assert IsUnder(s[j], s[i]) || IsUnder(s[i], s[j]);
    }
  }

  /** No character of the paths sorts below the slash. */
  predicate NoLowCharacters(s: seq<Path>) {
    forall p :: p in s ==> forall i :: 0 <= i < |p| ==> p[i] >= '/'
  }

  lemma NoLowCharactersContiguous(s: seq<Path>)
    requires AllPaths(s) && Ascending(s) && NoLowCharacters(s)
    ensures Contiguous(s)
  {
    hide IsPath, TextLe, IsTop, IsUnder;
    forall i, j, k | 0 <= i < j < k < |s| && IsTop(s[i], s) && IsUnder(s[i], s[k])
      ensures IsUnder(s[i], s[j])
    {
      assert IsPath(s[j]);
      BetweenIsUnder(s[i], s[j], s[k], s);
    }
  }

  lemma BetweenIsUnder(a: Path, m: Path, b: Path, s: seq<Path>)
    requires NoLowCharacters(s) && m in s && IsPath(m) && TextLe(a, m) && TextLe(m, b) && IsUnder(a, b)
    ensures IsUnder(a, m)
  {
    hide IsPath, TextLe;
    PathStartsWithSlash(m);
    if a == b {
      TextLeTotal(a, m);
    } else if a != "/" {
      BetweenExtends(a, m, b);
      if m != a {
        assert b[|a|] == '/';
        assert m == a + [m[|a|]] + m[|a| + 1..];
      }
    }
  }

  /** `/a-b` sorts between `/a` and `/a/c`, so `/a/c` is kept although `/a` is. */
  lemma DashDefeatsTheTest()
    ensures TopPaths(["/a", "/a-b", "/a/c"]) == ["/a", "/a-b", "/a/c"]
    ensures IsUnder("/a", "/a/c")
  {
    hide IsUnder, IsPath, TextLe, CommonPath, Components;
    var a, d, c := "/a", "/a-b", "/a/c";
    DashOrder();
    SentinelIsPath();
    CommonPathTest(a, SENTINEL);
    CommonPathTest(d, a);
    CommonPathTest(c, d);
    assert SortPaths([]) == [] && SortPaths([c]) == Inserted(c, []) == [c];
    assert SortPaths([d, c]) == Inserted(d, [c]) == [d, c];
    assert SortPaths([a, d, c]) == Inserted(a, [d, c]) == [a, d, c];
    var s := [a, d, c];
    assert s[1..] == [d, c] && [d, c][1..] == [c] && [c][1..] == [];
    assert Pruned([c], d) == [c] + Pruned([], c) == [c];
    assert Pruned([d, c], a) == [d] + Pruned([c], d) == [d, c];
  }

  lemma DashOrder()
    ensures IsPath("/a") && IsPath("/a-b") && IsPath("/a/c")
    ensures !IsUnder(SENTINEL, "/a") && !IsUnder("/a", "/a-b") && !IsUnder("/a-b", "/a/c") && IsUnder("/a", "/a/c")
    ensures TextLe("/a", "/a-b") && TextLe("/a-b", "/a/c")
  {
    DashPaths();
    DashBelow();
    DashText();
  }

  lemma DashPaths()
    ensures IsPath("/a") && IsPath("/a-b") && IsPath("/a/c")
  {
    assert IsName("a") && IsName("a-b") && IsName("c");
    assert IsPathOf("/a", ["a"]) && IsPathOf("/a-b", ["a-b"]);
    var ac := ["a", "c"];
    assert ac[1..] == ["c"];
    assert IsPathOf("/a/c", ac);
  }

  lemma DashBelow()
    ensures !IsUnder(SENTINEL, "/a") && !IsUnder("/a", "/a-b") && !IsUnder("/a-b", "/a/c") && IsUnder("/a", "/a/c")
  {
    assert |SENTINEL| > 2;
    assert "/a/c"[..3] == "/a/" && "/a-b"[2] == '-';
  }

  lemma DashText()
    ensures TextLe("/a", "/a-b") && TextLe("/a-b", "/a/c")
  {
    assert "/a-b"[1..] == "a-b" && "a-b"[1..] == "-b" && "-b"[1..] == "b";
    assert "/a/c"[1..] == "a/c" && "a/c"[1..] == "/c";
    assert "/a"[1..] == "a" && "a"[1..] == "";
    assert TextLe("", "-b") && TextLe("-b", "/c");
    assert TextLe("a", "a-b") && TextLe("a-b", "a/c");
  }
}
