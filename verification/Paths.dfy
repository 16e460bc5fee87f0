/** Absolute POSIX paths as text, `os.path.commonpath`, and the order in which `list.sort` puts them. */
module Paths {
  import opened Text

  type Path = string

  /** The components `posixpath.commonpath` looks at: empty ones and "." are dropped. */
  function Components(p: Path): (cs: seq<string>) {
    Kept(Split(p, '/'))
  }

  function Kept(cs: seq<string>): seq<string> {
    if cs == [] then []
    else if cs[0] == "" || cs[0] == "." then Kept(cs[1..])
    else [cs[0]] + Kept(cs[1..])
  }

  function CommonPrefix(xs: seq<string>, ys: seq<string>): seq<string> {
    if xs != [] && ys != [] && xs[0] == ys[0] then [xs[0]] + CommonPrefix(xs[1..], ys[1..]) else []
  }

  /** `os.path.commonpath([p, q])` for two absolute paths. */
  function CommonPath(p: Path, q: Path): Path {
    "/" + Join(CommonPrefix(Components(p), Components(q)), '/')
  }

  /** A component that survives normalisation. */
  predicate IsName(c: string) {
    c != "" && c != "." && '/' !in c
  }

  /** An absolute, normalised path: the only paths AIDE reports. */
  ghost predicate IsPath(p: Path) {
    p == "/" || exists cs :: IsPathOf(p, cs)
  }

  ghost predicate IsPathOf(p: Path, cs: seq<string>) {
    cs != [] && (forall c :: c in cs ==> IsName(c)) && p == "/" + Join(cs, '/')
  }

  /** The path as the start of the names below it. */
  function AsPrefix(a: Path): Path {
    if a == "/" then a else a + "/"
  }

  /** `a` is `p` itself or one of its ancestors. */
  predicate IsUnder(a: Path, p: Path) {
    p == a || AsPrefix(a) <= p
  }

  /** The test of the pruning loops, `commonpath([p, c]) == c`, decides exactly "c is p or an ancestor of p". */
  lemma CommonPathTest(p: Path, c: Path)
    requires IsPath(p) && IsPath(c)
    ensures CommonPath(p, c) == c <==> IsUnder(c, p)
  {
    if c == "/" {
      ComponentsOfRoot();
      assert Components(c) == [];
      PathStartsWithSlash(p);
    } else {
      var cs :| IsPathOf(c, cs);
      ComponentsOf(c, cs);
      if p == "/" {
        ComponentsOfRoot();
        assert |c| > 1 by { JoinNonEmpty(cs); }
      } else {
        var ps :| IsPathOf(p, ps);
        ComponentsOf(p, ps);
        CommonPrefixLemma(ps, cs);
        JoinNonEmpty(cs);
        if CommonPrefix(ps, cs) == [] {
          assert CommonPath(p, c) == "/";
          assert !(cs <= ps);
        } else {
          forall x | x in CommonPrefix(ps, cs) ensures '/' !in x { assert x in cs; }
          JoinInjective(CommonPrefix(ps, cs), cs, '/');
          assert CommonPath(p, c) == c ==> Join(CommonPrefix(ps, cs), '/') == Join(cs, '/') by {
            assert CommonPath(p, c)[1..] == Join(CommonPrefix(ps, cs), '/');
            assert c[1..] == Join(cs, '/');
          }
        }
        UnderByComponents(c, cs, p, ps);
      }
    }
  }

  lemma ComponentsOfRoot()
    ensures Components("/") == []
  {
    assert "/" == [] + ['/'] + [];
    SplitCons("", "", '/');
    assert Split("/", '/') == ["", ""];
    assert Kept(["", ""][1..]) == Kept([""]) == Kept([""][1..]) == [];
  }

  lemma PathStartsWithSlash(p: Path)
    requires IsPath(p)
    ensures p != "" && p[0] == '/' && "/" <= p
  {
  }

  lemma {:induction false} KeptNames(cs: seq<string>)
    requires forall c :: c in cs ==> IsName(c)
    ensures Kept(cs) == cs
  {
    if cs != [] {
      assert cs[0] in cs;
      KeptNames(cs[1..]);
    }
  }

  lemma ComponentsOf(p: Path, cs: seq<string>)
    requires IsPathOf(p, cs)
    ensures Components(p) == cs
  {
    SplitCons("", Join(cs, '/'), '/');
    assert p == "" + ['/'] + Join(cs, '/');
    SplitJoin(cs, '/');
    assert Split(p, '/') == [""] + cs;
    assert ([""] + cs)[1..] == cs;
    KeptNames(cs);
  }

  lemma {:induction false} JoinNonEmpty(cs: seq<string>)
    requires cs != [] && forall c :: c in cs ==> IsName(c)
    ensures Join(cs, '/') != "" && Join(cs, '/')[0] != '/' && Join(cs, '/')[|Join(cs, '/')| - 1] != '/'
  {
    assert cs[0] in cs;
    if |cs| > 1 {
      JoinNonEmpty(cs[1..]);
    }
  }

  lemma {:induction false} CommonPrefixLemma(xs: seq<string>, ys: seq<string>)
    ensures CommonPrefix(xs, ys) <= xs && CommonPrefix(xs, ys) <= ys
    ensures CommonPrefix(xs, ys) == ys <==> ys <= xs
  {
    if xs != [] && ys != [] && xs[0] == ys[0] {
      CommonPrefixLemma(xs[1..], ys[1..]);
      assert xs == [xs[0]] + xs[1..] && ys == [ys[0]] + ys[1..];
    }
  }

  lemma UnderByComponents(c: Path, cs: seq<string>, p: Path, ps: seq<string>)
    requires IsPathOf(c, cs) && IsPathOf(p, ps)
    ensures IsUnder(c, p) <==> cs <= ps
  {
    JoinNonEmpty(cs);
    if cs == ps {
    } else if cs <= ps {
      ComponentsThenUnder(c, cs, p, ps);
    } else if IsUnder(c, p) {
      UnderThenComponents(c, cs, p, ps);
    }
  }

  lemma ComponentsThenUnder(c: Path, cs: seq<string>, p: Path, ps: seq<string>)
    requires IsPathOf(c, cs) && IsPathOf(p, ps) && cs < ps
    ensures IsUnder(c, p)
  {
    JoinNonEmpty(cs);
    var rest := ps[|cs|..];
    assert ps == cs + rest;
    JoinConcat(cs, rest, '/');
    assert p == c + "/" + Join(rest, '/');
  }

  lemma UnderThenComponents(c: Path, cs: seq<string>, p: Path, ps: seq<string>)
    requires IsPathOf(c, cs) && IsPathOf(p, ps) && IsUnder(c, p)
    ensures cs <= ps
  {
    hide Join, IsName;
    JoinNonEmpty(cs);
    assert p[1..] == Join(ps, '/') && c[1..] == Join(cs, '/');
    if p == c {
      SameComponents(cs, ps);
    } else {
      var t := p[|c| + 1..];
      assert p == c + ['/'] + t;
      assert Join(ps, '/') == p[1..] == c[1..] + ['/'] + t;
      FirstComponents(cs, ps, t);
    }
  }

  lemma SameComponents(cs: seq<string>, ps: seq<string>)
    requires cs != [] && ps != [] && Join(ps, '/') == Join(cs, '/')
    requires (forall c :: c in cs ==> IsName(c)) && (forall c :: c in ps ==> IsName(c))
    ensures cs == ps
  {
    hide Join, IsName;
    NamesHaveNoSlash(ps);
    NamesHaveNoSlash(cs);
    JoinInjective(ps, cs, '/');
  }

  lemma FirstComponents(cs: seq<string>, ps: seq<string>, t: string)
    requires cs != [] && ps != [] && Join(ps, '/') == Join(cs, '/') + ['/'] + t
    requires (forall c :: c in cs ==> IsName(c)) && (forall c :: c in ps ==> IsName(c))
    ensures cs <= ps
  {
    hide Join, Split, IsName;
    JoinSplit(t, '/');
    JoinConcat(cs, Split(t, '/'), '/');
    NamesHaveNoSlash(ps);
    NamesHaveNoSlash(cs);
    JoinInjective(ps, cs + Split(t, '/'), '/');
  }

  lemma NamesHaveNoSlash(cs: seq<string>)
    requires forall c :: c in cs ==> IsName(c)
    ensures forall c :: c in cs ==> '/' !in c
  {
  }

  /******* the ancestor relation *******/

  lemma UnderReflexive(p: Path)
    ensures IsUnder(p, p)
  {
  }

  lemma UnderTransitive(a: Path, b: Path, c: Path)
    requires IsPath(a) && IsUnder(a, b) && IsUnder(b, c)
    ensures IsUnder(a, c)
  {
    PathStartsWithSlash(a);
  }

  /** Ancestors of one path are comparable. */
  lemma UnderComparable(a: Path, b: Path, p: Path)
    requires IsPath(a) && IsPath(b) && IsUnder(a, p) && IsUnder(b, p)
    ensures IsUnder(a, b) || IsUnder(b, a)
  {
    PathStartsWithSlash(a);
    PathStartsWithSlash(b);
    if p != a && p != b && a != "/" && b != "/" {
      if |a| < |b| {
        assert b[..|a| + 1] == p[..|a| + 1] == a + "/";
      } else if |b| < |a| {
        assert a[..|b| + 1] == p[..|b| + 1] == b + "/";
      } else {
        assert a == p[..|a|] == b;
      }
    }
  }

  /******* the order of `list.sort` on text *******/

  predicate TextLe(a: string, b: string) {
    a == "" || (b != "" && (a[0] < b[0] || (a[0] == b[0] && TextLe(a[1..], b[1..]))))
  }

  lemma {:induction false} TextLeTotal(a: string, b: string)
    ensures TextLe(a, b) || TextLe(b, a)
    ensures TextLe(a, b) && TextLe(b, a) <==> a == b
  {
    if a != "" && b != "" {
      TextLeTotal(a[1..], b[1..]);
      assert a[0] == b[0] && a[1..] == b[1..] ==> a == [a[0]] + a[1..] == b;
    }
  }

  lemma {:induction false} TextLeTransitive(a: string, b: string, c: string)
    requires TextLe(a, b) && TextLe(b, c)
    ensures TextLe(a, c)
  {
    if a != "" && a[0] == b[0] == c[0] {
      TextLeTransitive(a[1..], b[1..], c[1..]);
    }
  }

  lemma {:induction false} PrefixLe(a: string, b: string)
    requires a <= b
    ensures TextLe(a, b)
  {
    if a != "" {
      PrefixLe(a[1..], b[1..]);
    }
  }

  /** An ancestor sorts before everything below it. */
  lemma UnderLe(a: Path, p: Path)
    requires IsUnder(a, p)
    ensures TextLe(a, p)
  {
    PrefixLe(a, p);
  }

  /** Whatever sorts between a text and an extension of it extends it too, by a character no greater. */
  lemma {:induction false} BetweenExtends(a: string, m: string, b: string)
    requires a < b && TextLe(a, m) && TextLe(m, b)
    ensures a <= m
    ensures m != a ==> m[|a|] <= b[|a|]
  {
    if a != "" {
      BetweenExtends(a[1..], m[1..], b[1..]);
      assert m == [m[0]] + m[1..];
    }
  }
}
