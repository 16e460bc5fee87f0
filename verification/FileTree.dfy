/** A disk as a finite map from paths to nodes, and what counts as its state. */
module FileTree {
  import opened Text
  import opened Paths

  /** `mode` is the whole of `st_mode`: the upper digits give the kind of the file. */
  datatype Node = Node(
    mode: nat, uid: nat, gid: nat, content: string, dirSize: nat, lcount: nat,
    attr: nat, bcount: nat, mtime: int, ctime: int, inode: nat)

  const KIND_UNIT := 0x1000

  predicate IsFile(n: Node) {
    n.mode / KIND_UNIT == 8
  }

  predicate IsDir(n: Node) {
    n.mode / KIND_UNIT == 4
  }

  function Size(n: Node): nat {
    if IsFile(n) then |n.content| else n.dirSize
  }

  /** `chmod` changes the permission bits and leaves the kind. */
  function Chmod(n: Node, mode: nat): Node {
    n.(mode := n.mode / KIND_UNIT * KIND_UNIT + mode % KIND_UNIT)
  }

  /** The state the tool promises to carry over: kind and permissions, owner, group, and a file's content. */
  predicate SameState(a: Node, b: Node) {
    a.mode == b.mode && a.uid == b.uid && a.gid == b.gid && (IsFile(a) ==> a.content == b.content)
  }

  type Disk = map<Path, Node>

  /** Regular files and directories only, and every ancestor of a path is a directory. */
  ghost predicate ValidDisk(d: Disk) {
    && (forall p :: p in d ==> IsPath(p) && (IsFile(d[p]) || IsDir(d[p])))
    && (forall a, p :: p in d && IsPath(a) && IsUnder(a, p) && a != p ==> a in d && IsDir(d[a]))
  }

  /** Two disks agree on the tracked paths. */
  ghost predicate SameTracked(tracked: iset<Path>, a: Disk, b: Disk) {
    forall p :: p in tracked ==> (p in a <==> p in b) && (p in a ==> SameState(a[p], b[p]))
  }

  function TrackedPart(tracked: iset<Path>, d: Disk): Disk {
    map p | p in d && p in tracked :: d[p]
  }

  /******* parents *******/

  /** Position of the last slash. */
  function LastSlash(p: Path): (i: int)
    ensures -1 <= i < |p|
    ensures i >= 0 ==> p[i] == '/'
    ensures forall k :: i < k < |p| ==> p[k] != '/'
  {
    if p == "" then -1
    else if p[|p| - 1] == '/' then |p| - 1
    else LastSlash(p[..|p| - 1])
  }

  /** `os.path.dirname` */
  function Parent(p: Path): Path {
    var i := LastSlash(p);
    if i <= 0 then "/" else p[..i]
  }

  /** `os.path.basename` */
  function BaseName(p: Path): string {
    p[LastSlash(p) + 1..]
  }

  lemma ParentIsAbove(p: Path)
    requires IsPath(p) && p != "/"
    ensures IsPath(Parent(p)) && IsUnder(Parent(p), p) && Parent(p) != p
  {
    var cs :| IsPathOf(p, cs);
    JoinNonEmpty(cs);
    var n := |cs| - 1;
    var i := LastSlash(p);
    assert p[0] == '/';
    LastNameStart(p, cs);
    if n == 0 {
      assert i == 0;
    } else {
      var init := cs[..n];
      assert cs == init + [cs[n]];
      JoinConcat(init, [cs[n]], '/');
      assert p == "/" + Join(init, '/') + ['/'] + cs[n];
      assert p[..i] == "/" + Join(init, '/');
      assert IsPathOf(Parent(p), init);
    }
  }

  lemma LastNameStart(p: Path, cs: seq<string>)
    requires IsPathOf(p, cs)
    ensures LastSlash(p) == |p| - |cs[|cs| - 1]| - 1
  {
    hide Join;
    var n := |cs| - 1;
    var last := cs[n];
    assert last in cs;
    JoinAtom(last, '/');
    if n == 0 {
      assert cs == [last];
    } else {
      assert cs == cs[..n] + [last];
      JoinConcat(cs[..n], [last], '/');
    }
    var i := |p| - |last| - 1;
    assert p[i + 1..] == last;
    assert p[i] == '/';
    assert forall k :: i < k < |p| ==> p[k] == last[k - i - 1];
  }

  /** A path cut before one of its slashes is the path of an ancestor. */
  lemma CutIsAbove(p: Path, i: nat)
    requires IsPath(p) && 0 < i < |p| && p[i] == '/'
    ensures IsPath(p[..i]) && IsUnder(p[..i], p) && p[..i] != p
  {
    var cs :| IsPathOf(p, cs);
    var t, rest := p[1..i], p[i + 1..];
    assert p == "/" + (t + ['/'] + rest);
    assert p[1..] == t + ['/'] + rest;
    JoinSplit(t, '/');
    JoinSplit(rest, '/');
    JoinConcat(Split(t, '/'), Split(rest, '/'), '/');
    NamesHaveNoSlash(cs);
    JoinInjective(cs, Split(t, '/') + Split(rest, '/'), '/');
    forall c | c in Split(t, '/') ensures IsName(c) {
      assert c in cs;
    }
    assert p[..i] == "/" + t;
    assert IsPathOf(p[..i], Split(t, '/'));
    assert p[..i] + "/" == p[..i + 1];
  }

  /** On the way down from an ancestor there is one path directly below it. */
  lemma NextBelow(a: Path, p: Path) returns (c: Path)
    requires IsPath(a) && IsPath(p) && IsUnder(a, p) && a != p
    ensures IsPath(c) && c != "/" && Parent(c) == a && IsUnder(c, p)
  {
    hide IsName, Parent, LastSlash;
    PathStartsWithSlash(a);
    assert p != "/" by {
      if a != "/" { assert |AsPrefix(a)| > 1; }
    }
    var ps :| IsPathOf(p, ps);
    if a == "/" {
      c := NameBelow([], ps);
    } else {
      var cs :| IsPathOf(a, cs);
      UnderThenComponents(a, cs, p, ps);
      assert cs != ps;
      c := NameBelow(cs, ps);
      JoinConcat(cs, [ps[|cs|]], '/');
      assert ps[..|cs| + 1] == cs + [ps[|cs|]];
    }
  }

  lemma NameBelow(cs: seq<string>, ps: seq<string>) returns (c: Path)
    requires cs < ps && forall x :: x in ps ==> IsName(x)
    ensures c == "/" + Join(ps[..|cs| + 1], '/') && IsPath(c) && c != "/" && IsUnder(c, "/" + Join(ps, '/'))
    ensures Parent(c) == if cs == [] then "/" else "/" + Join(cs, '/')
  {
    var own := ps[..|cs| + 1];
    var name := ps[|cs|];
    c := "/" + Join(own, '/');
    assert name in ps && forall x :: x in own ==> x in ps;
    assert IsPathOf(c, own);
    JoinNonEmpty(own);
    LastNameStart(c, own);
    assert own[|own| - 1] == name;
    if cs == [] {
      assert own == [name];
    } else {
      assert own == cs + [name];
      JoinNonEmpty(cs);
      JoinConcat(cs, [name], '/');
      assert c == "/" + Join(cs, '/') + ['/'] + name;
      assert c[..LastSlash(c)] == "/" + Join(cs, '/');
    }
    if own != ps {
      ComponentsThenUnder(c, own, "/" + Join(ps, '/'), ps);
    }
  }
}
