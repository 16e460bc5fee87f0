/** Configuration templates: placeholders replaced by values that are computed while the file is read. */
module TemplateFile {
  import opened Text

  /** The variables, in the order they are replaced in. */
  const VARS := ["HOSTNAME", "USERNAME", "USER_ID", "HOME", "UNIX_TIME"]

  function Placeholder(name: string): string {
    "<MYSCM:" + name + "/>"
  }

  /******* str.replace *******/

  predicate StartsWith(s: string, p: string) {
    |p| <= |s| && s[..|p|] == p
  }

  predicate Contains(s: string, p: string) {
    exists i :: 0 <= i <= |s| && StartsWith(s[i..], p)
  }

  /** Every occurrence, from left to right; what was put in is not looked at again. */
  function Replace(s: string, p: string, v: string): string
    requires p != ""
    decreases |s|
  {
    if s == "" then ""
    else if StartsWith(s, p) then v + Replace(s[|p|..], p, v)
    else [s[0]] + Replace(s[1..], p, v)
  }

  lemma {:induction false} ReplaceNothing(s: string, p: string, v: string)
    requires p != "" && !Contains(s, p)
    ensures Replace(s, p, v) == s
    decreases |s|
  {
    if s != "" {
      assert s[0..] == s;
      forall i | 0 <= i <= |s| - 1 ensures !StartsWith(s[1..][i..], p) {
        assert s[1..][i..] == s[i + 1..];
      }
      ReplaceNothing(s[1..], p, v);
    }
  }

  /** An occurrence that no other one comes before or reaches into is replaced, and so is what follows, apart from it.
      With `ReplaceNothing` this says what becomes of every text. */
  lemma {:induction false} ReplaceFirst(a: string, b: string, p: string, v: string)
    requires p != "" && !Contains(a + p[..|p| - 1], p)
    ensures Replace(a + p + b, p, v) == a + v + Replace(b, p, v)
    decreases |a|
  {
    var s, start := a + p + b, a + p[..|p| - 1];
    if a == "" {
      assert s[..|p|] == p && s[|p|..] == b;
    } else {
      var rest := a[1..] + p[..|p| - 1];
      assert start[0..] == start && start[..|p|] == s[..|p|];
      forall i | 0 <= i <= |rest| ensures !StartsWith(rest[i..], p) {
        assert rest[i..] == start[i + 1..];
      }
      assert s[1..] == a[1..] + p + b;
      ReplaceFirst(a[1..], b, p, v);
    }
  }

  /** A text that ends a line, or nothing at all. */
  predicate LineEnded(s: string) {
    s != "" ==> s[|s| - 1] == '\n'
  }

  /** No occurrence reaches over a line end, so what is before it and after it can be replaced apart. */
  lemma {:induction false} ReplaceConcat(a: string, b: string, p: string, v: string)
    requires p != "" && '\n' !in p && LineEnded(a)
    ensures Replace(a + b, p, v) == Replace(a, p, v) + Replace(b, p, v)
    ensures LineEnded(Replace(a, p, v))
    decreases |a|
  {
    if a == "" {
      assert a + b == b;
    } else {
      StartsWithin(a, b, p);
      if StartsWith(a, p) {
        assert (a + b)[|p|..] == a[|p|..] + b;
        NotUpToEnd(a, p);
        ReplaceConcat(a[|p|..], b, p, v);
        ReplaceNotEmpty(a[|p|..], p, v);
      } else {
        assert (a + b)[1..] == a[1..] + b;
        ReplaceConcat(a[1..], b, p, v);
        if |a| > 1 {
          ReplaceNotEmpty(a[1..], p, v);
        }
      }
    }
  }

  lemma StartsWithChars(s: string, p: string)
    requires StartsWith(s, p)
    ensures forall i :: 0 <= i < |p| ==> p[i] == s[i]
  {
  }

  lemma StartsWithin(a: string, b: string, p: string)
    requires p != "" && '\n' !in p && LineEnded(a) && a != ""
    ensures StartsWith(a + b, p) <==> StartsWith(a, p)
  {
    assert (a + b)[|a| - 1] == '\n';
    if |p| <= |a| {
      assert (a + b)[..|p|] == a[..|p|];
    } else if StartsWith(a + b, p) {
      StartsWithChars(a + b, p);
    }
  }

  lemma NotUpToEnd(a: string, p: string)
    requires '\n' !in p && LineEnded(a) && a != "" && StartsWith(a, p)
    ensures |p| < |a| && LineEnded(a[|p|..])
  {
    StartsWithChars(a, p);
  }

  /** The line end at the end of the text stays. */
  lemma {:induction false} ReplaceNotEmpty(a: string, p: string, v: string)
    requires p != "" && '\n' !in p && LineEnded(a) && a != ""
    ensures Replace(a, p, v) != ""
    decreases |a|
  {
    if StartsWith(a, p) {
      NotUpToEnd(a, p);
      ReplaceNotEmpty(a[|p|..], p, v);
    }
  }

  /******* all variables *******/

  /** The variables replaced in a whole text, one after the other, each by one value. */
  function Whole(text: string, names: seq<string>, value: string -> string): string {
    if names == [] then text
    else
      var n := |names| - 1;
      Replace(Whole(text, names[..n], value), Placeholder(names[n]), value(names[n]))
  }

  lemma PlaceholderOnOneLine(name: string)
    requires name in VARS
    ensures '\n' !in Placeholder(name)
  {
  }

  lemma {:induction false} WholeConcat(a: string, b: string, names: seq<string>, value: string -> string)
    requires LineEnded(a) && forall n :: n in names ==> n in VARS
    ensures Whole(a + b, names, value) == Whole(a, names, value) + Whole(b, names, value)
    ensures LineEnded(Whole(a, names, value))
  {
    hide Placeholder, Replace, LineEnded;
    if names != [] {
      var n := |names| - 1;
      WholeConcat(a, b, names[..n], value);
      PlaceholderOnOneLine(names[n]);
      PlaceholderNotEmpty(names[n]);
      ReplaceConcat(Whole(a, names[..n], value), Whole(b, names[..n], value), Placeholder(names[n]), value(names[n]));
    }
  }

  /******* templates as they are meant *******/

  /** A stretch of text, or a placeholder. */
  datatype Piece = Plain(text: string) | Var(name: string)

  /** The text does not open a placeholder, at its end either. */
  predicate NoOpening(s: string) {
    forall i :: 0 <= i < |s| && s[i] == '<' ==> i + 1 < |s| && s[i + 1] != 'M'
  }

  predicate WellFormed(piece: Piece) {
    match piece
    case Plain(text) => NoOpening(text)
    case Var(name) => '<' !in name && '/' !in name
  }

  function Printed(piece: Piece): string {
    match piece
    case Plain(text) => text
    case Var(name) => Placeholder(name)
  }

  /** The template of the pieces. */
  function Source(pieces: seq<Piece>): string {
    if pieces == [] then "" else Printed(pieces[0]) + Source(pieces[1..])
  }

  /** A variable in the list has its value, any other placeholder stays. */
  function Filled(pieces: seq<Piece>, names: seq<string>, value: string -> string): string {
    if pieces == [] then ""
    else
      (match pieces[0]
       case Plain(text) => text
       case Var(name) => if name in names then value(name) else Placeholder(name))
      + Filled(pieces[1..], names, value)
  }

  /** Text that does not open a placeholder is kept. */
  lemma {:induction false} ReplaceBehind(s: string, t: string, p: string, v: string)
    requires |p| > 1 && p[0] == '<' && p[1] == 'M' && NoOpening(s)
    ensures Replace(s + t, p, v) == s + Replace(t, p, v)
    decreases |s|
  {
    if s == "" {
      assert s + t == t;
    } else {
      assert (s + t)[1..] == s[1..] + t;
      if StartsWith(s + t, p) {
        StartsWithChars(s + t, p);
      }
      ReplaceBehind(s[1..], t, p, v);
    }
  }

  /** A placeholder is replaced if it is the one looked for, and kept if not. */
  lemma ReplacePlaceholder(name: string, t: string, wanted: string, v: string)
    requires '<' !in name && '/' !in name && '/' !in wanted
    ensures Placeholder(wanted) != ""
    ensures Replace(Placeholder(name) + t, Placeholder(wanted), v) ==
              (if name == wanted then v else Placeholder(name)) + Replace(t, Placeholder(wanted), v)
  {
    var p, q := Placeholder(wanted), Placeholder(name);
    var s := q + t;
    PlaceholderParts(wanted);
    PlaceholderParts(name);
    if name == wanted {
      assert s[..|p|] == p && s[|p|..] == t;
    } else {
      if StartsWith(s, p) {
        SamePlaceholder(name, wanted, t);
      }
      assert s[1..] == q[1..] + t && s[0] == q[0];
      ReplaceBehind(q[1..], t, p, v);
    }
  }

  lemma PlaceholderParts(name: string)
    ensures |Placeholder(name)| == |name| + 9 && Placeholder(name)[0] == '<' && Placeholder(name)[1] == 'M'
    ensures forall i :: 7 <= i < 7 + |name| ==> Placeholder(name)[i] == name[i - 7]
    ensures Placeholder(name)[7 + |name|] == '/'
    ensures '<' !in name ==> NoOpening(Placeholder(name)[1..])
  {
    var p := Placeholder(name);
    assert p == "<MYSCM:" + name + "/>" && |"<MYSCM:"| == 7;
  }

  /** A placeholder starts with no other one. */
  lemma SamePlaceholder(name: string, wanted: string, t: string)
    requires '/' !in name && '/' !in wanted && StartsWith(Placeholder(name) + t, Placeholder(wanted))
    ensures name == wanted
  {
    var p, q, s := Placeholder(wanted), Placeholder(name), Placeholder(name) + t;
    PlaceholderParts(wanted);
    PlaceholderParts(name);
    StartsWithChars(s, p);
    UpToSlash(s, name, wanted);
  }

  /** Two names without a slash, each followed by one at the same place of a text. */
  lemma UpToSlash(s: string, a: string, b: string)
    requires '/' !in a && '/' !in b && |s| > 7 + |a| && |s| > 7 + |b|
    requires (forall i :: 7 <= i < 7 + |a| ==> s[i] == a[i - 7]) && s[7 + |a|] == '/'
    requires (forall i :: 7 <= i < 7 + |b| ==> s[i] == b[i - 7]) && s[7 + |b|] == '/'
    ensures a == b
  {
    NotShorter(s, a, b);
    NotShorter(s, b, a);
    assert a == s[7..7 + |a|] && b == s[7..7 + |b|];
  }

  lemma NotShorter(s: string, a: string, b: string)
    requires '/' !in b && |s| > 7 + |a| && |s| > 7 + |b| && s[7 + |a|] == '/'
    requires forall i :: 7 <= i < 7 + |b| ==> s[i] == b[i - 7]
    ensures |b| <= |a|
  {
    SlashIn(s, b, |a|);
  }

  lemma SlashIn(s: string, b: string, k: nat)
    requires |s| > 7 + |b| && |s| > 7 + k && s[7 + k] == '/'
    requires forall i :: 7 <= i < 7 + |b| ==> s[i] == b[i - 7]
    ensures k < |b| ==> '/' in b
  {
    if k < |b| {
      var i := 7 + k;
      assert s[i] == b[i - 7];
    }
  }

  lemma {:induction false} ReplacePieces(pieces: seq<Piece>, names: seq<string>, wanted: string,
                                         value: string -> string)
    requires (forall x :: x in pieces ==> WellFormed(x)) && '/' !in wanted
    requires forall n :: n in names ==> NoOpening(value(n))
    ensures Placeholder(wanted) != ""
    ensures Replace(Filled(pieces, names, value), Placeholder(wanted), value(wanted)) ==
              Filled(pieces, names + [wanted], value)
  {
    hide Placeholder, Replace, NoOpening;
    PlaceholderNotEmpty(wanted);
    if pieces == [] {
      ReplaceEmpty(Placeholder(wanted), value(wanted));
    } else {
      assert pieces[0] in pieces;
      ReplacePieces(pieces[1..], names, wanted, value);
      var rest := Filled(pieces[1..], names, value);
      PlaceholderParts(wanted);
      assert forall n :: n in names + [wanted] <==> n in names || n == wanted;
      match pieces[0] {
        case Plain(text) => ReplaceBehind(text, rest, Placeholder(wanted), value(wanted));
        case Var(name) =>
          if name in names {
            ReplaceBehind(value(name), rest, Placeholder(wanted), value(wanted));
          } else {
            ReplacePlaceholder(name, rest, wanted, value(wanted));
          }
      }
    }
  }

  lemma ReplaceEmpty(p: string, v: string)
    requires p != ""
    ensures Replace("", p, v) == ""
  {
  }

  lemma {:induction false} SourceIsFilled(pieces: seq<Piece>, value: string -> string)
    ensures Filled(pieces, [], value) == Source(pieces)
  {
    if pieces != [] {
      SourceIsFilled(pieces[1..], value);
    }
  }

  lemma {:induction false} WholeFills(pieces: seq<Piece>, names: seq<string>, value: string -> string)
    requires forall x :: x in pieces ==> WellFormed(x)
    requires forall n :: n in names ==> '/' !in n && NoOpening(value(n))
    ensures Whole(Source(pieces), names, value) == Filled(pieces, names, value)
  {
    hide Placeholder, Replace, NoOpening, Filled, Source, WellFormed;
    if names == [] {
      SourceIsFilled(pieces, value);
    } else {
      var n := |names| - 1;
      WholeFills(pieces, names[..n], value);
      ReplacePieces(pieces, names[..n], names[n], value);
      assert names[..n] + [names[n]] == names;
    }
  }

  /** The template of any pieces, with values that do not open a placeholder: each known variable has its value in its
      place, and all else is as it was. */
  lemma TemplateFills(pieces: seq<Piece>, value: string -> string)
    requires forall x :: x in pieces ==> WellFormed(x)
    requires forall n :: n in VARS ==> NoOpening(value(n))
    ensures Whole(Source(pieces), VARS, value) == Filled(pieces, VARS, value)
  {
    hide NoOpening, WellFormed;
    forall n | n in VARS ensures '/' !in n {
      NoSlash(n);
    }
    WholeFills(pieces, VARS, value);
  }

  lemma NoSlash(n: string)
    requires n in VARS
    ensures '/' !in n && '<' !in n
  {
  }

  /** Values are looked at again: one that is itself a placeholder of a later variable is replaced in turn. */
  lemma ValueIsReplacedToo(value: string -> string)
    requires value("HOSTNAME") == Placeholder("HOME") && '<' !in value("HOME")
    ensures Whole(Placeholder("HOSTNAME"), VARS, value) == value("HOME")
  {
    hide Placeholder, Replace;
    var t := Placeholder("HOSTNAME");
    OneMoreName(t, value, 0, t);
    OneMoreName(t, value, 1, Placeholder("HOME"));
    OneMoreName(t, value, 2, Placeholder("HOME"));
    OneMoreName(t, value, 3, Placeholder("HOME"));
    LaterNames("HOSTNAME", "HOSTNAME", value("HOSTNAME"));
    LaterNames("HOME", "USERNAME", value("USERNAME"));
    LaterNames("HOME", "USER_ID", value("USER_ID"));
    LaterNames("HOME", "HOME", value("HOME"));
    OneMoreName(t, value, 4, value("HOME"));
    PlaceholderParts("UNIX_TIME");
    ReplaceBehind(value("HOME"), "", Placeholder("UNIX_TIME"), value("UNIX_TIME"));
    ReplaceEmpty(Placeholder("UNIX_TIME"), value("UNIX_TIME"));
    assert value("HOME") + "" == value("HOME") && VARS[..5] == VARS;
  }

  /** The stage of one variable. */
  lemma OneMoreName(text: string, value: string -> string, k: nat, before: string)
    requires k < |VARS|
    ensures Placeholder(VARS[k]) != "" && Whole(text, VARS[..0], value) == text
    ensures Whole(text, VARS[..k], value) == before ==>
              Whole(text, VARS[..k + 1], value) == Replace(before, Placeholder(VARS[k]), value(VARS[k]))
  {
    hide Placeholder, Replace;
    PlaceholderNotEmpty(VARS[k]);
    assert VARS[..k + 1][..k] == VARS[..k];
  }

  lemma LaterNames(name: string, wanted: string, v: string)
    requires name in VARS && wanted in VARS
    ensures Placeholder(wanted) != ""
    ensures Replace(Placeholder(name), Placeholder(wanted), v) == if name == wanted then v else Placeholder(name)
  {
    hide Placeholder, Replace;
    NoSlash(name);
    NoSlash(wanted);
    ReplacePlaceholder(name, "", wanted, v);
    ReplaceEmpty(Placeholder(wanted), v);
    assert Placeholder(name) + "" == Placeholder(name) && v + "" == v;
  }

  /******* reading by lines *******/

  /** The value each variable keeps: what its function returned the first time. */
  function First(calls: (string, nat) -> string): string -> string {
    name => calls(name, 0)
  }

  /** `calls(name, k)` is what the k-th call of the function of a variable returns. */
  class Substitution {
    const calls: (string, nat) -> string
    var called: map<string, nat>
    var computed: map<string, string>

    ghost predicate Valid() reads this {
      && called.Keys == (set n | n in VARS)
      && forall n :: n in VARS ==> if n in computed then computed[n] == calls(n, 0) else called[n] == 0
    }

    constructor (calls: (string, nat) -> string)
      ensures Valid() && this.calls == calls
    {
      this.calls := calls;
      called := map n | n in VARS :: 0;
      computed := map[];
    }

    method Call(name: string) returns (v: string)
      requires name in called
      modifies this`called
      ensures v == calls(name, old(called)[name])
      ensures called == old(called)[name := old(called)[name] + 1]
    {
      v := calls(name, called[name]);
      called := called[name := called[name] + 1];
    }

    /** The function of the variable is called for every line that has its placeholder; the first value counts. */
    method ReplaceInLine(line: string) returns (r: string)
      requires Valid()
      modifies this
      ensures Valid() && r == Whole(line, VARS, First(calls))
    {
      hide Valid, Placeholder, Replace;
      r := line;
      for i := 0 to |VARS|
        invariant Valid() && r == Whole(line, VARS[..i], First(calls))
      {
        assert VARS[..i + 1][..i] == VARS[..i];
        PlaceholderNotEmpty(VARS[i]);
        r := ReplaceVariable(r, VARS[i]);
      }
      assert VARS[..|VARS|] == VARS;
    }

    method ReplaceVariable(line: string, name: string) returns (r: string)
      requires Valid() && name in VARS && Placeholder(name) != ""
      modifies this
      ensures Valid() && r == Replace(line, Placeholder(name), First(calls)(name))
      ensures if Contains(line, Placeholder(name)) then called == old(called)[name := old(called)[name] + 1]
              else unchanged(this)
    {
      hide Placeholder, Replace, Contains;
      if Contains(line, Placeholder(name)) {
        var returned := Call(name);
        var value := if name in computed then computed[name] else returned;
        computed := computed[name := value];
        r := Replace(line, Placeholder(name), value);
      } else {
        r := line;
        ReplaceNothing(line, Placeholder(name), First(calls)(name));
      }
    }

    /** Line by line it is as if each placeholder was replaced in the whole template at once, by one value. */
    method ReplacePlaceholdersWithValues(text: string) returns (out: string)
      requires Valid()
      modifies this
      ensures Valid() && out == Whole(text, VARS, First(calls))
      ensures forall pieces :: (
                && text == Source(pieces) && (forall x :: x in pieces ==> WellFormed(x))
                && (forall n :: n in VARS ==> NoOpening(First(calls)(n)))) ==>
                out == Filled(pieces, VARS, First(calls))
    {
      hide Whole, Valid, Source, Filled, WellFormed, NoOpening, First;
      out := "";
      var at := 0;
      EmptyWhole(VARS, First(calls));
      while at < |text|
        invariant Valid() && at <= |text| && (LineEnded(text[..at]) || at == |text|)
        invariant out == Whole(text[..at], VARS, First(calls))
        decreases |text| - at
      {
        var end := at + LineEnd(text[at..]);
        var next := if end < |text| then end + 1 else end;
        var line := text[at..next];
        var replaced := ReplaceInLine(line);
        assert text[..at] + line == text[..next];
        WholeConcat(text[..at], line, VARS, First(calls));
        out := out + replaced;
        at := next;
      }
      assert text[..|text|] == text;
      forall pieces | && text == Source(pieces) && (forall x :: x in pieces ==> WellFormed(x))
                      && (forall n :: n in VARS ==> NoOpening(First(calls)(n)))
        ensures out == Filled(pieces, VARS, First(calls))
      {
        TemplateFills(pieces, First(calls));
      }
    }
  }

  lemma PlaceholderNotEmpty(name: string)
    ensures Placeholder(name) != ""
  {
  }

  lemma {:induction false} EmptyWhole(names: seq<string>, value: string -> string)
    ensures Whole("", names, value) == ""
  {
    if names != [] {
      PlaceholderNotEmpty(names[|names| - 1]);
      EmptyWhole(names[..|names| - 1], value);
    }
  }
}
