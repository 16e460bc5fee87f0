/** Text as the Python code handles it: strip, split, join and positional numerals. */
module Text {

  datatype Option<+T> = None | Some(value: T)

  /** A value, or the exception raised instead. */
  datatype Result<+T, +E> = Ok(value: T) | Err(error: E)

  /** The characters `str.isspace` accepts. */
  predicate IsSpace(c: char) {
    var n := c as int;
    0x09 <= n <= 0x0d || 0x1c <= n <= 0x20 || n == 0x85 || n == 0xa0 || n == 0x1680 ||
    0x2000 <= n <= 0x200a || n == 0x2028 || n == 0x2029 || n == 0x202f || n == 0x205f || n == 0x3000
  }

  const NUL := '\0'

  /******* strip, lstrip, rstrip *******/

  function LStrip(s: string): string {
    if s != "" && IsSpace(s[0]) then LStrip(s[1..]) else s
  }

  function RStrip(s: string): string {
    if s != "" && IsSpace(s[|s| - 1]) then RStrip(s[..|s| - 1]) else s
  }

  function Strip(s: string): string {
    RStrip(LStrip(s))
  }

  function LStripChar(s: string, c: char): string {
    if s != "" && s[0] == c then LStripChar(s[1..], c) else s
  }

  function RStripChar(s: string, c: char): string {
    if s != "" && s[|s| - 1] == c then RStripChar(s[..|s| - 1], c) else s
  }

  function Repeat(c: char, n: nat): (s: string)
    ensures |s| == n && forall i :: 0 <= i < n ==> s[i] == c
  {
    seq(n, i => c)
  }

  /** Neither end of the text is white space. */
  predicate Trimmed(s: string) {
    s != "" ==> !IsSpace(s[0]) && !IsSpace(s[|s| - 1])
  }

  lemma StripTrimmed(s: string)
    ensures Trimmed(s) ==> Strip(s) == s
  {
  }

  lemma {:induction false} LStripShape(s: string)
    ensures LStrip(s) != "" ==> !IsSpace(LStrip(s)[0]) && s != "" && LStrip(s)[|LStrip(s)| - 1] == s[|s| - 1]
  {
    if s != "" && IsSpace(s[0]) {
      LStripShape(s[1..]);
    }
  }

  lemma {:induction false} RStripShape(s: string)
    ensures RStrip(s) != "" ==> !IsSpace(RStrip(s)[|RStrip(s)| - 1]) && s != "" && RStrip(s)[0] == s[0]
  {
    if s != "" && IsSpace(s[|s| - 1]) {
      RStripShape(s[..|s| - 1]);
    }
  }

  /** Stripping trims, and texts that are already trimmed are its only fixed points. */
  lemma StripFixedPoints(s: string)
    ensures Trimmed(Strip(s))
    ensures Strip(s) == s <==> Trimmed(s)
  {
    LStripShape(s);
    RStripShape(LStrip(s));
    StripTrimmed(s);
  }

  /** White space around a trimmed, non-empty text disappears. */
  lemma {:induction false} StripPadding(n: nat, s: string, m: nat)
    requires Trimmed(s) && s != ""
    ensures Strip(Repeat(' ', n) + s + Repeat(' ', m)) == s
    decreases n + m
  {
    var t := Repeat(' ', n) + s + Repeat(' ', m);
    if n > 0 {
      assert t[1..] == Repeat(' ', n - 1) + s + Repeat(' ', m);
      StripPadding(n - 1, s, m);
    } else {
      assert t == s + Repeat(' ', m);
      assert LStrip(t) == t;
      RStripPadding(s, m);
    }
  }

  lemma {:induction false} RStripPadding(s: string, m: nat)
    requires s != "" ==> !IsSpace(s[|s| - 1])
    ensures RStrip(s + Repeat(' ', m)) == s
  {
    var t := s + Repeat(' ', m);
    if m > 0 {
      assert t[..|t| - 1] == s + Repeat(' ', m - 1);
      RStripPadding(s, m - 1);
    } else {
      assert t == s;
    }
  }

  lemma {:induction false} StripSpaces(n: nat)
    ensures Strip(Repeat(' ', n)) == ""
  {
    if n > 0 {
      assert Repeat(' ', n)[1..] == Repeat(' ', n - 1);
      StripSpaces(n - 1);
    }
  }

  /******* split on a separator, and join *******/

  function Split(s: string, sep: char): (parts: seq<string>)
    ensures |parts| >= 1
  {
    if s == "" then [""]
    else if s[0] == sep then [""] + Split(s[1..], sep)
    else var rest := Split(s[1..], sep); [[s[0]] + rest[0]] + rest[1..]
  }

  function Join(parts: seq<string>, sep: char): string {
    if parts == [] then ""
    else if |parts| == 1 then parts[0]
    else parts[0] + [sep] + Join(parts[1..], sep)
  }

  /** A separator-free prefix ends up in the first part. */
  lemma {:induction false} SplitPrefix(a: string, s: string, sep: char)
    requires sep !in a
    ensures Split(a + s, sep) == [a + Split(s, sep)[0]] + Split(s, sep)[1..]
  {
    if a == "" {
      assert a + s == s;
      assert "" + Split(s, sep)[0] == Split(s, sep)[0];
    } else {
      assert (a + s)[1..] == a[1..] + s;
      SplitPrefix(a[1..], s, sep);
      assert [a[0]] + (a[1..] + Split(s, sep)[0]) == a + Split(s, sep)[0];
    }
  }

  lemma SplitCons(a: string, s: string, sep: char)
    requires sep !in a
    ensures Split(a + [sep] + s, sep) == [a] + Split(s, sep)
  {
    SplitPrefix(a, [sep] + s, sep);
    assert a + [sep] + s == a + ([sep] + s);
    assert ([sep] + s)[1..] == s;
    assert a + "" == a;
  }

  lemma SplitAtom(a: string, sep: char)
    requires sep !in a
    ensures Split(a, sep) == [a]
  {
    SplitPrefix(a, "", sep);
    assert a + "" == a;
  }

  lemma {:induction false} SplitJoin(parts: seq<string>, sep: char)
    requires parts != [] && forall p :: p in parts ==> sep !in p
    ensures Split(Join(parts, sep), sep) == parts
  {
    if |parts| == 1 {
      SplitAtom(parts[0], sep);
    } else {
      SplitJoin(parts[1..], sep);
      SplitCons(parts[0], Join(parts[1..], sep), sep);
      assert parts == [parts[0]] + parts[1..];
    }
  }

  lemma {:induction false} JoinSplit(s: string, sep: char)
    ensures Join(Split(s, sep), sep) == s
    ensures forall p :: p in Split(s, sep) ==> sep !in p
  {
    if s == "" {
    } else {
      var rest := Split(s[1..], sep);
      JoinSplit(s[1..], sep);
      if s[0] == sep {
        assert Split(s, sep) == [""] + rest;
        assert ([""] + rest)[1..] == rest;
        assert s == "" + [sep] + s[1..];
      } else {
        var parts := [[s[0]] + rest[0]] + rest[1..];
        assert parts[1..] == rest[1..];
        if |rest| > 1 {
          assert [s[0]] + rest[0] + [sep] + Join(rest[1..], sep) == [s[0]] + (rest[0] + [sep] + Join(rest[1..], sep));
        }
        assert s == [s[0]] + s[1..];
        forall p | p in parts ensures sep !in p {
          if p != parts[0] { assert p in rest; } else { assert rest[0] in rest; }
        }
      }
    }
  }

  /** Two separator-free lists that join to the same text are the same list. */
  lemma JoinInjective(xs: seq<string>, ys: seq<string>, sep: char)
    requires xs != [] && ys != []
    requires (forall p :: p in xs ==> sep !in p) && (forall p :: p in ys ==> sep !in p)
    ensures Join(xs, sep) == Join(ys, sep) <==> xs == ys
  {
    SplitJoin(xs, sep);
    SplitJoin(ys, sep);
  }

  lemma JoinAtom(s: string, sep: char)
    ensures Join([s], sep) == s
  {
  }

  lemma {:induction false} JoinConcat(xs: seq<string>, ys: seq<string>, sep: char)
    requires xs != [] && ys != []
    ensures Join(xs + ys, sep) == Join(xs, sep) + [sep] + Join(ys, sep)
  {
    if |xs| == 1 {
      assert (xs + ys)[1..] == ys;
    } else {
      assert (xs + ys)[1..] == xs[1..] + ys;
      JoinConcat(xs[1..], ys, sep);
    }
  }

  /******* split on white space *******/

  /** Length of the leading run of non-space characters. */
  function WordLen(s: string): (n: nat)
    ensures n <= |s|
    ensures forall i :: 0 <= i < n ==> !IsSpace(s[i])
    ensures n < |s| ==> IsSpace(s[n])
  {
    if s == "" || IsSpace(s[0]) then 0 else 1 + WordLen(s[1..])
  }

  /** `str.split()` with no argument. */
  function Words(s: string): seq<string>
    decreases |s|
  {
    if s == "" then []
    else if IsSpace(s[0]) then Words(s[1..])
    else [s[..WordLen(s)]] + Words(s[WordLen(s)..])
  }

  /** A word of the text: not empty, no white space in it. */
  predicate IsWord(s: string) {
    s != "" && forall i :: 0 <= i < |s| ==> !IsSpace(s[i])
  }

  lemma WordLenIs(s: string, n: nat)
    requires n < |s| && IsSpace(s[n]) && forall i :: 0 <= i < n ==> !IsSpace(s[i])
    ensures WordLen(s) == n
  {
  }

  lemma WordsCons(w: string, c: char, rest: string)
    requires IsWord(w) && IsSpace(c)
    ensures Words(w + [c] + rest) == [w] + Words(rest)
  {
    var t := w + [c] + rest;
    assert t[|w|] == c;
    assert forall i :: 0 <= i < |w| ==> t[i] == w[i];
    assert t[..|w|] == w && t[|w|..] == [c] + rest;
    assert ([c] + rest)[1..] == rest;
    assert WordLen(t) == |w| by {
      WordLenIs(t, |w|);
    }
    assert Words([c] + rest) == Words(rest);
  }

  lemma WordsAtom(w: string)
    requires IsWord(w)
    ensures Words(w) == [w]
  {
    assert w[..|w|] == w && w[|w|..] == "";
  }

  /******* lines *******/

  /** Position of the first line end, or the length of the text. */
  function LineEnd(s: string): (n: nat)
    ensures n <= |s| && '\n' !in s[..n]
    ensures n < |s| ==> s[n] == '\n'
  {
    if s == "" || s[0] == '\n' then 0
    else
      assert s[..1 + LineEnd(s[1..])] == [s[0]] + s[1..][..LineEnd(s[1..])];
      1 + LineEnd(s[1..])
  }

  /******* numerals *******/

  type Base = b: int | 2 <= b <= 16 witness 10

  predicate IsDigit(c: char) {
    '0' <= c <= '9' || 'a' <= c <= 'f'
  }

  function Digit(d: nat): (c: char)
    requires d < 16
    ensures IsDigit(c)
  {
    if d < 10 then '0' + d as char else 'a' + (d - 10) as char
  }

  function DigitValue(c: char): (d: int)
    ensures -1 <= d < 16
  {
    if '0' <= c <= '9' then c as int - '0' as int
    else if 'a' <= c <= 'f' then c as int - 'a' as int + 10
    else -1
  }

  function Numeral(n: nat, b: Base): (s: string)
    ensures s != "" && forall i :: 0 <= i < |s| ==> IsDigit(s[i])
    decreases n
  {
    DivMod(n, b);
    if n < b then [Digit(n)] else Numeral(n / b, b) + [Digit(n % b)]
  }

  function ParseDigits(s: string, b: Base): Option<nat> {
    if s == "" then Some(0)
    else
      var d := DigitValue(s[|s| - 1]);
      if d < 0 || d >= b then None
      else match ParseDigits(s[..|s| - 1], b)
           case None => None
           case Some(n) => Some(n * b + d)
  }

  /** `int(s, b)`: an optional sign and at least one digit; None is the ValueError. */
  function ParseInt(s: string, b: Base): Option<int> {
    var t := Strip(s);
    var digits := if t != "" && (t[0] == '-' || t[0] == '+') then t[1..] else t;
    if digits == "" then None
    else match ParseDigits(digits, b)
         case None => None
         case Some(n) =>
           var value: int := if t[0] == '-' then 0 - n else n;
           Some(value)
  }

  /** `str(n)` */
  function IntText(n: int): string {
    if n < 0 then "-" + Numeral(-n, 10) else Numeral(n, 10)
  }

  lemma DigitRoundTrip(d: nat)
    requires d < 16
    ensures DigitValue(Digit(d)) == d
  {
  }

  lemma {:induction false} ParseNumeral(n: nat, b: Base)
    ensures ParseDigits(Numeral(n, b), b) == Some(n)
    decreases n
  {
    var s := Numeral(n, b);
    DivMod(n, b);
    if n < b {
      DigitRoundTrip(n);
      assert s[..|s| - 1] == "";
      assert 0 * b + n == n;
    } else {
      var high, low := n / b, n % b;
      ParseNumeral(high, b);
      ParseDigitAppended(Numeral(high, b), high, low, b);
    }
  }

  lemma ParseDigitAppended(s: string, high: nat, low: nat, b: Base)
    requires ParseDigits(s, b) == Some(high) && low < b
    ensures ParseDigits(s + [Digit(low)], b) == Some(high * b + low)
  {
    DigitRoundTrip(low);
    assert (s + [Digit(low)])[..|s|] == s;
  }

  lemma DivMod(n: nat, b: Base)
    ensures n / b * b + n % b == n && 0 <= n % b < b
    ensures n >= b ==> 0 <= n / b < n
  {
  }

  /** Reading back what was printed gives the number, whatever its size or sign. */
  lemma ParseIntText(n: int)
    ensures ParseInt(IntText(n), 10) == Some(n)
  {
    hide Numeral, ParseDigits, Strip, IsSpace;
    var m := if n < 0 then -n else n;
    var s := Numeral(m, 10);
    ParseNumeral(m, 10);
    NumeralIsWord(m, 10);
    SignIsNoSpace();
    StripTrimmed(IntText(n));
    assert s[0] in s && s[|s| - 1] in s;
    if n < 0 { assert ("-" + s)[1..] == s; }
  }

  lemma SignIsNoSpace()
    ensures !IsSpace('-')
  {
  }

  lemma ParseIntNumeral(n: nat, b: Base)
    ensures ParseInt(Numeral(n, b), b) == Some(n)
  {
    var s := Numeral(n, b);
    ParseNumeral(n, b);
    NumeralIsWord(n, b);
    StripTrimmed(s);
  }

  /** A value a report column can carry: one word with no bracket, dot, equals sign or NUL in it. */
  predicate Plain(s: string) {
    IsWord(s) && forall c :: c in s ==> c != '(' && c != ')' && c != '.' && c != '=' && c != NUL
  }

  lemma NumeralIsWord(n: nat, b: Base)
    ensures Plain(Numeral(n, b))
    ensures '-' !in Numeral(n, b) && '+' !in Numeral(n, b)
  {
  }

  lemma NumeralInjective(m: nat, n: nat, b: Base)
    ensures Numeral(m, b) == Numeral(n, b) <==> m == n
  {
    ParseNumeral(m, b);
    ParseNumeral(n, b);
  }
}
