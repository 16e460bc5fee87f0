/** The patterns for the names of images and archived scans, written out. */
module NamePatterns {
  import opened Text
  import opened ImageNames
  import opened PeerSearch
  import opened AideDbManager

  /** `\d+` */
  ghost predicate Digits(s: string) {
    s != "" && forall i :: 0 <= i < |s| ==> s[i] in "0123456789"
  }

  /** `myscm-img.(\d+).(\d+).tar.gz` matches the name with these groups; each dot is any character but a line end. */
  ghost predicate Matches(name: string, a: string, b: string) {
    Digits(a) && Digits(b) && exists dots :: Written(name, a, b, dots)
  }

  ghost predicate Written(name: string, a: string, b: string, dots: string) {
    && |dots| == 4 && '\n' !in dots
    && name == "myscm-img" + [dots[0]] + a + [dots[1]] + b + [dots[2]] + "tar" + [dots[3]] + "gz"
  }

  lemma DigitsExact(s: string)
    ensures Digits(s) <==> IsDecimal(s)
  {
    assert forall c :: c in "0123456789" <==> '0' <= c <= '9' by {
      var all := "0123456789";
      forall c: char | '0' <= c <= '9' ensures c in all {
        assert all[c as int - '0' as int] == c;
      }
    }
  }

  /** What the pattern says of the places in a name. */
  ghost predicate Placed(name: string, a: string, b: string) {
    && Framed(name) && |name| == 18 + |a| + |b| && Dot(name[10 + |a|])
    && name[10..10 + |a|] == a && name[11 + |a|..|name| - 7] == b
  }

  lemma HeadIs(head: string, a: string, dot: char)
    ensures head == "myscm-img" + [dot] + a <==>
              |head| == 10 + |a| && head[..9] == "myscm-img" && head[9] == dot && head[10..] == a
  {
    if |head| == 10 + |a| {
      assert head == head[..9] + [head[9]] + head[10..];
    }
  }

  lemma TailIs(tail: string, dot1: char, dot2: char)
    ensures tail == [dot1] + "tar" + [dot2] + "gz" <==>
              |tail| == 7 && tail[0] == dot1 && tail[1..4] == "tar" && tail[4] == dot2 && tail[5..] == "gz"
  {
    if |tail| == 7 {
      assert tail == [tail[0]] + tail[1..4] + [tail[4]] + tail[5..];
    }
  }

  lemma PartsOf(head: string, dot: char, b: string, tail: string)
    ensures var name := head + [dot] + b + tail;
            && name[..|head|] == head && name[|head|] == dot && name[|head| + 1..|head| + 1 + |b|] == b
            && name[|head| + 1 + |b|..] == tail
  {
  }

  lemma WrittenIsPlaced(name: string, a: string, b: string, dots: string)
    requires Written(name, a, b, dots)
    ensures Placed(name, a, b)
  {
    var head, tail := "myscm-img" + [dots[0]] + a, [dots[2]] + "tar" + [dots[3]] + "gz";
    assert forall i :: 0 <= i < 4 ==> dots[i] in dots;
    assert name == head + [dots[1]] + b + tail;
    PartsOf(head, dots[1], b, tail);
    HeadIs(head, a, dots[0]);
    TailIs(tail, dots[2], dots[3]);
    HeadAndTail(name, |head|);
  }

  lemma HeadAndTail(name: string, k: nat)
    requires 10 <= k <= |name| - 7
    ensures var head, tail := name[..k], name[|name| - 7..];
            && name[..9] == head[..9] && name[9] == head[9] && name[10..k] == head[10..]
            && name[|name| - 7] == tail[0] && name[|name| - 6..|name| - 3] == tail[1..4]
            && name[|name| - 3] == tail[4] && name[|name| - 2..] == tail[5..]
  {
  }

  lemma PlacedIsWritten(name: string, a: string, b: string)
    requires Placed(name, a, b)
    ensures exists dots :: Written(name, a, b, dots)
  {
    var n, k := |name|, 10 + |a|;
    var head, tail := name[..k], name[n - 7..];
    var dots := [name[9], name[k], name[n - 7], name[n - 3]];
    HeadAndTail(name, k);
    HeadIs(head, a, dots[0]);
    TailIs(tail, dots[2], dots[3]);
    assert name == head + [dots[1]] + b + tail;
    assert Written(name, a, b, dots);
  }

  lemma WrittenExact(name: string, a: string, b: string)
    ensures (exists dots :: Written(name, a, b, dots)) <==> Placed(name, a, b)
  {
    hide Written, Placed;
    if dots :| Written(name, a, b, dots) {
      WrittenIsPlaced(name, a, b, dots);
    }
    if Placed(name, a, b) {
      PlacedIsWritten(name, a, b);
    }
  }

  /** Where a group of digits may end. */
  ghost predicate Splits(numbers: string, k: nat) {
    k + 1 < |numbers| && IsDecimal(numbers[..k]) && Dot(numbers[k]) && IsDecimal(numbers[k + 1..])
  }

  lemma {:induction false} GroupsExact(numbers: string, n: nat)
    requires n <= |numbers|
    ensures match Groups(numbers, n)
            case None => forall k: nat :: k <= n ==> !Splits(numbers, k)
            case Some((a, b)) =>
              && Splits(numbers, |a|) && a == numbers[..|a|] && b == numbers[|a| + 1..]
              && forall k: nat :: |a| < k <= n ==> !Splits(numbers, k)
  {
    if n > 0 && !Splits(numbers, n) {
      GroupsExact(numbers, n - 1);
    }
  }

  lemma {:induction false} DigitsHaveValue(s: string)
    requires IsDecimal(s)
    ensures ParseDigits(s, 10).Some?
  {
    var k := |s| - 1;
    if k > 0 {
      DigitsHaveValue(s[..k]);
    } else {
      assert s[..k] == "";
    }
  }

  /** The pattern matches exactly if the part between the dots splits into the two groups. */
  ghost predicate SplitsInto(name: string, a: string, b: string) {
    && Framed(name) && Splits(name[10..|name| - 7], |a|)
    && a == name[10..|name| - 7][..|a|] && b == name[10..|name| - 7][|a| + 1..]
  }

  lemma MatchesExact(name: string, a: string, b: string)
    ensures Matches(name, a, b) <==> SplitsInto(name, a, b)
  {
    hide Written, Digits, IsDecimal, Framed;
    DigitsExact(a);
    DigitsExact(b);
    WrittenExact(name, a, b);
    DecimalNotEmpty(b);
    FramedLength(name);
    if Framed(name) && |name| == 18 + |a| + |b| {
      var numbers := name[10..|name| - 7];
      assert numbers[|a|] == name[10 + |a|];
      assert numbers[..|a|] == name[10..10 + |a|] && numbers[|a| + 1..] == name[11 + |a|..|name| - 7];
    }
  }

  /** A name is read exactly if the pattern matches it; if it does in more than one way, the first group is as long as
      it can be. */
  lemma ParseExact(name: string)
    ensures match ParseImageName(name)
            case None => forall a, b :: !Matches(name, a, b)
            case Some((x, y)) =>
              exists a, b :: && Matches(name, a, b) && ParseDigits(a, 10) == Some(x) && ParseDigits(b, 10) == Some(y)
                             && forall a2, b2 :: Matches(name, a2, b2) ==> |a2| <= |a|
  {
    hide Groups, ParseDigits, IsDecimal, Framed, Matches;
    FramedLength(name);
    forall a, b ensures Matches(name, a, b) <==> SplitsInto(name, a, b) {
      MatchesExact(name, a, b);
    }
    if Framed(name) {
      var numbers := name[10..|name| - 7];
      GroupsExact(numbers, |numbers|);
      if Groups(numbers, |numbers|).Some? {
        var (a, b) := Groups(numbers, |numbers|).value;
        SplitsValues(numbers, |a|);
        assert SplitsInto(name, a, b);
        forall a2, b2 | Matches(name, a2, b2) ensures |a2| <= |a| {
          assert SplitsInto(name, a2, b2);
        }
      }
    }
  }

  lemma SplitsValues(numbers: string, k: nat)
    requires Splits(numbers, k)
    ensures k + 1 < |numbers|
    ensures ParseDigits(numbers[..k], 10).Some? && ParseDigits(numbers[k + 1..], 10).Some?
  {
    DigitsHaveValue(numbers[..k]);
    DigitsHaveValue(numbers[k + 1..]);
  }

  /** A peer is asked for the images whose first number is the client's version, as `str` writes it. */
  lemma TargetExact(name: string, current: nat, t: nat)
    ensures TargetIn(name, current) == Some(t) <==>
              exists b :: Matches(name, IntText(current), b) && ParseDigits(b, 10) == Some(t)
  {
    hide IntText, ParseDigits, Written, Digits, IsDecimal;
    var a := IntText(current);
    CurrentIsDecimal(current);
    DigitsExact(a);
    forall b ensures Matches(name, a, b) <==> Placed(name, a, b) && IsDecimal(b) {
      DigitsExact(b);
      WrittenExact(name, a, b);
    }
    if TargetIn(name, current).Some? {
      assert Matches(name, a, name[11 + |a|..|name| - 7]);
    }
    if b :| Matches(name, a, b) && ParseDigits(b, 10) == Some(t) {
      DecimalNotEmpty(b);
      assert TargetIn(name, current) == Some(t);
    }
  }

  lemma DecimalNotEmpty(s: string)
    ensures IsDecimal(s) ==> s != ""
  {
  }

  lemma CurrentIsDecimal(n: nat)
    ensures IsDecimal(IntText(n))
  {
    NumeralIsDecimal(n);
  }

  /** `aide.db.(\d+)` */
  ghost predicate Archives(name: string, digits: string) {
    Digits(digits) && exists dots :: ArchiveWritten(name, digits, dots)
  }

  ghost predicate ArchiveWritten(name: string, digits: string, dots: string) {
    |dots| == 2 && '\n' !in dots && name == "aide" + [dots[0]] + "db" + [dots[1]] + digits
  }

  /** A directory is an archived scan exactly if the pattern matches its name. */
  lemma ArchivedExact(name: string, n: nat)
    ensures ArchivedNumber(name) == Some(n) <==>
              exists digits :: Archives(name, digits) && ParseDigits(digits, 10) == Some(n)
  {
    hide ParseDigits, Digits, IsDecimal;
    if ArchivedNumber(name) == Some(n) {
      var digits, dots := name[8..], [name[4], name[7]];
      ValuesAreDecimal(digits);
      DigitsExact(digits);
      assert name == name[..4] + [name[4]] + name[5..7] + [name[7]] + digits;
      assert ArchiveWritten(name, digits, dots);
    }
    if digits :| Archives(name, digits) && ParseDigits(digits, 10) == Some(n) {
      var dots :| ArchiveWritten(name, digits, dots);
      DigitsExact(digits);
      DecimalNotEmpty(digits);
      assert name[..4] == "aide" && name[5..7] == "db" && name[8..] == digits;
      assert name[4] == dots[0] && dots[0] in dots && name[7] == dots[1] && dots[1] in dots;
    }
  }

  lemma {:induction false} ValuesAreDecimal(s: string)
    requires s != "" && ParseDigits(s, 10).Some?
    ensures IsDecimal(s)
  {
    var k := |s| - 1;
    if k > 0 {
      ValuesAreDecimal(s[..k]);
      assert forall i :: 0 <= i < k ==> s[i] == s[..k][i];
    }
  }
}
