/** The file names myscm-img.X.Y.tar.gz. */
module ImageNames {
  import opened Text

  const IMAGE_PREFIX := "myscm-img"
  const IMAGE_EXT := ".tar.gz"

  function ImageName(source: nat, target: nat): string {
    IMAGE_PREFIX + "." + IntText(source) + "." + IntText(target) + IMAGE_EXT
  }

  predicate IsDecimal(s: string) {
    s != "" && forall i :: 0 <= i < |s| ==> '0' <= s[i] <= '9'
  }

  /** The pattern's dots match any character but a line end. */
  predicate Dot(c: char) {
    c != '\n'
  }

  predicate Framed(name: string) {
    && |name| >= 17
    && name[..9] == IMAGE_PREFIX && Dot(name[9])
    && Dot(name[|name| - 7]) && name[|name| - 6..|name| - 3] == "tar" && Dot(name[|name| - 3])
      && name[|name| - 2..] == "gz"
  }

  /** A greedy first group: the longest one that leaves a character and a second group. */
  function Groups(numbers: string, n: nat): Option<(string, string)>
    requires n <= |numbers|
  {
    if n == 0 then None
    else if n + 1 < |numbers| && IsDecimal(numbers[..n]) && Dot(numbers[n]) && IsDecimal(numbers[n + 1..])
    then Some((numbers[..n], numbers[n + 1..]))
    else Groups(numbers, n - 1)
  }

  /** The two numbers in the name of an image; None if the name does not match the pattern. */
  function ParseImageName(name: string): Option<(nat, nat)> {
    if !Framed(name) then None
    else
      var numbers := name[10..|name| - 7];
      match Groups(numbers, |numbers|)
      case None => None
      case Some((a, b)) =>
        match (ParseDigits(a, 10), ParseDigits(b, 10))
        case (Some(x), Some(y)) => Some((x, y))
        case _ => None
  }

  lemma {:induction false} NumeralIsDecimal(n: nat)
    ensures IsDecimal(Numeral(n, 10))
  {
    DivMod(n, 10);
    if n >= 10 { NumeralIsDecimal(n / 10); }
  }

  lemma {:induction false} GroupsOf(a: string, b: string, n: nat)
    requires IsDecimal(a) && IsDecimal(b) && |a| <= n <= |a + "." + b|
    ensures Groups(a + "." + b, n) == Some((a, b))
  {
    var s := a + "." + b;
    if n > |a| {
      assert s[..n][|a|] == '.';
      GroupsOf(a, b, n - 1);
    } else {
      assert s[..n] == a && s[n + 1..] == b;
    }
  }

  /** The name of an image tells its two versions, whatever the numbers are. */
  lemma ImageNameParses(source: nat, target: nat)
    ensures ParseImageName(ImageName(source, target)) == Some((source, target))
  {
    var a, b := IntText(source), IntText(target);
    var name := ImageName(source, target);
    NumeralIsDecimal(source);
    NumeralIsDecimal(target);
    assert name == IMAGE_PREFIX + "." + (a + "." + b) + IMAGE_EXT;
    assert name[..9] == IMAGE_PREFIX && name[|name| - 7..] == IMAGE_EXT;
    assert name[|name| - 6..|name| - 3] == IMAGE_EXT[1..4] == "tar" && name[|name| - 2..] == IMAGE_EXT[5..] == "gz";
    var numbers := name[10..|name| - 7];
    assert numbers == a + "." + b;
    GroupsOf(a, b, |numbers|);
    ParseNumeral(source, 10);
    ParseNumeral(target, 10);
  }

  /** As `str` writes a number: no zero before other digits. */
  predicate NoLeadingZero(digits: string) {
    IsDecimal(digits) && (digits[0] != '0' || |digits| == 1)
  }

  /** A number is written in one way without leading zeros. */
  lemma {:induction false} NumeralIsUnique(digits: string, n: nat)
    requires IsDecimal(digits) && ParseDigits(digits, 10) == Some(n)
    ensures digits == Numeral(n, 10) <==> NoLeadingZero(digits)
    ensures NoLeadingZero(digits) && digits[0] != '0' ==> n > 0
    decreases |digits|
  {
    var k := |digits| - 1;
    var high, low := digits[..k], DigitValue(digits[k]);
    assert digits == high + [digits[k]] && Digit(low) == digits[k];
    NumeralIsDecimal(n);
    if k == 0 {
      assert high == "" && n == low;
    } else {
      var m := ParseDigits(high, 10).value;
      assert n == m * 10 + low && n / 10 == m && n % 10 == low;
      NumeralIsUnique(high, m);
      assert high[0] == digits[0];
      if digits[0] != '0' {
        assert Numeral(n, 10) == Numeral(m, 10) + [Digit(low)];
      } else {
        NumeralHasNoZero(n);
      }
    }
  }

  lemma {:induction false} NumeralHasNoZero(n: nat)
    ensures Numeral(n, 10)[0] == '0' <==> n == 0
    ensures n == 0 ==> Numeral(n, 10) == "0"
  {
    DivMod(n, 10);
    if n >= 10 { NumeralHasNoZero(n / 10); }
  }

  /** Dots where the pattern's dots are, and both numbers as the server writes them. */
  predicate AsWritten(name: string, a: string, b: string)
    requires Framed(name)
  {
    && name[9] == '.' && name[|name| - 7] == '.' && name[|name| - 3] == '.'
    && |a| < |name| - 17 && name[10 + |a|] == '.'
    && NoLeadingZero(a) && NoLeadingZero(b)
  }

  lemma {:induction false} GroupsSplit(numbers: string, n: nat)
    requires n <= |numbers|
    ensures match Groups(numbers, n)
            case None => true
            case Some((a, b)) => IsDecimal(a) && IsDecimal(b) && |a| + 1 + |b| == |numbers| && Dot(numbers[|a|])
                                 && numbers == a + [numbers[|a|]] + b
  {
    if n > 0 && !(n + 1 < |numbers| && IsDecimal(numbers[..n]) && Dot(numbers[n]) && IsDecimal(numbers[n + 1..])) {
      GroupsSplit(numbers, n - 1);
    }
  }

  /** A name that parses is the name of the image with these numbers exactly when it is written as the server writes
      names. */
  lemma ParsedNameExact(name: string)
    requires ParseImageName(name).Some?
    ensures Framed(name) && Groups(name[10..|name| - 7], |name| - 17).Some?
    ensures var (x, y) := ParseImageName(name).value; var (a, b) := Groups(name[10..|name| - 7], |name| - 17).value;
            name == ImageName(x, y) <==> AsWritten(name, a, b)
  {
    hide ParseDigits, Groups, IsDecimal, NoLeadingZero, Numeral, ImageName, ParseImageName;
    var a, b, x, y := GroupsOfName(name);
    hide Framed;
    NumeralIsUnique(a, x);
    NumeralIsUnique(b, y);
    NameOf(name, a, b);
    if a == Numeral(x, 10) && b == Numeral(y, 10) {
      DotsDecide(name, a, b, x, y);
    } else {
      NamesOfDiffer(name, a, b, x, y);
    }
  }

  lemma GroupsOfName(name: string) returns (a: string, b: string, x: nat, y: nat)
    requires ParseImageName(name).Some?
    ensures ParseImageName(name) == Some((x, y)) && ParseDigits(a, 10) == Some(x) && ParseDigits(b, 10) == Some(y)
    ensures Framed(name) && Groups(name[10..|name| - 7], |name| - 17) == Some((a, b))
    ensures IsDecimal(a) && IsDecimal(b) && |a| + 1 + |b| == |name| - 17
    ensures name[10..|name| - 7] == a + [name[10 + |a|]] + b
  {
    hide ParseDigits, Groups, Framed, IsDecimal;
    FramedLength(name);
    var numbers := name[10..|name| - 7];
    x, y := ParseImageName(name).value.0, ParseImageName(name).value.1;
    a, b := Groups(numbers, |numbers|).value.0, Groups(numbers, |numbers|).value.1;
    GroupsSplit(numbers, |numbers|);
    assert numbers[|a|] == name[10 + |a|];
  }

  lemma FramedLength(name: string)
    ensures Framed(name) ==> |name| >= 17
  {
  }

  /** A framed name, put together from its parts. */
  lemma NameOf(name: string, a: string, b: string)
    requires Framed(name) && |a| + 1 + |b| == |name| - 17 && name[10..|name| - 7] == a + [name[10 + |a|]] + b
    ensures name == IMAGE_PREFIX + [name[9]] + a + [name[10 + |a|]] + b + [name[|name| - 7]] + "tar"
              + [name[|name| - 3]] + "gz"
  {
    var n := |name|;
    assert name == name[..9] + [name[9]] + name[10..n - 7] + [name[n - 7]] + name[n - 6..n - 3] + [name[n - 3]]
             + name[n - 2..];
  }

  lemma DotsDecide(name: string, a: string, b: string, x: nat, y: nat)
    requires Framed(name) && |a| + 1 + |b| == |name| - 17 && |b| > 0
    requires name == IMAGE_PREFIX + [name[9]] + a + [name[10 + |a|]] + b + [name[|name| - 7]] + "tar"
               + [name[|name| - 3]] + "gz"
    requires a == Numeral(x, 10) && b == Numeral(y, 10)
    ensures name == ImageName(x, y) <==> name[9] == name[10 + |a|] == name[|name| - 7] == name[|name| - 3] == '.'
  {
    hide Numeral;
    var n := |name|;
    var other := ImageName(x, y);
    assert other == IMAGE_PREFIX + ['.'] + a + ['.'] + b + ['.'] + "tar" + ['.'] + "gz";
    assert |other| == n && other[9] == '.' && other[10 + |a|] == '.' && other[n - 7] == '.' && other[n - 3] == '.';
  }

  /** With other digits for one of the numbers the name is another one. */
  lemma NamesOfDiffer(name: string, a: string, b: string, x: nat, y: nat)
    requires ParseImageName(name) == Some((x, y)) && Groups(name[10..|name| - 7], |name| - 17) == Some((a, b))
    requires a != Numeral(x, 10) || b != Numeral(y, 10)
    ensures name != ImageName(x, y)
  {
    hide Numeral, ParseDigits, Groups;
    ImageGroups(x, y);
  }

  lemma ImageGroups(x: nat, y: nat)
    ensures var name := ImageName(x, y);
            Groups(name[10..|name| - 7], |name| - 17) == Some((Numeral(x, 10), Numeral(y, 10)))
  {
    hide Numeral;
    var a, b := Numeral(x, 10), Numeral(y, 10);
    var name := ImageName(x, y);
    NumeralIsDecimal(x);
    NumeralIsDecimal(y);
    assert name == IMAGE_PREFIX + "." + (a + "." + b) + IMAGE_EXT;
    assert name[10..|name| - 7] == a + "." + b;
    GroupsOf(a, b, |a + "." + b|);
  }

  /** The dots let one number pass for two. */
  lemma OneNumberParsesAsTwo()
    ensures ParseImageName("myscm-img.123.tar.gz") == Some((1, 3))
  {
    hide ParseDigits, Groups;
    var name := "myscm-img.123.tar.gz";
    assert name[..9] == IMAGE_PREFIX && name[14..17] == "tar" && name[18..] == "gz";
    assert name[10..|name| - 7] == "123";
    MiddleDigitIsDot();
    OneAndThree();
  }

  lemma MiddleDigitIsDot()
    ensures Groups("123", 3) == Some(("1", "3"))
  {
    assert "123"[..1] == "1" && "123"[2..] == "3" && "123"[3..] == "";
    assert Groups("123", 3) == Groups("123", 2) == Groups("123", 1);
  }

  lemma OneAndThree()
    ensures ParseDigits("1", 10) == Some(1) && ParseDigits("3", 10) == Some(3)
  {
    assert "1"[..0] == "" && "3"[..0] == "";
  }
}
