/** A file that holds one integer on one line. */
module VersionFiles {
  import opened Text

  datatype VersionError = NoSuchFile | EmptyFile | TooManyLines | NotInteger | OutOfAllowedRange(value: int)

  /** What `parse` makes of the content of the file. */
  function Parsed(content: Option<string>, startingValue: int): Result<int, VersionError> {
    match content
    case None => Err(NoSuchFile)
    case Some(text) =>
      var end := LineEnd(text);
      var firstLine := Strip(text[..end]);
      if firstLine == "" then Err(EmptyFile)
      else if end + 1 < |text| then Err(TooManyLines)
      else match ParseInt(firstLine, 10)
           case None => Err(NotInteger)
           case Some(ver) => if ver < startingValue then Err(OutOfAllowedRange(ver)) else Ok(ver)
  }

  /** Every integer at or above the start is read back as it was written, and no other is accepted. */
  lemma WrittenIsRead(n: int, startingValue: int)
    ensures Parsed(Some(IntText(n)), startingValue) == if n >= startingValue then Ok(n) else Err(OutOfAllowedRange(n))
  {
    var text := IntText(n);
    IntTextIsLine(n);
    var end := LineEnd(text);
    assert end == |text|;
    assert text[..end] == text;
    StripTrimmed(text);
    ParseIntText(n);
  }

  /** The same with a line end behind it, as the files come that are installed. */
  lemma LineIsRead(n: int, startingValue: int)
    ensures Parsed(Some(IntText(n) + "\n"), startingValue)
         == if n >= startingValue then Ok(n) else Err(OutOfAllowedRange(n))
  {
    hide ParseInt, Strip;
    var text := IntText(n) + "\n";
    IntTextIsLine(n);
    assert text[|text| - 1] == '\n' && text[..|text| - 1] == IntText(n);
    FirstLineEnd(text, |text| - 1);
    StripTrimmed(IntText(n));
    ParseIntText(n);
  }

  /** The files that are installed: a client starts at 0, a server before its first scan. */
  lemma InstalledFilesAreRead()
    ensures Parsed(Some("0\n"), 0) == Ok(0) && Parsed(Some("-1\n"), -1) == Ok(-1)
  {
    hide Parsed;
    assert IntText(0) == "0" && IntText(-1) == "-1";
    assert "0" + "\n" == "0\n" && "-1" + "\n" == "-1\n";
    LineIsRead(0, 0);
    LineIsRead(-1, -1);
  }

  lemma {:induction false} FirstLineEnd(text: string, i: nat)
    requires i < |text| && text[i] == '\n' && '\n' !in text[..i]
    ensures LineEnd(text) == i
  {
    if i > 0 {
      assert text[..i][0] == text[0] && text[1..][..i - 1] == text[..i][1..];
      FirstLineEnd(text[1..], i - 1);
    }
  }

  predicate Blank(s: string) {
    forall i :: 0 <= i < |s| ==> IsSpace(s[i])
  }

  lemma {:induction false} LStripBlank(s: string)
    ensures LStrip(s) == "" <==> Blank(s)
  {
    if s != "" && IsSpace(s[0]) {
      LStripBlank(s[1..]);
      assert forall i :: 0 < i < |s| ==> s[i] == s[1..][i - 1];
    }
  }

  lemma {:induction false} RStripBlank(s: string)
    ensures RStrip(s) == "" <==> Blank(s)
  {
    if s != "" && IsSpace(s[|s| - 1]) {
      RStripBlank(s[..|s| - 1]);
    }
  }

  lemma {:induction false} LStripNotBlank(s: string)
    ensures LStrip(s) != "" ==> !IsSpace(LStrip(s)[0])
  {
    if s != "" && IsSpace(s[0]) {
      LStripNotBlank(s[1..]);
    }
  }

  lemma StripBlank(s: string)
    ensures Strip(s) == "" <==> Blank(s)
  {
    LStripBlank(s);
    LStripNotBlank(s);
    RStripBlank(LStrip(s));
  }

  /** A file is too long exactly if its first line is not blank and a character follows the line end. */
  lemma TooManyLinesExact(text: string, startingValue: int)
    ensures Parsed(Some(text), startingValue) == Err(TooManyLines) <==>
            exists i :: && 0 <= i && i + 1 < |text| && text[i] == '\n' && '\n' !in text[..i]
                        && !Blank(text[..i])
  {
    hide ParseInt, Strip, Blank;
    StripBlank(text[..LineEnd(text)]);
    if i :| 0 <= i && i + 1 < |text| && text[i] == '\n' && '\n' !in text[..i] && !Blank(text[..i]) {
      FirstLineEnd(text, i);
    }
  }

  /** It is empty exactly if its first line is blank. */
  lemma EmptyFileExact(text: string, startingValue: int)
    ensures Parsed(Some(text), startingValue) == Err(EmptyFile) <==> Blank(text[..LineEnd(text)])
  {
    hide ParseInt, Strip, Blank;
    StripBlank(text[..LineEnd(text)]);
  }

  lemma IntTextIsLine(n: int)
    ensures Trimmed(IntText(n)) && IntText(n) != "" && '\n' !in IntText(n)
  {
    var m := if n < 0 then -n else n;
    NumeralIsWord(m, 10);
    assert forall i :: 0 <= i < |Numeral(m, 10)| ==> !IsSpace(Numeral(m, 10)[i]);
    assert '\n' !in Numeral(m, 10);
  }

  class VersionFile {
    const startingValue: int
    var content: Option<string>
    var version: Option<int>

    constructor (startingValue: int, content: Option<string>)
      ensures this.startingValue == startingValue && this.content == content && version == None
    {
      this.startingValue, this.content := startingValue, content;
      version := None;
    }

    method SetValue(val: int)
      modifies this
      ensures content == Some(IntText(val)) && version == Some(val)
    {
      content := Some(IntText(val));
      version := Some(val);
    }

    method Create() returns (val: int)
      modifies this
      ensures val == startingValue && content == Some(IntText(val)) && version == Some(val)
    {
      val := startingValue;
      SetValue(val);
    }

    method Parse(create: bool) returns (r: Result<int, VersionError>)
      modifies this
      ensures r == if create && old(content) == None then Ok(startingValue) else Parsed(old(content), startingValue)
      ensures content == if create && old(content) == None then Some(IntText(startingValue)) else old(content)
      ensures version == if r.Ok? then Some(r.value) else old(version)
    {
      if create && content == None {
        var val := Create();
        return Ok(val);
      }
      r := Parsed(content, startingValue);
      if r.Ok? {
        version := Some(r.value);
      }
    }

    method Increment(create: bool) returns (r: Result<int, VersionError>)
      modifies this
      ensures old(content) == None && create ==> r == Ok(startingValue + 1)
      ensures !(old(content) == None && create) ==>
                match Parsed(old(content), startingValue)
                case Ok(v) => r == Ok(v + 1)
                case Err(e) => r == Err(e)
      ensures r.Ok? ==> content == Some(IntText(r.value)) && version == Some(r.value)
      ensures r.Err? ==> content == old(content) && version == old(version)
    {
      if create && content == None {
        var start := Create();
        WrittenIsRead(start, startingValue);
      }
      var parsed := Parse(false);
      if parsed.Err? {
        return parsed;
      }
      SetValue(parsed.value + 1);
      r := Ok(parsed.value + 1);
    }
  }
}
