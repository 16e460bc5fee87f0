/** The list of packages appended to the download command: trimming in place, and the buffer that grows. */
module PackagesManager {
  import opened Text

  const MIN_LEN := 4096
  const RESIZE_FACTOR := 2

  /******* strings in memory *******/

  /** The string at index i of the array, with its terminating null. */
  ghost predicate IsCString(a: array<char>, i: nat, s: string)
    reads a
  {
    i + |s| < a.Length && NUL !in s && a[i..i + |s|] == s && a[i + |s|] == NUL
  }

  lemma CStringChars(a: array<char>, i: nat, s: string)
    requires IsCString(a, i, s)
    ensures forall k :: 0 <= k < |s| ==> a[i + k] == s[k] && a[i + k] != NUL
    ensures a[i + |s|] == NUL
  {
    forall k | 0 <= k < |s| ensures a[i + k] == s[k] && a[i + k] != NUL {
      assert a[i..i + |s|][k] == s[k] && s[k] in s;
    }
  }

  /** `isspace` in the C locale. */
  predicate CSpace(c: char) {
    c == ' ' || '\t' as int <= c as int <= '\r' as int
  }

  function TrimLeft(s: string): string {
    if s != "" && CSpace(s[0]) then TrimLeft(s[1..]) else s
  }

  function TrimRight(s: string): string {
    if s != "" && CSpace(s[|s| - 1]) then TrimRight(s[..|s| - 1]) else s
  }

  function Trim(s: string): string {
    TrimRight(TrimLeft(s))
  }

  predicate AllSpace(s: string) {
    forall i :: 0 <= i < |s| ==> CSpace(s[i])
  }

  lemma {:induction false} TrimLeftSplits(s: string) returns (white: string)
    ensures s == white + TrimLeft(s) && AllSpace(white)
    ensures TrimLeft(s) != "" ==> !CSpace(TrimLeft(s)[0])
  {
    if s != "" && CSpace(s[0]) {
      var rest := TrimLeftSplits(s[1..]);
      white := [s[0]] + rest;
      assert s == [s[0]] + s[1..];
    } else {
      white := "";
    }
  }

  lemma {:induction false} TrimRightSplits(s: string) returns (white: string)
    ensures s == TrimRight(s) + white && AllSpace(white)
    ensures TrimRight(s) != "" ==> !CSpace(TrimRight(s)[|TrimRight(s)| - 1]) && s != "" && TrimRight(s)[0] == s[0]
  {
    if s != "" && CSpace(s[|s| - 1]) {
      var rest := TrimRightSplits(s[..|s| - 1]);
      white := rest + [s[|s| - 1]];
      assert s == s[..|s| - 1] + [s[|s| - 1]];
    } else {
      white := "";
    }
  }

  /** Trimming takes white space off both ends, all of it, and nothing else. */
  lemma TrimExact(s: string) returns (before: string, after: string)
    ensures s == before + Trim(s) + after && AllSpace(before) && AllSpace(after)
    ensures Trim(s) != "" ==> !CSpace(Trim(s)[0]) && !CSpace(Trim(s)[|Trim(s)| - 1])
  {
    before := TrimLeftSplits(s);
    after := TrimRightSplits(TrimLeft(s));
  }

  method SkipSpace(str: array<char>, ghost s: string) returns (beg: nat)
    requires IsCString(str, 0, s)
    ensures beg <= |s| && TrimLeft(s) == s[beg..] && IsCString(str, beg, s[beg..])
  {
    CStringChars(str, 0, s);
    beg := 0;
    while CSpace(str[beg])
      invariant beg <= |s| && TrimLeft(s[beg..]) == TrimLeft(s)
      decreases |s| - beg
    {
      assert s[beg..][1..] == s[beg + 1..];
      beg := beg + 1;
    }
    assert s[beg..] == str[0..|s|][beg..];
  }

  /** `strlen` of the string at i. */
  method CLength(a: array<char>, i: nat, ghost s: string) returns (n: nat)
    requires IsCString(a, i, s)
    ensures n == |s|
  {
    CStringChars(a, i, s);
    n := 0;
    while a[i + n] != NUL
      invariant n <= |s|
      decreases |s| - n
    {
      n := n + 1;
    }
  }

  /** The last character that is no white space; the first one is none. */
  method LastNonSpace(str: array<char>, beg: nat, len: nat, ghost s: string) returns (end: nat)
    requires IsCString(str, beg, s) && len == |s| && s != "" && !CSpace(s[0])
    ensures beg <= end < beg + |s| && s[..end - beg + 1] == TrimRight(s)
  {
    CStringChars(str, beg, s);
    var at := len - 1;
    assert s[..len] == s;
    while at > 0 && CSpace(str[beg + at])
      invariant 0 <= at < |s| && TrimRight(s[..at + 1]) == TrimRight(s)
    {
      assert s[..at + 1][..at] == s[..at];
      at := at - 1;
    }
    end := beg + at;
  }

  /** Moves the start of the string and puts the null where the white space at its end begins. */
  method TrimWhitespace(str: array<char>, ghost s: string) returns (beg: nat)
    requires IsCString(str, 0, s)
    modifies str
    ensures IsCString(str, beg, Trim(s))
  {
    hide TrimRight, TrimLeft;
    beg := SkipSpace(str, s);
    ghost var rest := s[beg..];
    var len := CLength(str, beg, rest);
    if len == 0 {
      EmptyTrims();
      return;
    }
    ghost var white := TrimLeftSplits(s);
    var end := LastNonSpace(str, beg, len, rest);
    ghost var kept := rest[..end - beg + 1];
    assert str[beg..end + 1] == str[beg..beg + |rest|][..end - beg + 1] == kept;
    str[end + 1] := NUL;
    assert str[beg..beg + |kept|] == kept;
  }

  lemma EmptyTrims()
    ensures TrimRight("") == ""
  {
  }

  /******* which lines are kept *******/

  /** `[[:alnum:][:alpha:]\-\_\.\+]`: in the brackets a backslash stands for itself, so `\-\` is the range from
      backslash to backslash, and the dash is in none of the ranges. */
  predicate ValidChar(c: char) {
    'a' <= c <= 'z' || 'A' <= c <= 'Z' || '0' <= c <= '9' || c == '\\' || c == '_' || c == '.' || c == '+'
  }

  predicate ValidName(s: string) {
    s != "" && forall i :: 0 <= i < |s| ==> ValidChar(s[i])
  }

  /** The characters the pattern names: letters, digits, dash, underscore, dot and plus. */
  predicate MeantChar(c: char) {
    'a' <= c <= 'z' || 'A' <= c <= 'Z' || '0' <= c <= '9' || c == '-' || c == '_' || c == '.' || c == '+'
  }

  predicate MeantName(s: string) {
    s != "" && forall i :: 0 <= i < |s| ==> MeantChar(s[i])
  }

  /** A name that is no comment and that the package manager knows. */
  predicate Candidate(name: string, known: string -> bool) {
    name != "" && name[0] != '#' && known(name)
  }

  /** What the code keeps: the package manager is asked only for names the pattern accepts. */
  function Keeping(known: string -> bool): string -> bool {
    name => Candidate(name, known) && ValidName(name)
  }

  /** What it would keep if the pattern accepted what it names. */
  function Meaning(known: string -> bool): string -> bool {
    name => Candidate(name, known) && MeantName(name)
  }

  /** What a config set adds to the command: a space and a name for each line kept, in order. */
  function Appended(lines: seq<string>, keep: string -> bool): string {
    if lines == [] then ""
    else
      var name := Trim(lines[|lines| - 1]);
      Appended(lines[..|lines| - 1], keep) + if keep(name) then " " + name else ""
  }

  /******* the buffer *******/

  function Power2(n: nat): nat {
    if n == 0 then 1 else 2 * Power2(n - 1)
  }

  function Max(a: nat, b: nat): nat {
    if a > b then a else b
  }

  /** `realloc` to a larger size keeps the content. */
  method Realloc(a: array<char>, size: nat) returns (b: array<char>)
    requires size >= a.Length
    ensures fresh(b) && b.Length == size && b[..a.Length] == a[..]
  {
    b := new char[size](i requires 0 <= i < size reads a => if i < a.Length then a[i] else NUL);
  }

  /** The lengths that were needed when the buffer was made larger, one after the other. */
  ghost predicate Doubling(needed: seq<nat>) {
    forall r :: 0 <= r < |needed| ==> needed[r] >= MIN_LEN * Power2(r)
  }

  lemma OneMoreNeeded(needed: seq<nat>, k: nat)
    requires Doubling(needed) && k >= MIN_LEN * Power2(|needed|)
    ensures Doubling(needed + [k]) && Power2(|needed + [k]|) == 2 * Power2(|needed|)
  {
  }

  method AppendPkg(cmd: array<char>, cmdLen: nat, name: string, ghost text: string, ghost needed: seq<nat>)
    returns (r: array<char>, ghost more: seq<nat>)
    requires IsCString(cmd, 0, text) && cmdLen == |text| && NUL !in name
    requires cmd.Length >= MIN_LEN * Power2(|needed|) && Doubling(needed)
    modifies cmd
    ensures IsCString(r, 0, text + " " + name) && (r == cmd || fresh(r))
    ensures r.Length >= MIN_LEN * Power2(|more|) && Doubling(more) && needed <= more
    ensures r.Length > cmd.Length <==> more != needed
  {
    hide Power2, Doubling;
    var n := |name|;
    var k := cmdLen + n + 2;
    r, more := cmd, needed;
    assert cmd[..cmdLen] == cmd[0..|text|] == text;
    if k >= cmd.Length {
      OneMoreNeeded(needed, k);
      r := Realloc(cmd, Max(k, RESIZE_FACTOR * cmd.Length));
      more := needed + [k];
      assert r[..cmdLen] == r[..cmd.Length][..cmdLen];
    }
    assert r[..cmdLen] == text;
    r[cmdLen] := ' ';
    for i := 0 to n
      invariant r[..cmdLen] == text && r[cmdLen] == ' '
      invariant forall j :: 0 <= j < i ==> r[cmdLen + 1 + j] == name[j]
    {
      r[cmdLen + 1 + i] := name[i];
    }
    r[cmdLen + n + 1] := NUL;
    var after := text + " " + name;
    assert r[0..|after|] == after;
  }

  /** The command ends as it was, followed by a space and the name for each line kept. Every store is inside the
      buffer; it is enlarged the r-th time only when 4096 * 2^(r-1) characters or more are needed. */
  method AppendPkgList(lines: seq<string>, known: string -> bool, downloadCmd: array<char>, ghost prefix: string)
    returns (cmd: array<char>, ghost needed: seq<nat>)
    requires downloadCmd.Length >= MIN_LEN && IsCString(downloadCmd, 0, prefix)
    requires forall i :: 0 <= i < |lines| ==> NUL !in lines[i]
    modifies downloadCmd
    ensures IsCString(cmd, 0, prefix + Appended(lines, Keeping(known)))
    ensures cmd.Length >= MIN_LEN * Power2(|needed|) && Doubling(needed)
  {
    hide Trim, Doubling, Candidate, ValidName, Appended, IsCString, Power2;
    cmd, needed := downloadCmd, [];
    NothingNeeded(lines, Keeping(known));
    assert prefix + "" == prefix;
    var cmdLen := CLength(cmd, 0, prefix);
    ghost var text := prefix;
    for i := 0 to |lines|
      invariant text == prefix + Appended(lines[..i], Keeping(known)) && IsCString(cmd, 0, text) && cmdLen == |text|
      invariant cmd == downloadCmd || fresh(cmd)
      invariant cmd.Length >= MIN_LEN * Power2(|needed|) && Doubling(needed)
    {
      AppendedStep(lines, Keeping(known), i);
      var name := TrimmedLine(lines[i]);
      if !(Candidate(name, known) && ValidName(name)) {
        continue;
      }
      cmd, needed := AppendPkg(cmd, cmdLen, name, text, needed);
      text := text + " " + name;
      cmdLen := cmdLen + |name| + 1;
    }
    assert lines[..|lines|] == lines;
  }

  lemma NothingNeeded(lines: seq<string>, keep: string -> bool)
    ensures Doubling([]) && Power2(0) == 1 && Appended(lines[..0], keep) == ""
  {
  }

  lemma AppendedStep(lines: seq<string>, keep: string -> bool, i: nat)
    requires i < |lines|
    ensures Appended(lines[..i + 1], keep) ==
              Appended(lines[..i], keep) + if keep(Trim(lines[i])) then " " + Trim(lines[i]) else ""
    ensures !keep(Trim(lines[i])) ==> Appended(lines[..i + 1], keep) == Appended(lines[..i], keep)
  {
    hide Trim;
    assert lines[..i + 1][..i] == lines[..i];
  }

  /** The line in the buffer `fgets` fills, trimmed there. */
  method TrimmedLine(line: string) returns (name: string)
    requires NUL !in line
    ensures name == Trim(line) && NUL !in name
  {
    var pkgName := new char[|line| + 1](i requires 0 <= i < |line| + 1 => if i < |line| then line[i] else NUL);
    assert pkgName[0..|line|] == line;
    var beg := TrimWhitespace(pkgName, line);
    ghost var t := Trim(line);
    var n := CLength(pkgName, beg, t);
    name := pkgName[beg..beg + n];
  }

  /** Of each line kept the name is in the command behind a space; nothing but those is appended. */
  lemma {:induction false} AppendedHas(lines: seq<string>, keep: string -> bool, i: nat)
    returns (before: string, after: string)
    requires i < |lines| && keep(Trim(lines[i]))
    ensures Appended(lines, keep) == before + " " + Trim(lines[i]) + after
  {
    var n := |lines| - 1;
    if i == n {
      before, after := Appended(lines[..n], keep), "";
    } else {
      before, after := AppendedHas(lines[..n], keep, i);
      after := after + if keep(Trim(lines[n])) then " " + Trim(lines[n]) else "";
    }
  }

  lemma {:induction false} AppendedConcat(a: seq<string>, b: seq<string>, keep: string -> bool)
    ensures Appended(a + b, keep) == Appended(a, keep) + Appended(b, keep)
  {
    hide Trim;
    if b == [] {
      assert a + b == a;
    } else {
      assert (a + b)[..|a + b| - 1] == a + b[..|b| - 1];
      AppendedConcat(a, b[..|b| - 1], keep);
    }
  }

  /** Exactly what one line of the file does: its trimmed text is appended behind a space if the package manager knows
      it, it is neither empty nor a comment, and each character is a letter, a digit, a backslash or one of `_.+`. */
  lemma LineExact(before: seq<string>, line: string, after: seq<string>, known: string -> bool)
    ensures Appended(before + [line] + after, Keeping(known)) ==
              Appended(before, Keeping(known))
              + (if known(Trim(line)) && Trim(line) != "" && Trim(line)[0] != '#'
                    && forall i :: 0 <= i < |Trim(line)| ==>
                         var c := Trim(line)[i];
                         'a' <= c <= 'z' || 'A' <= c <= 'Z' || '0' <= c <= '9' || c in ['\\', '_', '.', '+']
                 then " " + Trim(line) else "")
              + Appended(after, Keeping(known))
  {
    hide Trim, Appended;
    AppendedConcat(before + [line], after, Keeping(known));
    AppendedConcat(before, [line], Keeping(known));
    AppendedOne(line, Keeping(known));
  }

  /** A character that no kept name has is not appended. */
  lemma {:induction false} NeverAppended(lines: seq<string>, keep: string -> bool, c: char)
    requires c != ' ' && forall name :: keep(name) ==> c !in name
    ensures c !in Appended(lines, keep)
  {
    hide Trim;
    if lines != [] {
      NeverAppended(lines[..|lines| - 1], keep, c);
    }
  }

  lemma {:induction false} SameAppended(lines: seq<string>, a: string -> bool, b: string -> bool)
    requires forall i :: 0 <= i < |lines| ==> a(Trim(lines[i])) == b(Trim(lines[i]))
    ensures Appended(lines, a) == Appended(lines, b)
  {
    hide Trim;
    if lines != [] {
      var init := lines[..|lines| - 1];
      assert forall i :: 0 <= i < |init| ==> init[i] == lines[i];
      SameAppended(init, a, b);
    }
  }

  /** The pattern does to the line what it means to: no dash in a meant name, no backslash in an accepted one. */
  predicate LineAsMeant(line: string, known: string -> bool) {
    var name := Trim(line);
    Candidate(name, known) ==> (MeantName(name) ==> '-' !in name) && (ValidName(name) ==> '\\' !in name)
  }

  /** The command is what the pattern means to give exactly when no known package of the config set with a meant name
      has a dash in it, and none with an accepted name a backslash. */
  lemma AsMeantExact(lines: seq<string>, known: string -> bool)
    ensures Appended(lines, Keeping(known)) == Appended(lines, Meaning(known)) <==>
            forall i :: 0 <= i < |lines| ==> LineAsMeant(lines[i], known)
  {
    hide LineAsMeant, Appended;
    if forall i :: 0 <= i < |lines| ==> LineAsMeant(lines[i], known) {
      AllAsMeant(lines, known);
    } else {
      var i :| 0 <= i < |lines| && !LineAsMeant(lines[i], known);
      OneNotAsMeant(lines, known, i);
    }
  }

  lemma AllAsMeant(lines: seq<string>, known: string -> bool)
    requires forall i :: 0 <= i < |lines| ==> LineAsMeant(lines[i], known)
    ensures Appended(lines, Keeping(known)) == Appended(lines, Meaning(known))
  {
    hide Trim, Candidate, ValidName, MeantName, Appended;
    forall i | 0 <= i < |lines| ensures Keeping(known)(Trim(lines[i])) == Meaning(known)(Trim(lines[i])) {
      assert LineAsMeant(lines[i], known);
      if Candidate(Trim(lines[i]), known) {
        NamesAgree(Trim(lines[i]));
      }
    }
    SameAppended(lines, Keeping(known), Meaning(known));
  }

  lemma OneNotAsMeant(lines: seq<string>, known: string -> bool, i: nat)
    requires i < |lines| && !LineAsMeant(lines[i], known)
    ensures Appended(lines, Keeping(known)) != Appended(lines, Meaning(known))
  {
    hide Trim, Candidate, ValidName, MeantName, Appended;
    var name := Trim(lines[i]);
    if MeantName(name) && '-' in name {
      forall other | Keeping(known)(other) ensures '-' !in other {
        NamesLack(other);
      }
      NeverAppended(lines, Keeping(known), '-');
      var before, after := AppendedHas(lines, Meaning(known), i);
    } else {
      forall other | Meaning(known)(other) ensures '\\' !in other {
        NamesLack(other);
      }
      NeverAppended(lines, Meaning(known), '\\');
      var before, after := AppendedHas(lines, Keeping(known), i);
    }
  }

  lemma NamesLack(name: string)
    ensures (ValidName(name) ==> '-' !in name) && (MeantName(name) ==> '\\' !in name)
  {
  }

  lemma NamesAgree(name: string)
    requires (MeantName(name) ==> '-' !in name) && (ValidName(name) ==> '\\' !in name)
    ensures MeantName(name) <==> ValidName(name)
  {
    if MeantName(name) {
      forall i | 0 <= i < |name| ensures ValidChar(name[i]) {
        assert name[i] in name && MeantChar(name[i]);
      }
    }
    if ValidName(name) {
      forall i | 0 <= i < |name| ensures MeantChar(name[i]) {
        assert name[i] in name && ValidChar(name[i]);
      }
    }
  }

  /** A config set with the one package `apt-utils` appends nothing. */
  lemma DashIsLost(known: string -> bool)
    requires known("apt-utils")
    ensures Appended(["apt-utils"], Keeping(known)) == "" && Appended(["apt-utils"], Meaning(known)) == " apt-utils"
  {
    hide Trim, ValidName, MeantName;
    var name := "apt-utils";
    UtilsIsMeant();
    AppendedOne(name, Keeping(known));
    AppendedOne(name, Meaning(known));
  }

  lemma AppendedOne(line: string, keep: string -> bool)
    ensures Appended([line], keep) == if keep(Trim(line)) then " " + Trim(line) else ""
  {
    hide Trim;
    assert [line][..0] == [] && Appended([], keep) == "";
  }

  lemma UtilsIsMeant()
    ensures var name := "apt-utils"; Trim(name) == name && MeantName(name) && !ValidName(name)
  {
    var name := "apt-utils";
    assert TrimLeft(name) == name && TrimRight(name) == name;
    assert !ValidChar(name[3]);
  }
}
