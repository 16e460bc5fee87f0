/** The comment lines every report starts with, three of which say what system the server is. */
module ReportHeader {
  import opened Text
  import opened ReportLines

  const SYSTEM_STR := "System"
  const LINUX_DISTRO_STR := "GNU/Linux distribution"
  const CPU_ARCHITECTURE_STR := "CPU architecture"
  const KEY_WIDTH := 24

  /** The other lines of a header, before and after those three. */
  datatype Notes = Notes(before: seq<string>, after: seq<string>)

  function Shown(value: string): string {
    if value == "" then "?" else value
  }

  /** `"# {:<24}: {}"` */
  function InfoLine(key: string, value: string): string {
    "# " + key + Repeat(' ', Padding(KEY_WIDTH, key)) + ": " + Shown(value)
  }

  predicate IsLetter(c: char) {
    'a' <= c <= 'z' || 'A' <= c <= 'Z'
  }

  /** `str.title` */
  function TitleCase(s: string): (t: string)
    ensures |t| == |s|
  {
    seq(|s|, i requires 0 <= i < |s| =>
      if !IsLetter(s[i]) then s[i]
      else if i > 0 && IsLetter(s[i - 1]) then (if 'A' <= s[i] <= 'Z' then s[i] - 'A' + 'a' else s[i])
      else (if 'a' <= s[i] <= 'z' then s[i] - 'a' + 'A' else s[i]))
  }

  /** The first letter of each run of letters becomes a capital and the others small ones; nothing else is changed. */
  lemma TitleExact(s: string, i: nat)
    requires i < |s|
    ensures SameButCase(TitleCase(s)[i], s[i])
    ensures 'A' <= TitleCase(s)[i] <= 'Z' <==>
              && ('a' <= s[i] <= 'z' || 'A' <= s[i] <= 'Z')
              && (i == 0 || !('a' <= s[i - 1] <= 'z' || 'A' <= s[i - 1] <= 'Z'))
  {
  }

  function IdentityLines(server: Host): seq<string> {
    [InfoLine(SYSTEM_STR, server.system), InfoLine(LINUX_DISTRO_STR, TitleCase(server.distro)),
     InfoLine(CPU_ARCHITECTURE_STR, server.machine)]
  }

  function HeaderLines(server: Host, notes: Notes): seq<string> {
    notes.before + IdentityLines(server) + notes.after
  }

  /** A blank line, or a comment that names none of the three. */
  predicate Harmless(raw: string) {
    var line := Strip(raw);
    line == "" || (line[0] == '#' && !Present(CommentValue(SYSTEM_STR, line))
                   && !Present(CommentValue(LINUX_DISTRO_STR, line))
                   && !Present(CommentValue(CPU_ARCHITECTURE_STR, line)))
  }

  predicate HarmlessNotes(notes: Notes) {
    (forall l :: l in notes.before ==> Harmless(l)) && (forall l :: l in notes.after ==> Harmless(l))
  }

  /** What the platform says is one line without white space at its ends. */
  predicate ValidIdentity(h: Host) {
    Trimmed(h.system) && Trimmed(h.distro) && Trimmed(h.machine)
  }

  /** The client is what the server is, case aside; what the server could not find out is a question mark to it. */
  predicate HostFits(server: Host, client: Host) {
    && Lower(client.system) == Lower(Shown(server.system))
    && Lower(client.distro) == Lower(Shown(server.distro))
    && Lower(client.machine) == Lower(Shown(server.machine))
  }

  /** The line is passed over whatever a report line is expected to hold. */
  predicate IsSkipped(raw: string, host: Host) {
    ReadLine(raw, 0, host) == Blank || ReadLine(raw, 0, host) == Comment
  }

  lemma SkippedAnyway(raw: string, n: nat, host: Host)
    ensures IsSkipped(raw, host) <==> ReadLine(raw, n, host) == Blank || ReadLine(raw, n, host) == Comment
    ensures IsSkipped(raw, host) ==> ReadLine(raw, n, host) == ReadLine(raw, 0, host)
  {
    hide Strip, Split, CommentFits;
  }

  lemma HarmlessIsSkipped(raw: string, host: Host)
    requires Harmless(raw)
    ensures IsSkipped(raw, host)
  {
    hide Strip, Split, CommentValue;
  }

  lemma {:induction false} LStripSpaces(n: nat, s: string)
    requires s != "" && !IsSpace(s[0])
    ensures LStrip(Repeat(' ', n) + s) == s
  {
    var t := Repeat(' ', n) + s;
    if n > 0 {
      assert t[1..] == Repeat(' ', n - 1) + s;
      LStripSpaces(n - 1, s);
    } else {
      assert t == s;
    }
  }

  /** What is behind the hash sign. */
  lemma BehindHash(u: string)
    requires u != "" && !IsSpace(u[0])
    ensures LStrip("# " + u) == "# " + u && ("# " + u)[0] == '#' && LStrip(("# " + u)[1..]) == u
  {
    assert ("# " + u)[1..] == " " + u && (" " + u)[1..] == u;
  }

  lemma ValueBehindColon(pad: nat, value: string)
    requires value != "" && !IsSpace(value[0])
    ensures LStrip(Repeat(' ', pad) + (": " + value)) == ": " + value
    ensures LStrip((": " + value)[1..]) == value
  {
    LStripSpaces(pad, ": " + value);
    assert (": " + value)[1..] == " " + value && (" " + value)[1..] == value;
  }

  function Behind(key: string, value: string): string {
    key + (Repeat(' ', Padding(KEY_WIDTH, key)) + (": " + Shown(value)))
  }

  lemma InfoLineIs(key: string, value: string)
    ensures InfoLine(key, value) == "# " + Behind(key, value)
  {
  }

  /** A key and its value are read back from the line; another name finds nothing in it. */
  lemma InfoLineReads(key: string, value: string)
    requires key != "" && !IsSpace(key[0]) && value != "" && Trimmed(value)
    ensures CommentValue(key, InfoLine(key, value)) == Some(value)
    ensures forall name: string :: name != "" && name[0] != key[0] ==> CommentValue(name, InfoLine(key, value)) == None
    ensures forall name: string :: |name| > 1 && |key| > 1 && name[1] != key[1] ==>
                CommentValue(name, InfoLine(key, value)) == None
  {
    hide LStrip, IsSpace, InfoLine, Padding;
    var u := Behind(key, value);
    assert u[0] == key[0] && (|key| > 1 ==> u[1] == key[1]);
    InfoLineIs(key, value);
    BehindHash(u);
    ValueBehindColon(Padding(KEY_WIDTH, key), value);
    assert u[|key|..] == Repeat(' ', Padding(KEY_WIDTH, key)) + (": " + value) && key <= u;
  }

  lemma InfoLineIsTrimmed(key: string, value: string)
    requires value != "" && Trimmed(value)
    ensures Strip(InfoLine(key, value)) == InfoLine(key, value) && InfoLine(key, value) != ""
            && InfoLine(key, value)[0] == '#'
  {
    var line := InfoLine(key, value);
    assert line[0] == '#' && line[|line| - 1] == value[|value| - 1];
    StripTrimmed(line);
  }

  lemma LowerTitle(s: string)
    ensures Lower(TitleCase(s)) == Lower(s) && (Trimmed(s) ==> Trimmed(TitleCase(s)))
    ensures Lower(Shown(TitleCase(s))) == Lower(Shown(s))
  {
  }

  /** Each of the three lines is passed over exactly when the client is the same in that respect. */
  lemma IdentityLineExact(server: Host, host: Host)
    requires ValidIdentity(server)
    ensures var s := IdentityLines(server);
            && (IsSkipped(s[0], host) <==> Lower(host.system) == Lower(Shown(server.system)))
            && (IsSkipped(s[1], host) <==> Lower(host.distro) == Lower(Shown(server.distro)))
            && (IsSkipped(s[2], host) <==> Lower(host.machine) == Lower(Shown(server.machine)))
            && forall i :: 0 <= i < 3 ==> IsSkipped(s[i], host) || ReadLine(s[i], 0, host) == ForeignSystem
  {
    hide TitleCase, IsSkipped, Lower;
    LowerTitle(server.distro);
    KeysApart();
    OneIdentityLine(SYSTEM_STR, server.system, host);
    OneIdentityLine(LINUX_DISTRO_STR, TitleCase(server.distro), host);
    OneIdentityLine(CPU_ARCHITECTURE_STR, server.machine, host);
  }

  /** What of the client the line with the key is about. */
  function Local(key: string, host: Host): string {
    if key == SYSTEM_STR then host.system else if key == LINUX_DISTRO_STR then host.distro else host.machine
  }

  lemma OneIdentityLine(key: string, value: string, host: Host)
    requires (key == SYSTEM_STR || key == LINUX_DISTRO_STR || key == CPU_ARCHITECTURE_STR) && Trimmed(value)
    ensures IsSkipped(InfoLine(key, value), host) <==> Lower(Local(key, host)) == Lower(Shown(value))
    ensures IsSkipped(InfoLine(key, value), host) || ReadLine(InfoLine(key, value), 0, host) == ForeignSystem
  {
    hide Strip, Split, CommentValue, Lower, IsSpace, InfoLine;
    KeysApart();
    ShownIsTrimmed(value);
    ShownLine(key, value);
    InfoLineIsTrimmed(key, Shown(value));
    InfoLineReads(key, Shown(value));
  }

  lemma KeysApart()
    ensures SYSTEM_STR[0] == 'S' && LINUX_DISTRO_STR[0] == 'G' && CPU_ARCHITECTURE_STR[0] == 'C'
    ensures |CPU_ARCHITECTURE_STR| > 1 && CPU_ARCHITECTURE_STR[1] == 'P'
    ensures !IsSpace('S') && !IsSpace('G') && !IsSpace('C')
  {
  }

  lemma ShownIsTrimmed(value: string)
    requires Trimmed(value)
    ensures Shown(value) != "" && Trimmed(Shown(value))
  {
  }

  lemma ShownLine(key: string, value: string)
    ensures InfoLine(key, value) == InfoLine(key, Shown(value)) && InfoLine(key, value) != ""
            && InfoLine(key, value)[0] == '#'
  {
  }

  /** A header is passed over exactly when the client is what the server is; else one of its lines ends the reading. */
  lemma HeaderExact(server: Host, notes: Notes, host: Host)
    requires ValidIdentity(server) && HarmlessNotes(notes)
    ensures (forall i :: 0 <= i < |HeaderLines(server, notes)| ==>
              IsSkipped(HeaderLines(server, notes)[i], host)) <==> HostFits(server, host)
    ensures forall i :: 0 <= i < |HeaderLines(server, notes)| ==>
              IsSkipped(HeaderLines(server, notes)[i], host)
                || ReadLine(HeaderLines(server, notes)[i], 0, host) == ForeignSystem
  {
    hide Harmless, IsSkipped, Lower, InfoLine, ReadLine;
    IdentityLineExact(server, host);
    var lines, own := HeaderLines(server, notes), IdentityLines(server);
    var n := |notes.before|;
    forall i | 0 <= i < |lines| && !(n <= i < n + 3) ensures IsSkipped(lines[i], host) {
      assert lines[i] == if i < n then notes.before[i] else notes.after[i - n - 3];
      HarmlessIsSkipped(lines[i], host);
    }
    assert lines[n] == own[0] && lines[n + 1] == own[1] && lines[n + 2] == own[2];
  }

  /** A client on the server's own machine fits it exactly when the machine could say what it is. */
  lemma OwnHostExact(h: Host)
    ensures HostFits(h, h) <==> h.system != "" && h.distro != "" && h.machine != ""
  {
    assert |Lower("?")| == 1 && Lower("") == "";
  }

  /** The keys of the other lines of that form. */
  const OTHER_KEYS: seq<string> := [
    "From database version", "To database version", "Local creation time", "Creation date", "UTC creation time",
    "UTC creation date", "Hostname", "Python implementation", "Python version", "Python compiler"]

  /** They name none of the three, whatever their values. */
  lemma OtherInfoIsHarmless(i: nat, value: string)
    requires i < |OTHER_KEYS| && value != "" && Trimmed(value)
    ensures Harmless(InfoLine(OTHER_KEYS[i], value))
  {
    hide Harmless, IsSpace;
    OtherKey(i);
    NamesNothing(OTHER_KEYS[i], value);
  }

  lemma OtherKey(i: nat)
    requires i < |OTHER_KEYS|
    ensures var key := OTHER_KEYS[i];
            && |key| > 1 && !IsSpace(key[0]) && key[0] != 'S' && key[0] != 'G'
            && (key[0] != 'C' || key[1] != 'P')
  {
  }

  lemma NamesNothing(key: string, value: string)
    requires |key| > 1 && !IsSpace(key[0]) && key[0] != 'S' && key[0] != 'G' && (key[0] != 'C' || key[1] != 'P')
    requires value != "" && Trimmed(value)
    ensures Harmless(InfoLine(key, value))
  {
    hide Strip, CommentValue, IsSpace, InfoLine;
    KeysApart();
    InfoLineReads(key, value);
    InfoLineIsTrimmed(key, value);
  }
}
