/** The transfer of an archive in an UPGRADE_RESPONSE packet: the two loops, and both ends in every interleaving. */
module Transfer {
  import opened BulkIo

  const CHUNK := 0x10_0000
  const HEADER_LEN := 4
  /** The length field is written after the header; the packet is four bytes longer than the two. */
  const RESPONSE_LEN := 16
  const UPGRADE_RESPONSE := 1
  const PROTO_VER := 1
  const TWO64: nat := 0x1_0000_0000_0000_0000
  const TWO63: nat := 0x8000_0000_0000_0000

  type U64 = n: nat | n < 0x1_0000_0000_0000_0000

  /** Subtraction in a 64-bit counter. */
  function Minus(a: U64, n: nat): U64 {
    (a - n) % TWO64
  }

  /******* the packet *******/

  /** `htobe64`, for a number of k bytes. */
  function BigEndian(n: nat, k: nat): (s: seq<Byte>)
    ensures |s| == k
  {
    if k == 0 then [] else BigEndian(n / 256, k - 1) + [n % 256]
  }

  function FromBigEndian(s: seq<Byte>): nat {
    if s == [] then 0 else FromBigEndian(s[..|s| - 1]) * 256 + s[|s| - 1]
  }

  function Power256(k: nat): nat {
    if k == 0 then 1 else 256 * Power256(k - 1)
  }

  lemma {:induction false} BigEndianRoundTrip(n: nat, k: nat)
    requires n < Power256(k)
    ensures FromBigEndian(BigEndian(n, k)) == n
  {
    if k > 0 {
      BigEndianRoundTrip(n / 256, k - 1);
      var s := BigEndian(n, k);
      assert s[..|s| - 1] == BigEndian(n / 256, k - 1);
    }
  }

  lemma Power256Of8()
    ensures Power256(8) == TWO64
  {
    assert Power256(4) == 256 * (256 * (256 * 256));
  }

  function Packet(len: U64): (s: seq<Byte>)
    ensures |s| == RESPONSE_LEN
  {
    [PROTO_VER * 16, 0] + BigEndian(UPGRADE_RESPONSE, 2) + BigEndian(len, 8) + [0, 0, 0, 0]
  }

  function PacketType(packet: seq<Byte>): nat
    requires |packet| == RESPONSE_LEN
  {
    FromBigEndian(packet[2..HEADER_LEN])
  }

  function PacketLength(packet: seq<Byte>): (n: nat)
    requires |packet| == RESPONSE_LEN
    ensures n < 0x1_0000_0000_0000_0000
  {
    FromBigEndianBound(packet[HEADER_LEN..HEADER_LEN + 8]);
    Power256Of8();
    FromBigEndian(packet[HEADER_LEN..HEADER_LEN + 8])
  }

  lemma {:induction false} FromBigEndianBound(s: seq<Byte>)
    ensures FromBigEndian(s) < Power256(|s|)
  {
    if s != [] { FromBigEndianBound(s[..|s| - 1]); }
  }

  /** The client reads the type and the length that the server wrote, for every 64-bit length. */
  lemma PacketIsRead(len: U64)
    ensures PacketType(Packet(len)) == UPGRADE_RESPONSE && PacketLength(Packet(len)) == len
  {
    var p := Packet(len);
    assert p[2..4] == BigEndian(1, 2) && p[4..12] == BigEndian(len, 8);
    Power256Of8();
    assert Power256(2) == 256 * 256;
    BigEndianRoundTrip(1, 2);
    BigEndianRoundTrip(len, 8);
  }

  /******* the steps of both ends *******/

  /** `wire`: sent and not yet read. The counters are those of the two loops. */
  datatype State = State(
    announced: bool, sent: nat, left: U64, senderFailed: bool,
    wire: seq<Byte>,
    accepted: bool, written: seq<Byte>, remaining: U64, receiverFailed: bool)

  datatype Action =
    | SendPacket(n: nat)
    | SendPart(n: nat)
    | SenderFails
    | ReadPacket(n: nat)
    | ReadPart(n: nat)
    | ReceiverFails(n: nat, kept: nat)

  const START := State(false, 0, 0, false, [], false, [], 0, false)

  function Chunk(archive: seq<Byte>, s: State): nat {
    if s.sent <= |archive| then Min(CHUNK, |archive| - s.sent) else 0
  }

  /** One step of either end. A call may deliver any part of what it is asked for; a partial send and a short packet
      make their end give up. The receiver may fail even then when all is written: the file may not be closed. */
  predicate Next(archive: seq<Byte>, s: State, a: Action, t: State) {
    match a
    case SendPacket(n) =>
      && !s.senderFailed && !s.announced && 0 < n <= RESPONSE_LEN
      && t == if n < RESPONSE_LEN
              then s.(wire := s.wire + Packet(|archive| % TWO64)[..n], senderFailed := true)
              else s.(wire := s.wire + Packet(|archive| % TWO64), announced := true, left := |archive| % TWO64)
    case SendPart(n) =>
      && !s.senderFailed && s.announced && s.left > 0 && 0 < n <= Chunk(archive, s)
      && t == s.(wire := s.wire + archive[s.sent..s.sent + n], sent := s.sent + n, left := Minus(s.left, n),
                 senderFailed := n != Chunk(archive, s))
    case SenderFails => !s.senderFailed && !(s.announced && s.left == 0) && t == s.(senderFailed := true)
    case ReadPacket(n) =>
      && !s.receiverFailed && !s.accepted && 0 < n <= Min(RESPONSE_LEN, |s.wire|)
      && t == if n < RESPONSE_LEN || PacketType(s.wire[..RESPONSE_LEN]) != UPGRADE_RESPONSE
              then s.(wire := s.wire[n..], receiverFailed := true)
              else s.(wire := s.wire[n..], accepted := true, remaining := PacketLength(s.wire[..RESPONSE_LEN]))
    case ReadPart(n) =>
      && !s.receiverFailed && s.accepted && s.remaining > 0 && 0 < n <= Min(CHUNK, |s.wire|)
      && t == s.(wire := s.wire[n..], written := s.written + s.wire[..n], remaining := Minus(s.remaining, n))
    case ReceiverFails(n, kept) =>
      && !s.receiverFailed && kept <= n <= |s.wire| && (s.accepted || kept == 0)
      && t == s.(wire := s.wire[n..], written := s.written + s.wire[..kept], receiverFailed := true)
  }

  ghost predicate StepsOf(archive: seq<Byte>, states: seq<State>, actions: seq<Action>) {
    && |states| == |actions| + 1
    && forall i :: 0 <= i < |actions| ==> Next(archive, states[i], actions[i], states[i + 1])
  }

  ghost predicate RunOf(archive: seq<Byte>, states: seq<State>, actions: seq<Action>) {
    StepsOf(archive, states, actions) && states[0] == START
  }

  predicate SenderDone(s: State) {
    s.announced && s.left == 0 && !s.senderFailed
  }

  predicate ReceiverDone(s: State) {
    s.accepted && s.remaining == 0 && !s.receiverFailed
  }

  /** States with the actions between them. */
  datatype Trace = Trace(states: seq<State>, actions: seq<Action>)

  predicate OfReceiver(a: Action) {
    a.ReadPacket? || a.ReadPart? || a.ReceiverFails?
  }

  /** A path of steps of the receiver; these do not depend on the archive. */
  ghost predicate ReceiverTrace(t: Trace) {
    StepsOf([], t.states, t.actions) && forall i :: 0 <= i < |t.actions| ==> OfReceiver(t.actions[i])
  }

  lemma NoSteps(s: State)
    ensures ReceiverTrace(Trace([s], []))
  {
  }

  function Longer(t: Trace, a: Action, s: State): Trace {
    Trace(t.states + [s], t.actions + [a])
  }

  lemma OneMoreStep(archive: seq<Byte>, t: Trace, a: Action, s: State)
    requires StepsOf(archive, t.states, t.actions) && Next(archive, t.states[|t.actions|], a, s)
    ensures var next := Longer(t, a, s); StepsOf(archive, next.states, next.actions) && next.states[0] == t.states[0]
    ensures archive == [] && ReceiverTrace(t) && OfReceiver(a) ==> ReceiverTrace(Longer(t, a, s))
  {
    hide Next;
  }

  /******* the sender's loop *******/

  /** The stream to the peer: `ssl_send` sends at least one byte or fails; `short` counts the calls that did not send
      all they were asked to. */
  class Outbox {
    var sent: seq<Byte>
    ghost var short: nat

    method SslSend(buf: array<Byte>, n: nat) returns (c: int)
      requires 0 < n <= buf.Length
      modifies this
      ensures short == old(short) + if c < n then 1 else 0
      ensures c == -1 || 0 < c <= n
      ensures sent == old(sent) + if c > 0 then buf[..c] else []
    {
      c :| -1 <= c <= n && c != 0;
      if c < n {
        short := short + 1;
      }
      if c > 0 {
        sent := sent + buf[..c];
      }
    }
  }

  /** The announced length goes well with a file that has exactly that length, and with a longer one if the length
      is a whole number of chunks. */
  predicate Sendable(len: nat, fileLen: nat) {
    len == fileLen || (len % CHUNK == 0 && len <= fileLen)
  }

  /** Where the loop stands: at a whole number of chunks, or at the end of the file. */
  predicate LoopAt(len: nat, fileLen: nat, offset: nat) {
    && offset <= fileLen
    && (offset % CHUNK == 0 || offset == fileLen)
    && (len % CHUNK == 0 && len <= fileLen ==> offset <= len)
  }

  lemma LoopMovesOn(len: nat, fileLen: nat, offset: nat)
    requires LoopAt(len, fileLen, offset) && offset != len && offset < fileLen
    ensures LoopAt(len, fileLen, offset + Min(CHUNK, fileLen - offset))
  {
    var k, m := offset / CHUNK, len / CHUNK;
    assert offset == k * CHUNK;
    if len % CHUNK == 0 && len <= fileLen {
      assert len == m * CHUNK && k < m;
      assert (k + 1) * CHUNK <= m * CHUNK;
    }
    assert (offset + CHUNK) % CHUNK == 0;
  }

  lemma LoopEnds(len: nat, fileLen: nat, offset: nat)
    requires LoopAt(len, fileLen, offset)
    ensures offset == len ==> Sendable(len, fileLen)
    ensures offset == fileLen && offset != len ==> !Sendable(len, fileLen)
  {
  }

  /** Counting down in parts is counting down at once. */
  lemma MinusMore(a: U64, k: nat, n: nat)
    ensures Minus(Minus(a, k), n) == Minus(a, k + n) && Minus(a, 0) == a
  {
  }

  /** A counter that shows zero has counted down to zero: the file is too short for it to come round again. */
  lemma ZeroIsZero(len: U64, offset: nat)
    requires offset < TWO63
    ensures Minus(len, offset) == 0 <==> offset == len
  {
  }

  /** Whatever happens, what was sent is a part of the packet and the file, from the start. Sending succeeds exactly if
      no call fails or falls short and the length goes well with the file; for such a length, exactly if all that was
      announced was sent. With any other length the whole file is sent before it fails, and the counter may wrap. */
  method SendUpgradeResponse(out: Outbox, len: U64, f: File) returns (r: int)
    requires |f.content| < TWO63
    modifies out, f`failures
    ensures r == 0 || r == -1
    ensures old(out.sent) <= out.sent <= old(out.sent) + Packet(len) + f.content
    ensures r == 0 <==>
            out.short == old(out.short) && f.failures == old(f.failures) && Sendable(len, |f.content|)
    ensures Sendable(len, |f.content|) ==>
              len <= |f.content| && (r == 0 <==> out.sent == old(out.sent) + Packet(len) + f.content[..len])
    ensures !Sendable(len, |f.content|) && out.short == old(out.short) && f.failures == old(f.failures) ==>
              out.sent == old(out.sent) + Packet(len) + f.content
  {
    hide Packet, LoopAt, Sendable, Minus;
    var buf := new Byte[CHUNK](_ => 0);
    SendableFits(len, |f.content|);
    var c := SendHeader(out, buf, len);
    if c < RESPONSE_LEN {
      return -1;
    }
    ghost var start := out.sent;
    var left: U64, offset: nat := len, 0;
    FirstLoop(len, |f.content|);
    MinusMore(len, 0, 0);
    while left > 0
      invariant LoopAt(len, |f.content|, offset) && offset <= |f.content|
      invariant left == Minus(len, offset)
      invariant out.sent == start + f.content[..offset]
      invariant out.short == old(out.short) && f.failures == old(f.failures)
      decreases |f.content| - offset
    {
      ZeroIsZero(len, offset);
      LoopEnds(len, |f.content|, offset);
      LoopStaysBelow(len, |f.content|, offset);
      var readBytes, sendBytes := SendChunk(out, buf, f, offset);
      if readBytes == 0 {
        assert f.content[..offset] == f.content;
        return -1;
      }
      if sendBytes < 0 {
        return -1;
      }
      MinusMore(len, offset, sendBytes);
      left := Minus(left, sendBytes);
      if sendBytes != readBytes {
        return -1;
      }
      LoopMovesOn(len, |f.content|, offset);
      offset := offset + readBytes;
    }
    ZeroIsZero(len, offset);
    LoopEnds(len, |f.content|, offset);
    r := 0;
  }

  lemma SendableFits(len: nat, fileLen: nat)
    ensures Sendable(len, fileLen) ==> len <= fileLen
  {
  }

  /** A round for a length that goes well with the file does not go beyond it. */
  lemma LoopStaysBelow(len: nat, fileLen: nat, offset: nat)
    requires LoopAt(len, fileLen, offset) && offset != len
    ensures Sendable(len, fileLen) ==> offset + Min(CHUNK, fileLen - offset) <= len
  {
    if len != fileLen && Sendable(len, fileLen) {
      var k, m := offset / CHUNK, len / CHUNK;
      assert offset == k * CHUNK && len == m * CHUNK && k < m;
      assert (k + 1) * CHUNK <= m * CHUNK;
    }
  }

  lemma FirstLoop(len: nat, fileLen: nat)
    ensures LoopAt(len, fileLen, 0)
  {
  }

  method SendHeader(out: Outbox, buf: array<Byte>, len: U64) returns (c: int)
    requires buf.Length >= RESPONSE_LEN
    modifies buf, out
    ensures c == -1 || 0 < c <= RESPONSE_LEN
    ensures out.sent == old(out.sent) + if c > 0 then Packet(len)[..c] else []
    ensures out.short == old(out.short) + if c < RESPONSE_LEN then 1 else 0
  {
    var packet := Packet(len);
    forall i | 0 <= i < RESPONSE_LEN {
      buf[i] := packet[i];
    }
    assert buf[..RESPONSE_LEN] == packet;
    c := out.SslSend(buf, RESPONSE_LEN);
    if c > 0 {
      assert buf[..c] == packet[..c];
    }
  }

  /** One round: reads up to a chunk and sends it. Nothing is sent if nothing could be read. */
  method SendChunk(out: Outbox, buf: array<Byte>, f: File, offset: nat) returns (readBytes: int, sendBytes: int)
    requires buf.Length == CHUNK && offset <= |f.content|
    modifies buf, out, f`failures
    ensures out.short == old(out.short) + if readBytes > 0 && sendBytes < readBytes then 1 else 0
    ensures f.failures == old(f.failures) + if readBytes < 0 then 1 else 0
    ensures readBytes == -1 || readBytes == Min(CHUNK, |f.content| - offset)
    ensures -1 <= sendBytes <= readBytes && (readBytes > 0 ==> sendBytes != 0) && (readBytes < 0 ==> sendBytes < 0)
    ensures out.sent == old(out.sent) + if sendBytes > 0 then f.content[offset..offset + sendBytes] else []
  {
    readBytes := BulkPread(f, buf, CHUNK, offset);
    if readBytes <= 0 {
      return readBytes, readBytes;
    }
    sendBytes := out.SslSend(buf, readBytes);
    if sendBytes > 0 {
      forall i | 0 <= i < sendBytes ensures buf[i] == f.content[offset + i] {
        assert buf[i] == buf[..readBytes][i] == f.content[offset..offset + readBytes][i];
      }
      assert buf[..sendBytes] == f.content[offset..offset + sendBytes];
    }
  }

  /******* the receiver's loop *******/

  /** The stream from the peer, with all that is ever to come: a read gets at least one byte or fails. `results` keeps
      what the calls returned. */
  class Inbox {
    var incoming: seq<Byte>
    ghost var results: seq<int>

    method SslRead(buf: array<Byte>, n: nat) returns (c: int)
      requires 0 < n <= buf.Length
      modifies this, buf
      ensures results == old(results) + [c]
      ensures c == -1 || 0 < c <= Min(n, |old(incoming)|)
      ensures c > 0 ==> buf[..c] == old(incoming)[..c] && incoming == old(incoming)[c..]
      ensures c < 0 ==> incoming == old(incoming)
    {
      var most := Min(n, |incoming|);
      c :| -1 <= c <= most && c != 0;
      results := results + [c];
      if c > 0 {
        forall i | 0 <= i < c {
          buf[i] := incoming[i];
        }
        incoming := incoming[c..];
      }
    }
  }

  /** The first of the reads got a whole packet. */
  predicate PacketRead(results: seq<int>) {
    results != [] && results[0] == RESPONSE_LEN
  }

  /** What a receiver has of a stream before it reads. */
  function Listening(incoming: seq<Byte>): State {
    START.(wire := incoming)
  }

  function Receiving(start: State, wire: seq<Byte>, written: seq<Byte>, left: U64): State {
    start.(wire := wire, accepted := true, written := written, remaining := left)
  }

  lemma FirstReadFails(start: State, c: int) returns (t: Trace)
    requires start == Listening(start.wire) && (c == -1 || (0 < c < RESPONSE_LEN && c <= |start.wire|))
    ensures ReceiverTrace(t) && |t.states| == |t.actions| + 1 && t.states[0] == start
    ensures t.states[|t.actions|]
         == start.(wire := if c < 0 then start.wire else start.wire[c..], receiverFailed := true)
  {
    hide PacketType, PacketLength, ReceiverTrace;
    NoSteps(start);
    var a := if c < 0 then ReceiverFails(0, 0) else ReadPacket(c);
    var s := start.(wire := if c < 0 then start.wire else start.wire[c..], receiverFailed := true);
    t := Longer(Trace([start], []), a, s);
    OneMoreStep([], Trace([start], []), a, s);
  }

  lemma FirstReadEnds(start: State) returns (t: Trace)
    requires start == Listening(start.wire) && |start.wire| >= RESPONSE_LEN
    ensures ReceiverTrace(t) && |t.states| == |t.actions| + 1 && t.states[0] == start
    ensures var (packet, rest) := (start.wire[..RESPONSE_LEN], start.wire[RESPONSE_LEN..]);
            t.states[|t.actions|] == if PacketType(packet) == UPGRADE_RESPONSE
                                     then Receiving(start, rest, [], PacketLength(packet))
                                     else start.(wire := rest, receiverFailed := true)
  {
    hide PacketType, PacketLength, ReceiverTrace;
    NoSteps(start);
    var packet, rest := start.wire[..RESPONSE_LEN], start.wire[RESPONSE_LEN..];
    var s := if PacketType(packet) == UPGRADE_RESPONSE
             then Receiving(start, rest, [], PacketLength(packet))
             else start.(wire := rest, receiverFailed := true);
    t := Longer(Trace([start], []), ReadPacket(RESPONSE_LEN), s);
    OneMoreStep([], Trace([start], []), ReadPacket(RESPONSE_LEN), s);
  }

  /** A round that ends the loop: n bytes were read, and the first of them written. */
  lemma Fails(t: Trace, n: nat, kept: nat) returns (next: Trace)
    requires ReceiverTrace(t) && |t.states| == |t.actions| + 1
    requires var s := t.states[|t.actions|]; s.accepted && !s.receiverFailed && kept <= n <= |s.wire|
    ensures ReceiverTrace(next) && |next.states| == |next.actions| + 1 && next.states[0] == t.states[0]
    ensures var s := t.states[|t.actions|];
            next.states[|next.actions|] ==
              s.(wire := s.wire[n..], written := s.written + s.wire[..kept], receiverFailed := true)
  {
    hide PacketType, PacketLength;
    var s := t.states[|t.actions|];
    var last := s.(wire := s.wire[n..], written := s.written + s.wire[..kept], receiverFailed := true);
    next := Longer(t, ReceiverFails(n, kept), last);
    OneMoreStep([], t, ReceiverFails(n, kept), last);
  }

  /** A round after which the loop goes on or is done. */
  lemma Receives(t: Trace, n: nat) returns (next: Trace)
    requires ReceiverTrace(t) && |t.states| == |t.actions| + 1
    requires var s := t.states[|t.actions|];
             s.accepted && !s.receiverFailed && s.remaining > 0 && 0 < n <= Min(CHUNK, |s.wire|)
    ensures ReceiverTrace(next) && |next.states| == |next.actions| + 1 && next.states[0] == t.states[0]
    ensures var s := t.states[|t.actions|];
            next.states[|next.actions|] ==
              s.(wire := s.wire[n..], written := s.written + s.wire[..n], remaining := Minus(s.remaining, n))
  {
    hide PacketType, PacketLength, Minus;
    var s := t.states[|t.actions|];
    var last := s.(wire := s.wire[n..], written := s.written + s.wire[..n], remaining := Minus(s.remaining, n));
    next := Longer(t, ReadPart(n), last);
    OneMoreStep([], t, ReadPart(n), last);
  }

  /** What was read is in the file or still to come. */
  predicate Gathered(payload: seq<Byte>, content: seq<Byte>, incoming: seq<Byte>) {
    content <= payload && incoming == payload[|content|..]
  }

  lemma GatherMore(payload: seq<Byte>, content: seq<Byte>, incoming: seq<Byte>, n: nat, more: seq<Byte>)
    requires Gathered(payload, content, incoming) && n <= |incoming|
    requires content <= more <= content + incoming[..n]
    ensures more <= payload && more == content + incoming[..|more| - |content|] && |more| - |content| <= n
    ensures |more| == |content| + n ==> Gathered(payload, more, incoming[n..])
  {
    assert payload == content + incoming;
  }

  lemma GatherNothing(payload: seq<Byte>)
    ensures Gathered(payload, [], payload)
  {
  }

  /** One round: what one read gets is appended to the file, or a part of it and the call fails. */
  method RecvChunk(inbox: Inbox, f: File, buf: array<Byte>) returns (readBytes: int, written: bool)
    requires buf.Length == CHUNK
    modifies inbox, f, buf
    ensures inbox.results == old(inbox.results) + [readBytes]
    ensures f.failures == old(f.failures) + if readBytes > 0 && !written then 1 else 0
    ensures readBytes == -1 || 0 < readBytes <= Min(CHUNK, |old(inbox.incoming)|)
    ensures readBytes < 0 ==> inbox.incoming == old(inbox.incoming) && f.content == old(f.content) && !written
    ensures readBytes > 0 ==>
              && inbox.incoming == old(inbox.incoming)[readBytes..]
              && old(f.content) <= f.content <= old(f.content) + old(inbox.incoming)[..readBytes]
              && (written ==> f.content == old(f.content) + old(inbox.incoming)[..readBytes])
  {
    readBytes := inbox.SslRead(buf, CHUNK);
    if readBytes < 0 {
      return readBytes, false;
    }
    var writeBytes := BulkWrite(f, buf, readBytes);
    written := writeBytes >= 0;
  }

  /** The file gets what follows the packet, in order and without a gap; the counter says how much that is, up to
      whole turns of 64 bits. The file may fail to be created or closed. Receiving succeeds exactly when no call fails
      or falls short and the packet is of the right type. The call is a path of the step system: `trace`. */
  method RecvUpgradeResponse(inbox: Inbox, created: bool, closes: bool) returns (r: int, f: File?, ghost trace: Trace)
    modifies inbox
    ensures r == 0 || r == -1
    ensures f != null ==> fresh(f)
    ensures old(inbox.results) < inbox.results
    ensures var results := inbox.results[|old(inbox.results)|..];
            && (PacketRead(results) ==> |old(inbox.incoming)| >= RESPONSE_LEN)
            && (f != null <==>
                  created && PacketRead(results) && PacketType(old(inbox.incoming)[..RESPONSE_LEN]) == UPGRADE_RESPONSE)
            && (r == 0 <==> f != null && -1 !in results && f.failures == 0 && closes)
    ensures f != null ==> f.content <= old(inbox.incoming)[RESPONSE_LEN..]
    ensures r == 0 ==>
              && inbox.incoming == old(inbox.incoming)[RESPONSE_LEN..][|f.content|..]
              && |f.content| % TWO64 == PacketLength(old(inbox.incoming)[..RESPONSE_LEN])
    ensures ReceiverTrace(trace) && |trace.states| == |trace.actions| + 1
    ensures trace.states[0] == Listening(old(inbox.incoming))
    ensures var last := trace.states[|trace.actions|];
            && last.wire == inbox.incoming && last.written == (if f == null then [] else f.content)
            && (r == 0 <==> ReceiverDone(last)) && (r == -1 <==> last.receiverFailed)
  {
    hide PacketType, PacketLength, Minus, ReceiverTrace, Gathered;
    var buf := new Byte[CHUNK](_ => 0);
    f := null;
    ghost var start := Listening(inbox.incoming);
    var c := inbox.SslRead(buf, RESPONSE_LEN);
    ghost var results := [c];
    if c < RESPONSE_LEN {
      trace := FirstReadFails(start, c);
      return -1, null, trace;
    }
    var packet := buf[..RESPONSE_LEN];
    ghost var payload := old(inbox.incoming)[RESPONSE_LEN..];
    trace := FirstReadEnds(start);
    if PacketType(packet) != UPGRADE_RESPONSE {
      return -1, null, trace;
    }
    var left: U64 := PacketLength(packet);
    ghost var len := left;
    if !created {
      trace := Fails(trace, 0, 0);
      return -1, null, trace;
    }
    f := new File([]);
    GatherNothing(payload);
    MinusMore(len, 0, 0);
    while left > 0
      invariant fresh(f) && f.failures == 0 && Gathered(payload, f.content, inbox.incoming)
      invariant left == Minus(len, |f.content|)
      invariant inbox.results == old(inbox.results) + results && inbox.results[|old(inbox.results)|..] == results
      invariant -1 !in results && PacketRead(results)
      invariant ReceiverTrace(trace) && |trace.states| == |trace.actions| + 1 && trace.states[0] == start
      invariant trace.states[|trace.actions|] == Receiving(start, inbox.incoming, f.content, left)
      decreases |inbox.incoming|
    {
      ghost var before, incoming := f.content, inbox.incoming;
      var readBytes, written := RecvChunk(inbox, f, buf);
      OneMoreResult(old(inbox.results), results, readBytes);
      results := results + [readBytes];
      GatherMore(payload, before, incoming, if readBytes < 0 then 0 else readBytes, f.content);
      if readBytes < 0 {
        assert results[|results| - 1] == -1;
        trace := Fails(trace, 0, 0);
        return -1, f, trace;
      }
      MinusMore(len, |before|, readBytes);
      left := Minus(left, readBytes);
      if !written {
        trace := Fails(trace, readBytes, |f.content| - |before|);
        return -1, f, trace;
      }
      trace := Receives(trace, readBytes);
    }
    TurnedFully(len, |f.content|);
    GatheredIs(payload, f.content, inbox.incoming);
    if !closes {
      trace := Fails(trace, 0, 0);
    }
    r := if closes then 0 else -1;
  }

  lemma TurnedFully(len: U64, n: nat)
    ensures Minus(len, n) == 0 <==> n % TWO64 == len
  {
  }

  lemma OneMoreResult(before: seq<int>, results: seq<int>, c: int)
    ensures before + results + [c] == before + (results + [c])
    ensures (before + (results + [c]))[|before|..] == results + [c]
  {
  }

  lemma GatheredIs(payload: seq<Byte>, content: seq<Byte>, incoming: seq<Byte>)
    requires Gathered(payload, content, incoming)
    ensures content <= payload && incoming == payload[|content|..]
  {
  }

  /** When the peer sent exactly one packet and its archive and the call succeeds, the file is the archive. */
  lemma ReceivedIsSent(archive: seq<Byte>, received: seq<Byte>)
    requires |archive| < TWO64
    requires var stream := Packet(|archive|) + archive;
             && received <= stream[RESPONSE_LEN..]
             && |received| % TWO64 == PacketLength(stream[..RESPONSE_LEN])
    ensures received == archive
  {
    var stream := Packet(|archive|) + archive;
    assert stream[..RESPONSE_LEN] == Packet(|archive|) && stream[RESPONSE_LEN..] == archive;
    PacketIsRead(|archive|);
  }

  /******* what every step keeps *******/

  /** Written, in flight and unsent bytes make up the archive; the receiver's counter is what is in flight plus the
      sender's counter. */
  predicate Conserved(archive: seq<Byte>, s: State) {
    && |archive| < TWO64 && s.sent <= |archive|
    && (s.announced ==> s.left == |archive| - s.sent)
    && (!s.announced ==> s.sent == 0 && |s.wire| < RESPONSE_LEN && !s.accepted && (!s.senderFailed ==> s.wire == []))
    && (!s.accepted ==> s.written == [])
    && (s.announced && !s.accepted && !s.receiverFailed ==> s.wire == Packet(|archive|) + archive[..s.sent])
    && (s.accepted && !s.receiverFailed ==>
          && s.written + s.wire + archive[s.sent..] == archive
          && s.remaining == |s.wire| + s.left)
    && s.written <= archive
  }

  lemma NextConserves(archive: seq<Byte>, s: State, a: Action, t: State)
    requires |archive| < TWO64 && Conserved(archive, s) && Next(archive, s, a, t)
    ensures Conserved(archive, t)
    ensures a.SendPart? ==> a.n <= s.left
    ensures a.ReadPart? ==> a.n <= s.remaining
  {
    hide Packet, PacketType, PacketLength;
    match a {
      case SendPacket(_) =>
        assert [] + Packet(|archive|) == Packet(|archive|) + archive[..0];
      case SendPart(n) => SendPartConserves(archive, s, n, t);
      case SenderFails =>
      case ReadPacket(n) => ReadPacketConserves(archive, s, n, t);
      case ReadPart(n) => ReadPartConserves(archive, s, n, t);
      case ReceiverFails(n, kept) => ReceiverFailsConserves(archive, s, n, kept, t);
    }
  }

  lemma SendPartConserves(archive: seq<Byte>, s: State, n: nat, t: State)
    requires |archive| < TWO64 && Conserved(archive, s) && Next(archive, s, SendPart(n), t)
    ensures Conserved(archive, t) && n <= s.left
  {
    hide Packet, PacketType, PacketLength;
    var part := archive[s.sent..s.sent + n];
    assert archive[..s.sent] + part == archive[..s.sent + n];
    assert archive[s.sent..] == part + archive[s.sent + n..];
    Regroup(s.written, s.wire, part, archive[s.sent + n..]);
    Regroup([], Packet(|archive|), archive[..s.sent], part);
  }

  lemma Regroup(a: seq<Byte>, b: seq<Byte>, c: seq<Byte>, d: seq<Byte>)
    ensures a + (b + c) + d == a + b + (c + d)
    ensures b + c + d == b + (c + d)
  {
  }

  lemma ReadPacketConserves(archive: seq<Byte>, s: State, n: nat, t: State)
    requires |archive| < TWO64 && Conserved(archive, s) && Next(archive, s, ReadPacket(n), t)
    ensures Conserved(archive, t)
  {
    hide Packet, PacketType, PacketLength;
    if s.announced {
      PacketIsRead(|archive|);
      var packet, part := Packet(|archive|), archive[..s.sent];
      PrefixOff(packet, part);
      assert s.wire == packet + part;
      assert [] + part + archive[s.sent..] == archive;
    }
  }

  lemma PrefixOff(a: seq<Byte>, b: seq<Byte>)
    ensures (a + b)[..|a|] == a && (a + b)[|a|..] == b
  {
  }

  lemma ReadPartConserves(archive: seq<Byte>, s: State, n: nat, t: State)
    requires |archive| < TWO64 && Conserved(archive, s) && Next(archive, s, ReadPart(n), t)
    ensures Conserved(archive, t) && n <= s.remaining
  {
    hide Packet, PacketType, PacketLength;
    assert s.wire == s.wire[..n] + s.wire[n..];
    assert t.written + t.wire + archive[t.sent..] == s.written + s.wire + archive[s.sent..];
    assert t.written == archive[..|t.written|];
  }

  lemma ReceiverFailsConserves(archive: seq<Byte>, s: State, n: nat, kept: nat, t: State)
    requires |archive| < TWO64 && Conserved(archive, s) && Next(archive, s, ReceiverFails(n, kept), t)
    ensures Conserved(archive, t)
  {
    hide Packet, PacketType, PacketLength;
    if s.accepted {
      assert s.wire == s.wire[..kept] + s.wire[kept..];
      assert t.written + (s.wire[kept..] + archive[s.sent..]) == s.written + s.wire + archive[s.sent..];
      assert t.written == archive[..|t.written|];
    }
  }

  /** For every archive and every interleaving and splitting of the calls: nothing is lost or reordered, neither
      counter wraps, and a receiver that succeeds has the archive. */
  lemma {:induction false} TransferIsSafe(archive: seq<Byte>, states: seq<State>, actions: seq<Action>, n: nat)
    requires |archive| < TWO64 && RunOf(archive, states, actions) && n < |states|
    ensures Conserved(archive, states[n])
    ensures n < |actions| && actions[n].SendPart? ==> actions[n].n <= states[n].left
    ensures n < |actions| && actions[n].ReadPart? ==> actions[n].n <= states[n].remaining
    ensures ReceiverDone(states[n]) ==> states[n].written == archive
  {
    hide Next, Packet;
    if n == 0 {
    } else {
      TransferIsSafe(archive, states, actions, n - 1);
      NextConserves(archive, states[n - 1], actions[n - 1], states[n]);
    }
    if n < |actions| {
      NextConserves(archive, states[n], actions[n], states[n + 1]);
    }
  }

  /******* whole calls as runs *******/

  predicate OfSender(a: Action) {
    a.SendPacket? || a.SendPart? || a.SenderFails?
  }

  /** A run of steps of the sender. */
  ghost predicate SenderRun(archive: seq<Byte>, t: Trace) {
    RunOf(archive, t.states, t.actions) && forall i :: 0 <= i < |t.actions| ==> OfSender(t.actions[i])
  }

  function EndOf(t: Trace): State
    requires |t.states| == |t.actions| + 1
  {
    t.states[|t.actions|]
  }

  lemma OneMoreOfSender(archive: seq<Byte>, t: Trace, a: Action, s: State) returns (next: Trace)
    requires SenderRun(archive, t) && OfSender(a) && Next(archive, EndOf(t), a, s)
    ensures SenderRun(archive, next) && EndOf(next) == s
  {
    hide Next;
    next := Longer(t, a, s);
    OneMoreStep(archive, t, a, s);
  }

  /** The sender with this much of the archive sent. */
  function SenderAt(archive: seq<Byte>, offset: nat, failed: bool): State
    requires offset <= |archive| < TWO64
  {
    START.(announced := true, sent := offset, left := |archive| - offset, senderFailed := failed,
           wire := Packet(|archive|) + archive[..offset])
  }

  lemma PartIsStep(archive: seq<Byte>, offset: nat, n: nat)
    requires offset < |archive| < TWO64 && 0 < n <= Min(CHUNK, |archive| - offset)
    ensures Next(archive, SenderAt(archive, offset, false), SendPart(n),
                 SenderAt(archive, offset + n, n != Min(CHUNK, |archive| - offset)))
  {
    hide Packet;
    assert archive[..offset] + archive[offset..offset + n] == archive[..offset + n];
    Regroup([], Packet(|archive|), archive[..offset], archive[offset..offset + n]);
  }

  lemma SenderMayFail(archive: seq<Byte>, offset: nat)
    requires offset < |archive| < TWO64
    ensures Next(archive, SenderAt(archive, offset, false), SenderFails, SenderAt(archive, offset, true))
  {
    hide Packet;
  }

  lemma {:induction false} SendsUpTo(archive: seq<Byte>, t: Trace, offset: nat, k: nat) returns (next: Trace)
    requires offset <= k <= |archive| < TWO64
    requires SenderRun(archive, t) && EndOf(t) == SenderAt(archive, offset, false)
    ensures SenderRun(archive, next) && EndOf(next) == SenderAt(archive, k, k < |archive|)
    decreases k - offset
  {
    hide SenderRun, Packet, Next;
    IsRun(archive, t);
    if offset == k == |archive| {
      next := t;
    } else if offset == k {
      SenderMayFail(archive, k);
      next := OneMoreOfSender(archive, t, SenderFails, SenderAt(archive, k, true));
    } else {
      var n := Min(CHUNK, k - offset);
      var short := n != Min(CHUNK, |archive| - offset);
      PartIsStep(archive, offset, n);
      next := OneMoreOfSender(archive, t, SendPart(n), SenderAt(archive, offset + n, short));
      if !short {
        next := SendsUpTo(archive, next, offset + n, k);
      }
    }
  }

  lemma IsRun(archive: seq<Byte>, t: Trace)
    requires SenderRun(archive, t)
    ensures |t.states| == |t.actions| + 1
  {
  }

  /** Whatever part of packet and archive a call of the sender has sent, a run of its steps puts the same on the wire;
      the sender is done in the end exactly if all was sent, which is when the call succeeds, and has failed else. */
  lemma SenderCallIsRun(archive: seq<Byte>, sent: seq<Byte>) returns (t: Trace)
    requires |archive| < TWO64 && sent <= Packet(|archive|) + archive
    ensures SenderRun(archive, t) && |t.states| == |t.actions| + 1
    ensures EndOf(t).wire == sent && Listening(sent) == With(START, EndOf(t))
    ensures SenderDone(EndOf(t)) <==> sent == Packet(|archive|) + archive
    ensures EndOf(t).senderFailed <==> sent != Packet(|archive|) + archive
    ensures EndOf(t).announced && EndOf(t).left == 0 ==> SenderDone(EndOf(t))
  {
    hide Packet, SenderRun;
    var none := Trace([START], []);
    assert SenderRun(archive, none) by { OnlyStart(archive); }
    var packet := Packet(|archive|);
    if sent == [] {
      t := OneMoreOfSender(archive, none, SenderFails, START.(senderFailed := true));
    } else if |sent| < RESPONSE_LEN {
      assert sent == packet[..|sent|];
      t := OneMoreOfSender(archive, none, SendPacket(|sent|), START.(senderFailed := true, wire := sent));
    } else {
      var k := |sent| - RESPONSE_LEN;
      assert packet + archive[..0] == packet && sent == packet + archive[..k];
      t := OneMoreOfSender(archive, none, SendPacket(RESPONSE_LEN), SenderAt(archive, 0, false));
      t := SendsUpTo(archive, t, 0, k);
    }
    IsRun(archive, t);
  }

  lemma OnlyStart(archive: seq<Byte>)
    ensures SenderRun(archive, Trace([START], []))
  {
  }

  /** One end's state, with the wire and the receiver's side of another state. */
  function With(base: State, s: State): State {
    base.(wire := s.wire, accepted := s.accepted, written := s.written, remaining := s.remaining,
          receiverFailed := s.receiverFailed)
  }

  lemma StepCarries(archive: seq<Byte>, base: State, s: State, a: Action, t: State)
    requires OfReceiver(a) && Next([], s, a, t)
    ensures Next(archive, With(base, s), a, With(base, t))
  {
    hide PacketType, PacketLength;
  }

  lemma {:induction false} JoinUpTo(archive: seq<Byte>, sender: Trace, received: Trace, n: nat) returns (t: Trace)
    requires RunOf(archive, sender.states, sender.actions)
    requires ReceiverTrace(received) && n <= |received.actions| && |received.states| == |received.actions| + 1
    requires With(EndOf(sender), received.states[0]) == EndOf(sender)
    ensures RunOf(archive, t.states, t.actions) && |t.states| == |t.actions| + 1
    ensures EndOf(t) == With(EndOf(sender), received.states[n])
  {
    hide Next;
    if n == 0 {
      t := sender;
    } else {
      var a, s := received.actions[n - 1], With(EndOf(sender), received.states[n]);
      t := JoinUpTo(archive, sender, received, n - 1);
      StepCarries(archive, EndOf(sender), received.states[n - 1], a, received.states[n]);
      OneMoreStep(archive, t, a, s);
      t := Longer(t, a, s);
    }
  }

  /** A call of the sender and one of the receiver that gets what it sent, make a run of the step system. So a receiver
      that succeeds has the archive, and the sender had succeeded. */
  lemma CallsAreRun(archive: seq<Byte>, sent: seq<Byte>, received: Trace) returns (t: Trace)
    requires |archive| < TWO64 && sent <= Packet(|archive|) + archive
    requires ReceiverTrace(received) && |received.states| == |received.actions| + 1
    requires received.states[0] == Listening(sent)
    ensures RunOf(archive, t.states, t.actions)
    ensures With(EndOf(t), EndOf(received)) == EndOf(t)
    ensures SenderDone(EndOf(t)) <==> sent == Packet(|archive|) + archive
    ensures ReceiverDone(EndOf(received)) ==>
              EndOf(received).written == archive && sent == Packet(|archive|) + archive
  {
    hide Packet, StepsOf, ReceiverTrace;
    var sender := SenderCallIsRun(archive, sent);
    t := JoinUpTo(archive, sender, received, |received.actions|);
    TransferIsSafe(archive, t.states, t.actions, |t.actions|);
  }

  /** In the k-th round more is sent than is left to be sent. */
  predicate WrapsIn(len: nat, fileLen: nat, k: nat) {
    k * CHUNK < len && k * CHUNK < fileLen && k * CHUNK + Min(CHUNK, fileLen - k * CHUNK) > len
  }

  /** Some round makes the counter wrap exactly when the file is longer than announced and the announced length is no
      whole number of chunks; that is when it is longer and cannot be sent. */
  lemma WrapExact(len: nat, fileLen: nat)
    ensures (exists k: nat :: WrapsIn(len, fileLen, k)) <==> len < fileLen && len % CHUNK != 0
    ensures len < fileLen && len % CHUNK != 0 <==> len < fileLen && !Sendable(len, fileLen)
  {
    if k: nat :| WrapsIn(len, fileLen, k) {
      RoundOf(len, k);
    }
    if len < fileLen && len % CHUNK != 0 {
      var k := len / CHUNK;
      assert len == k * CHUNK + len % CHUNK;
      assert WrapsIn(len, fileLen, k);
    }
  }

  lemma RoundOf(len: nat, k: nat)
    requires k * CHUNK < len < k * CHUNK + CHUNK
    ensures len % CHUNK != 0
  {
    var m := len / CHUNK;
    assert len == m * CHUNK + len % CHUNK;
  }

  /** A file of two bytes announced as one: sending never succeeds, and the first round makes the counter wrap. */
  lemma LongerFileWraps()
    ensures !Sendable(1, 2) && WrapsIn(1, 2, 0) && Minus(1, Min(CHUNK, 2)) == TWO64 - 1
  {
  }

  /******* it ends *******/

  /** What is still to be done, each byte counted twice before it is sent and once in flight. */
  function Pending(archive: seq<Byte>, s: State): int {
    (if s.announced || s.senderFailed then 0 else RESPONSE_LEN + 1) + 2 * (|archive| - s.sent) + |s.wire|
  }

  lemma NextPends(archive: seq<Byte>, s: State, a: Action, t: State)
    requires |archive| < TWO64 && Conserved(archive, s) && Next(archive, s, a, t) && !a.SenderFails?
             && !a.ReceiverFails?
    ensures Pending(archive, t) < Pending(archive, s)
  {
    hide Conserved, PacketType, PacketLength;
    assert |Packet(|archive| % TWO64)| == RESPONSE_LEN;
  }

  /** Unless an end has failed or both are done, some end can do a full step. */
  lemma NeverStuck(archive: seq<Byte>, s: State) returns (a: Action, t: State)
    requires |archive| < TWO64 && Conserved(archive, s)
    requires !s.senderFailed && !s.receiverFailed && !(SenderDone(s) && ReceiverDone(s))
    ensures Next(archive, s, a, t) && !t.senderFailed && !t.receiverFailed
  {
    hide Packet, PacketType, PacketLength;
    if !s.announced {
      a := SendPacket(RESPONSE_LEN);
      t := s.(announced := true, left := |archive| % TWO64, wire := s.wire + Packet(|archive| % TWO64));
    } else if s.left > 0 {
      var n := Chunk(archive, s);
      a := SendPart(n);
      t := s.(wire := s.wire + archive[s.sent..s.sent + n], sent := s.sent + n, left := Minus(s.left, n));
    } else if !s.accepted {
      a := ReadPacket(RESPONSE_LEN);
      assert s.wire[..RESPONSE_LEN] == Packet(|archive|);
      PacketIsRead(|archive|);
      t := s.(wire := s.wire[RESPONSE_LEN..], accepted := true, remaining := PacketLength(s.wire[..RESPONSE_LEN]));
    } else {
      var n := Min(CHUNK, |s.wire|);
      a := ReadPart(n);
      t := s.(wire := s.wire[n..], written := s.written + s.wire[..n], remaining := Minus(s.remaining, n));
    }
  }

  /** A run without failures has at most 17 + 2 * |archive| steps. */
  lemma {:induction false} TransferEnds(archive: seq<Byte>, states: seq<State>, actions: seq<Action>, n: nat)
    requires |archive| < TWO64 && RunOf(archive, states, actions) && n < |states|
    requires forall i :: 0 <= i < n ==> !actions[i].SenderFails? && !actions[i].ReceiverFails?
    ensures n + Pending(archive, states[n]) <= RESPONSE_LEN + 1 + 2 * |archive|
  {
    hide Next, Packet, Conserved;
    if n > 0 {
      TransferEnds(archive, states, actions, n - 1);
      TransferIsSafe(archive, states, actions, n - 1);
      NextPends(archive, states[n - 1], actions[n - 1], states[n]);
    }
  }
}
