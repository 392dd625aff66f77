/** The framed byte-stream server that turns requests from the emulator into controller accesses. */
module Bridge {
  import opened Bytes
  import opened CimSram
  import opened MemController

  const HEADER_SIZE := 32
  const DMA_BUFFER_SIZE := 16777216

  // ---------------------------------------------------------------- the wire format

  /** The packed message header; `status` is the byte of an `int8_t`. */
  datatype Header = Header(isWrite: byte, isDma: byte, ctrlIrq: byte, reserved: byte, addr: u64, size: u32,
                           simulatedNs: u64, status: byte, pad: seq<byte>)

  predicate Packed(h: Header) {
    |h.pad| == 7
  }

  function EncodeHeader(h: Header): (s: seq<byte>)
    requires Packed(h)
    ensures |s| == HEADER_SIZE
  {
    [h.isWrite, h.isDma, h.ctrlIrq, h.reserved] + Le64(h.addr) + Le32(h.size) + Le64(h.simulatedNs) + [h.status] + h.pad
  }

  function DecodeHeader(s: seq<byte>): (h: Header)
    requires |s| == HEADER_SIZE
    ensures Packed(h)
  {
    Header(s[0], s[1], s[2], s[3], FromLe64(s[4..12]), FromLe32(s[12..16]), FromLe64(s[16..24]), s[24], s[25..])
  }

  lemma DecodeEncodeHeader(h: Header)
    requires Packed(h)
    ensures DecodeHeader(EncodeHeader(h)) == h
  {
    var s := EncodeHeader(h);
    HeaderFields(h, s);
    DecodeLe64(h.addr);
    DecodeLe32(h.size);
    DecodeLe64(h.simulatedNs);
  }

  lemma HeaderFields(h: Header, s: seq<byte>)
    requires Packed(h) && s == EncodeHeader(h)
    ensures s[4..12] == Le64(h.addr) && s[12..16] == Le32(h.size) && s[16..24] == Le64(h.simulatedNs)
    ensures s[24] == h.status && s[25..] == h.pad
  {
  }

  /** The header's fields on the wire, byte by byte. */
  lemma HeaderOnWire(s: seq<byte>)
    requires |s| == 32
    ensures var h := DecodeHeader(s);
            && h.isWrite == s[0] && h.isDma == s[1] && h.ctrlIrq == s[2] && h.reserved == s[3]
            && IsLong(s, 4, h.addr) && IsWord(s, 12, h.size) && IsLong(s, 16, h.simulatedNs)
            && h.status == s[24] && h.pad == s[25..]
  {
    LongIs(s, 4, s[4..12]);
    WordIs(s, 12, s[12..16], FromLe32(s[12..16]));
    LongIs(s, 16, s[16..24]);
  }

  /** `tlm_response_status` as the byte of an `int8_t`. */
  function StatusCode(s: Status): byte {
    match s
    case Okay => 1
    case Incomplete => 0
    case GenericError => 255
    case AddressError => 254
    case CommandError => 253
    case BurstError => 252
  }

  // ---------------------------------------------------------------- one request

  predicate IsWrite(h: Header) {
    h.isWrite != 0
  }

  predicate IsDma(h: Header) {
    h.isDma != 0
  }

  predicate Oversize(h: Header) {
    h.size > DMA_BUFFER_SIZE
  }

  /** Payload bytes that the server takes from the stream after this header. */
  function BodyLen(h: Header): nat {
    if IsWrite(h) && !Oversize(h) then h.size else 0
  }

  /** Payload bytes that the server sends after the reply header. */
  function ReplyLen(h: Header): nat {
    if !IsWrite(h) && !Oversize(h) then h.size else 0
  }

  datatype Server = Server(dev: Device, payload: seq<byte>)

  predicate IsServer(s: Server) {
    IsDevice(s.dev) && |s.payload| == DMA_BUFFER_SIZE
  }

  predicate Acceptable(h: Header, body: seq<byte>) {
    Packed(h) && |body| == BodyLen(h)
  }

  function Received(s: Server, h: Header, body: seq<byte>): (p: seq<byte>)
    requires IsServer(s) && Acceptable(h, body)
    ensures |p| == DMA_BUFFER_SIZE
  {
    Splice(s.payload, 0, body)
  }

  /** The controller access behind a request, over the payload buffer `p`. */
  function AccessOf(h: Header, p: seq<byte>): (x: Access)
    requires |p| == DMA_BUFFER_SIZE && !Oversize(h)
    ensures WellFormed(x)
  {
    var addr := h.addr % TWO32;
    if IsDma(h) then Access(if IsWrite(h) then Write else Read, addr, p, h.size)
    else if IsWrite(h) then Access(Write, addr, p[..4], 4)
    else Access(Read, addr, [0, 0, 0, 0], 4)
  }

  /** A block read of no bytes never reaches the controller. */
  predicate EmptyBlockRead(h: Header) {
    IsDma(h) && !IsWrite(h) && h.size == 0
  }

  predicate Servable(s: Server, h: Header, body: seq<byte>) {
    && IsServer(s) && Acceptable(h, body)
    && (!Oversize(h) && !EmptyBlockRead(h) ==> Defined(s.dev.regs, AccessOf(h, Received(s, h, body))))
  }

  datatype Served = Served(server: Server, header: Header, payload: seq<byte>)

  function Answer(h: Header, d: Device, status: Status, ns: nat): Header {
    h.(status := StatusCode(status), simulatedNs := ns % TWO64, ctrlIrq := if d.regs.irq then 1 else 0)
  }

  function Serve(s: Server, sh: Shape, h: Header, body: seq<byte>): (r: Served)
    requires Servable(s, h, body)
    ensures IsServer(r.server) && Packed(r.header) && |r.payload| == ReplyLen(h)
  {
    if Oversize(h) then Served(s, Answer(h, s.dev, BurstError, 0), [])
    else
      var p := Received(s, h, body);
      if EmptyBlockRead(h) then Served(s, Answer(h, s.dev, GenericError, 0), [])
      else
        var o := Step(s.dev, sh, AccessOf(h, p));
        var q := if IsDma(h) then o.buf else if IsWrite(h) then p else Splice(p, 0, o.buf);
        Served(Server(o.dev, q), Answer(h, o.dev, o.status, o.ns), q[..ReplyLen(h)])
  }

  function Reply(r: Served): seq<byte>
    requires Packed(r.header)
  {
    EncodeHeader(r.header) + r.payload
  }

  // ---------------------------------------------------------------- the request loop

  datatype Session = Session(server: Server, out: seq<byte>) {
    function Prepend(bytes: seq<byte>): Session {
      Session(server, bytes + out)
    }
  }

  lemma PrependTwice(s: Session, x: seq<byte>, y: seq<byte>)
    ensures s.Prepend(y).Prepend(x) == s.Prepend(x + y)
  {
    assert x + (y + s.out) == x + y + s.out;
  }

  /** The answers to the requests of a stream, in order, each with the server after it; `unchecked` if the
      server does not look whether the answer could be sent. */
  datatype Answers = Silence | Answered(bytes: seq<byte>, unchecked: bool, server: Server, rest: Answers)

  function Answering(s: Server, sh: Shape, stream: seq<byte>): Answers
    requires StreamServable(s, sh, stream)
    decreases |stream|, 1
  {
    if !HasRequest(stream) then Silence
    else
      var (h, body, rest) := Cut(stream);
      var r := Serve(s, sh, h, body);
      Answered(Reply(r), Oversize(h), r.server, Answering(r.server, sh, rest))
  }

  /** All answers are sent. */
  function AllSent(s: Server, t: Answers): Session
    decreases t
  {
    match t
    case Silence => Session(s, [])
    case Answered(bytes, _, r, rest) => AllSent(r, rest).Prepend(bytes)
  }

  /** The peer takes only `room` more bytes: the session ends with the answer that cannot be sent in full,
      unless the server does not look. */
  function SentUntilGone(s: Server, t: Answers, room: nat): Session
    decreases t
  {
    match t
    case Silence => Session(s, [])
    case Answered(bytes, unchecked, r, rest) =>
      if |bytes| > room && !unchecked then Session(r, bytes[..room])
      else SentUntilGone(r, rest, room - Min(|bytes|, room)).Prepend(Taken(bytes, room))
  }

  /** What a peer with `room` bytes left takes of `bytes`. */
  function Taken(bytes: seq<byte>, room: nat): (t: seq<byte>)
    ensures |t| == Min(|bytes|, room)
  {
    if |bytes| <= room then bytes else bytes[..room]
  }

  /** Serving a byte stream until it ends or breaks off inside a message. */
  function ServeStream(s: Server, sh: Shape, stream: seq<byte>): Session
    requires StreamServable(s, sh, stream)
  {
    AllSent(s, Answering(s, sh, stream))
  }

  /** The same with a peer that takes only `room` more bytes. */
  function ServeUntilGone(s: Server, sh: Shape, stream: seq<byte>, room: nat): Session
    requires StreamServable(s, sh, stream)
  {
    SentUntilGone(s, Answering(s, sh, stream), room)
  }

  /** What such a peer gets of a session. If it takes everything the session runs to its end. */
  predicate CutOff(all: Session, room: nat, got: Session) {
    got.out == Taken(all.out, room) && (|all.out| <= room ==> got == all)
  }

  lemma TakenSum(x: seq<byte>, y: seq<byte>, room: nat)
    ensures Taken(x + y, room) == Taken(x, room) + Taken(y, room - Min(|x|, room))
  {
  }

  lemma {:induction false} AnswersCutOff(s: Server, t: Answers, room: nat)
    ensures CutOff(AllSent(s, t), room, SentUntilGone(s, t, room))
    decreases t
  {
    if t.Answered? {
      var left := room - Min(|t.bytes|, room);
      TakenSum(t.bytes, AllSent(t.server, t.rest).out, room);
      AnswersCutOff(t.server, t.rest, left);
    }
  }

  /** Such a peer gets exactly the first `room` bytes of the replies, and if it takes them all the
      loop has served every request. */
  lemma GonePeerGetsPrefix(s: Server, sh: Shape, stream: seq<byte>, room: nat)
    requires StreamServable(s, sh, stream)
    ensures var all, got := ServeStream(s, sh, stream), ServeUntilGone(s, sh, stream, room);
            if |all.out| <= room then got == all else got.out == all.out[..room]
  {
    AnswersCutOff(s, Answering(s, sh, stream), room);
  }

  /** The server after the first answer that is looked at, when the peer is gone already. */
  function AfterGone(s: Server, t: Answers): Server
    decreases t
  {
    match t
    case Silence => s
    case Answered(_, unchecked, r, rest) => if unchecked then AfterGone(r, rest) else r
  }

  predicate NoneEmpty(t: Answers) {
    t.Answered? ==> t.bytes != [] && NoneEmpty(t.rest)
  }

  lemma {:induction false} AnswersAfterGone(s: Server, t: Answers)
    requires NoneEmpty(t)
    ensures SentUntilGone(s, t, 0) == Session(AfterGone(s, t), [])
    decreases t
  {
    if t.Answered? && t.unchecked {
      AnswersAfterGone(t.server, t.rest);
    }
  }

  /** A server whose peer takes nothing more sends nothing more. It still carries out one request that is
      not oversize, after any number of oversize ones: their failed answers go unnoticed. */
  lemma GoneButServed(s: Server, sh: Shape, stream: seq<byte>)
    requires StreamServable(s, sh, stream)
    ensures ServeUntilGone(s, sh, stream, 0) == Session(AfterGone(s, Answering(s, sh, stream)), [])
  {
    RepliesNotEmpty(s, sh, stream);
    AnswersAfterGone(s, Answering(s, sh, stream));
  }

  lemma {:induction false} RepliesNotEmpty(s: Server, sh: Shape, stream: seq<byte>)
    requires StreamServable(s, sh, stream)
    ensures NoneEmpty(Answering(s, sh, stream))
    decreases |stream|
  {
    if HasRequest(stream) {
      var (h, body, rest) := Cut(stream);
      RepliesNotEmpty(Serve(s, sh, h, body).server, sh, rest);
    }
  }

  predicate StreamServable(s: Server, sh: Shape, stream: seq<byte>)
    decreases |stream|, 0
  {
    IsServer(s) &&
    (HasRequest(stream) ==>
       var (h, body, rest) := Cut(stream);
       Servable(s, h, body) && StreamServable(Serve(s, sh, h, body).server, sh, rest))
  }

  predicate HasRequest(stream: seq<byte>) {
    HEADER_SIZE <= |stream| && HEADER_SIZE + BodyLen(DecodeHeader(stream[..HEADER_SIZE])) <= |stream|
  }

  function Cut(stream: seq<byte>): (r: (Header, seq<byte>, seq<byte>))
    requires HasRequest(stream)
    ensures Acceptable(r.0, r.1) && |r.2| < |stream|
  {
    var h := DecodeHeader(stream[..HEADER_SIZE]);
    (h, stream[HEADER_SIZE..HEADER_SIZE + BodyLen(h)], stream[HEADER_SIZE + BodyLen(h)..])
  }

  // ---------------------------------------------------------------- framing

  datatype Requests = End | More(h: Header, body: seq<byte>, rest: Requests)

  function Wire(rs: Requests): seq<byte>
    requires AllPacked(rs)
  {
    match rs
    case End => []
    case More(h, body, rest) => EncodeHeader(h) + body + Wire(rest)
  }

  predicate AllPacked(rs: Requests) {
    rs.More? ==> Packed(rs.h) && AllPacked(rs.rest)
  }

  predicate AllServable(s: Server, sh: Shape, rs: Requests)
    decreases rs
  {
    IsServer(s) &&
    (rs.More? ==> Servable(s, rs.h, rs.body) && AllServable(Serve(s, sh, rs.h, rs.body).server, sh, rs.rest))
  }

  /** One reply per request, in order. */
  function Replies(s: Server, sh: Shape, rs: Requests): Session
    requires AllServable(s, sh, rs)
    decreases rs
  {
    match rs
    case End => Session(s, [])
    case More(h, body, rest) =>
      var r := Serve(s, sh, h, body);
      var tail := Replies(r.server, sh, rest);
      tail.Prepend(Reply(r))
  }

  lemma CutWire(h: Header, body: seq<byte>, rest: seq<byte>)
    requires Acceptable(h, body)
    ensures HasRequest(EncodeHeader(h) + body + rest)
    ensures Cut(EncodeHeader(h) + body + rest) == (h, body, rest)
  {
    var stream := EncodeHeader(h) + body + rest;
    DecodeEncodeHeader(h);
    assert stream[..HEADER_SIZE] == EncodeHeader(h);
    assert stream[HEADER_SIZE..HEADER_SIZE + |body|] == body;
    assert stream[HEADER_SIZE + |body|..] == rest;
  }

  lemma {:induction false} ServablePacked(s: Server, sh: Shape, rs: Requests)
    requires AllServable(s, sh, rs)
    ensures AllPacked(rs)
    decreases rs
  {
    if rs.More? {
      ServablePacked(Serve(s, sh, rs.h, rs.body).server, sh, rs.rest);
    }
  }

  /** The server parses any sequence of requests back from the stream, and what it emits is exactly
      their replies, in order. */
  lemma {:induction false} Framing(s: Server, sh: Shape, rs: Requests)
    requires AllServable(s, sh, rs) && AllPacked(rs)
    ensures StreamServable(s, sh, Wire(rs))
    ensures ServeStream(s, sh, Wire(rs)) == Replies(s, sh, rs)
    decreases rs
  {
    if rs.More? {
      CutWire(rs.h, rs.body, Wire(rs.rest));
      Framing(Serve(s, sh, rs.h, rs.body).server, sh, rs.rest);
    }
  }

  /** What a 32-byte request header asks for: byte 0 says write, byte 1 says burst. A write of up to 16 MiB
      is followed by its bytes, and the reply to a read of up to 16 MiB is. */
  lemma RequestOnWire(s: seq<byte>, p: seq<byte>)
    requires |s| == 32 && |p| == 16777216
    ensures var h := DecodeHeader(s);
            && BodyLen(h) == (if s[0] != 0 && h.size <= 16777216 then h.size else 0)
            && ReplyLen(h) == (if s[0] == 0 && h.size <= 16777216 then h.size else 0)
            && (h.size <= 16777216 ==>
                  AccessOf(h, p) ==
                  if s[1] != 0 then Access(if s[0] != 0 then Write else Read, h.addr % 0x1_0000_0000, p, h.size)
                  else if s[0] != 0 then Access(Write, h.addr % 0x1_0000_0000, p[..4], 4)
                  else Access(Read, h.addr % 0x1_0000_0000, [0, 0, 0, 0], 4))
  {
    HeaderOnWire(s);
  }

  /** The reply's header on the wire: the request's bytes with interrupt line, time and status filled in. The
      status byte is 1 for success, and -1 to -4 in two's complement for the errors. */
  lemma ReplyOnWire(s: Server, sh: Shape, h: Header, body: seq<byte>)
    requires Servable(s, h, body) && !Oversize(h) && !EmptyBlockRead(h)
    ensures var o, out := Step(s.dev, sh, AccessOf(h, Received(s, h, body))), Reply(Serve(s, sh, h, body));
            && 32 <= |out| && out[0] == h.isWrite && out[1] == h.isDma && out[3] == h.reserved
            && out[2] == (if o.dev.regs.irq then 1 else 0)
            && IsLong(out, 4, h.addr) && IsWord(out, 12, h.size) && IsLong(out, 16, o.ns % 0x1_0000_0000_0000_0000)
            && IsStatus(out[24], o.status)
  {
    var r := Serve(s, sh, h, body);
    HeaderBytes(r.header, Reply(r));
  }

  /** The codes differ, and are these. */
  lemma StatusCodes(status: Status)
    ensures IsStatus(StatusCode(status), status)
  {
  }

  predicate IsStatus(b: byte, status: Status) {
    match status
    case Okay => b == 1
    case Incomplete => b == 0
    case GenericError => b == 255
    case AddressError => b == 254
    case CommandError => b == 253
    case BurstError => b == 252
  }

  lemma HeaderBytes(h: Header, out: seq<byte>)
    requires Packed(h) && |out| >= 32 && out[..32] == EncodeHeader(h)
    ensures out[0] == h.isWrite && out[1] == h.isDma && out[2] == h.ctrlIrq && out[3] == h.reserved
    ensures IsLong(out, 4, h.addr) && IsWord(out, 12, h.size) && IsLong(out, 16, h.simulatedNs)
    ensures out[24] == h.status
  {
    DecodeEncodeHeader(h);
    HeaderOnWire(out[..32]);
  }

  /** The requests that never reach the controller: too long, or a burst read of nothing. */
  lemma RefusedOnWire(s: Server, sh: Shape, h: Header, body: seq<byte>)
    requires Servable(s, h, body)
    requires h.size > 16777216 || (h.isDma != 0 && h.isWrite == 0 && h.size == 0)
    ensures var r, out := Serve(s, sh, h, body), Reply(Serve(s, sh, h, body));
            && r.server.dev == s.dev && |out| == 32 && IsLong(out, 16, 0)
            && out[0] == h.isWrite && out[1] == h.isDma && out[2] == (if s.dev.regs.irq then 1 else 0)
            && out[24] == if h.size > 16777216 then 252 else 255
  {
    HeaderBytes(Serve(s, sh, h, body).header, Reply(Serve(s, sh, h, body)));
  }

  /** A reply is one header that echoes address, size and direction, and the read payload. */
  lemma ReplyShape(s: Server, sh: Shape, h: Header, body: seq<byte>)
    requires Servable(s, h, body)
    ensures var out := Reply(Serve(s, sh, h, body));
            |out| == HEADER_SIZE + ReplyLen(h) &&
            var e := DecodeHeader(out[..HEADER_SIZE]);
            e.addr == h.addr && e.size == h.size && e.isWrite == h.isWrite && e.isDma == h.isDma
  {
    var r := Serve(s, sh, h, body);
    DecodeEncodeHeader(r.header);
    assert Reply(r)[..HEADER_SIZE] == EncodeHeader(r.header);
  }

  /** The stream stays in step with a client that sends `size` bytes after every write header
      exactly when no write is over the buffer size: the payload of such a write stays in the
      stream and is read as headers. */
  lemma OversizeWriteDesyncs(s: Server, sh: Shape, h: Header, body: seq<byte>, rest: seq<byte>)
    requires IsServer(s) && Packed(h) && |body| == (if IsWrite(h) then h.size else 0)
    ensures HasRequest(EncodeHeader(h) + body + rest)
    ensures Cut(EncodeHeader(h) + body + rest).2 == rest <==> !(IsWrite(h) && Oversize(h))
    ensures IsWrite(h) && Oversize(h) ==> Cut(EncodeHeader(h) + body + rest).2 == body + rest
  {
    if IsWrite(h) && Oversize(h) {
      CutWire(h, [], body + rest);
      assert EncodeHeader(h) + [] + (body + rest) == EncodeHeader(h) + body + rest;
    } else {
      CutWire(h, body, rest);
    }
  }

  // ---------------------------------------------------------------- block transfers

  function BlockRequest(write: bool, addr: u32, size: u32): Header {
    Header(if write then 1 else 0, 1, 0, 0, addr, size, 0, 0, [0, 0, 0, 0, 0, 0, 0])
  }

  predicate InRegion(addr: nat, len: nat) {
    CIM_DATA_REGION <= addr && addr + len <= SRAM_SIZE && 0 < len
  }

  lemma BurstWrite(d: Device, sh: Shape, x: Access)
    requires IsDevice(d) && WellFormed(x) && x.cmd == Write && InRegion(x.addr, x.len)
    ensures Defined(d.regs, x)
    ensures Step(d, sh, x) ==
            Outcome(d.(mem := Splice(d.mem, x.addr, x.buf[..x.len])), Okay, x.buf, DmaTransferNs(x.len))
  {
    InRangePasses(x.addr, x.len);
    SpliceSelf(x.buf, x.len);
  }

  lemma BurstRead(d: Device, sh: Shape, x: Access)
    requires IsDevice(d) && WellFormed(x) && x.cmd == Read && InRegion(x.addr, x.len)
    ensures Defined(d.regs, x)
    ensures Step(d, sh, x) ==
            Outcome(d, Okay, Splice(x.buf, 0, d.mem[x.addr..x.addr + x.len]), DmaTransferNs(x.len))
  {
    InRangePasses(x.addr, x.len);
  }

  /** A block write in the data region stores exactly its body, and touches no register. */
  lemma BlockWrite(s: Server, sh: Shape, addr: u32, body: seq<byte>, h: Header)
    requires IsServer(s) && InRegion(addr, |body|) && h == BlockRequest(true, addr, |body|)
    ensures Servable(s, h, body)
    ensures var r := Serve(s, sh, h, body);
            && r.server.dev == s.dev.(mem := Splice(s.dev.mem, addr, body))
            && r.header.status == StatusCode(Okay)
            && r.header.simulatedNs == DmaTransferNs(|body|)
  {
    var x := AccessOf(h, Received(s, h, body));
    BlockAccess(h, Received(s, h, body));
    assert x.buf[..x.len] == body;
    BurstWrite(s.dev, sh, x);
  }

  /** A block read in the data region returns exactly those bytes, and changes nothing. */
  lemma BlockRead(s: Server, sh: Shape, addr: u32, len: u32, h: Header)
    requires IsServer(s) && InRegion(addr, len) && h == BlockRequest(false, addr, len)
    ensures Servable(s, h, [])
    ensures var r := Serve(s, sh, h, []);
            && r.server.dev == s.dev
            && r.payload == s.dev.mem[addr..addr + len]
            && r.header.status == StatusCode(Okay)
            && r.header.simulatedNs == DmaTransferNs(len)
  {
    var x := AccessOf(h, Received(s, h, []));
    BlockAccess(h, Received(s, h, []));
    BurstRead(s.dev, sh, x);
    assert Splice(x.buf, 0, s.dev.mem[addr..addr + len])[..len] == s.dev.mem[addr..addr + len];
  }

  lemma BlockAccess(h: Header, p: seq<byte>)
    requires |p| == DMA_BUFFER_SIZE && !Oversize(h) && IsDma(h) && h.addr < TWO32
    ensures AccessOf(h, p) == Access(if IsWrite(h) then Write else Read, h.addr, p, h.size)
  {
  }

  // ---------------------------------------------------------------- sockets

  /** A connected stream socket. `recv` and `send` move some positive part of what they could, until
      nothing more arrives or the peer, after `room` more bytes, is gone. */
  class Socket {
    var inbox: seq<byte>
    var outbox: seq<byte>
    var room: nat

    method Recv(len: nat) returns (n: nat, data: seq<byte>)
      requires len > 0
      modifies this`inbox
      ensures old(inbox) == [] <==> n == 0
      ensures n <= len && n <= |old(inbox)|
      ensures data == old(inbox)[..n] && inbox == old(inbox)[n..]
    {
      if inbox == [] {
        return 0, [];
      }
      n :| 1 <= n && n <= len && n <= |inbox|;
      data := inbox[..n];
      inbox := inbox[n..];
    }

    method Send(data: seq<byte>) returns (n: nat)
      requires data != []
      modifies this`outbox, this`room
      ensures n <= |data| && (n == 0 <==> old(room) == 0)
      ensures outbox == old(outbox) + data[..n] && room + n == old(room)
    {
      if room == 0 {
        return 0;
      }
      n :| 1 <= n && n <= |data| && n <= room;
      outbox := outbox + data[..n];
      room := room - n;
    }

    /** However the stream is cut up, all `len` bytes arrive or the peer has closed. */
    method RecvAll(len: nat) returns (ok: bool, data: seq<byte>)
      modifies this`inbox
      ensures ok <==> len <= |old(inbox)|
      ensures ok ==> data == old(inbox)[..len] && inbox == old(inbox)[len..]
    {
      data := [];
      ghost var all := inbox;
      while |data| < len
        invariant |data| <= len && |data| <= |all|
        invariant data == all[..|data|] && inbox == all[|data|..]
        decreases len - |data|
      {
        var n, part := Recv(len - |data|);
        if n == 0 {
          return false, data;
        }
        data := data + part;
      }
      ok := true;
    }

    /** All bytes are sent, or as many as the peer takes. */
    method SendAll(data: seq<byte>) returns (ok: bool)
      modifies this`outbox, this`room
      ensures ok <==> |data| <= old(room)
      ensures outbox == old(outbox) + (if ok then data else data[..old(room)])
      ensures room == if ok then old(room) - |data| else 0
    {
      var k := 0;
      ghost var sent, room0 := outbox, room;
      while k < |data|
        invariant k <= |data|
        invariant outbox == sent + data[..k] && room + k == room0
      {
        var n := Send(data[k..]);
        if n == 0 {
          return false;
        }
        k := k + n;
      }
      ok := true;
    }
  }

  // ---------------------------------------------------------------- the server object

  class BridgeServer {
    const ctl: Controller
    const payload: array<byte>

    ghost predicate Valid() {
      ctl.Valid() && payload.Length == DMA_BUFFER_SIZE && payload != ctl.sram.mem
    }

    ghost function State(): (s: Server)
      requires Valid()
      reads ctl, ctl.sram.mem, payload
      ensures IsServer(s)
    {
      Server(ctl.State(), payload[..])
    }

    constructor (sh: Shape)
      ensures Valid() && fresh(ctl) && fresh(ctl.sram.mem) && fresh(payload)
      ensures ctl.sram.shape == sh && State().dev == Reset()
    {
      ctl := new Controller(sh);
      payload := new byte[DMA_BUFFER_SIZE](_ => 0);
    }

    method Fill(data: seq<byte>)
      requires Valid() && |data| <= DMA_BUFFER_SIZE
      modifies payload
      ensures payload[..] == Splice(old(payload[..]), 0, data)
    {
      forall k | 0 <= k < |data| {
        payload[k] := data[k];
      }
    }

    /** One request after its payload has arrived. */
    method Handle(h: Header, body: seq<byte>) returns (answer: Header, data: seq<byte>)
      requires Valid() && Servable(State(), h, body)
      modifies ctl, ctl.sram.mem, payload
      ensures Valid()
      ensures Served(State(), answer, data) == Serve(old(State()), ctl.sram.shape, h, body)
    {
      if h.size > DMA_BUFFER_SIZE {
        return h.(status := StatusCode(BurstError), simulatedNs := 0, ctrlIrq := if ctl.irq then 1 else 0), [];
      }
      Fill(body);
      var status, ns;
      if h.isDma != 0 && h.isWrite == 0 && h.size == 0 {
        status, ns := GenericError, 0;
      } else {
        status, ns := Transact(h);
      }
      answer := h.(status := StatusCode(status), simulatedNs := ns % TWO64, ctrlIrq := if ctl.irq then 1 else 0);
      data := if h.isWrite == 0 then payload[..h.size] else [];
    }

    method Transact(h: Header) returns (status: Status, ns: nat)
      requires Valid() && !Oversize(h) && !EmptyBlockRead(h)
      requires Defined(ctl.View(), AccessOf(h, payload[..]))
      modifies ctl, ctl.sram.mem, payload
      ensures Valid()
      ensures var p := old(payload[..]);
              var o := Step(old(ctl.State()), ctl.sram.shape, AccessOf(h, p));
              && ctl.State() == o.dev && status == o.status && ns == o.ns
              && payload[..] == (if IsDma(h) then o.buf else if IsWrite(h) then p else Splice(p, 0, o.buf))
    {
      ghost var p := payload[..];
      var buf;
      status, buf, ns := ctl.BTransport(AccessOf(h, payload[..]));
      if h.isDma != 0 || h.isWrite == 0 {
        Fill(buf);
        assert h.isDma != 0 ==> payload[..] == buf;
      }
    }

    /** What is still to be done for the bytes a client has sent. */
    ghost function Pending(client: Socket): Session
      requires Valid() && StreamServable(State(), ctl.sram.shape, client.inbox)
      reads client, ctl, ctl.sram.mem, payload
    {
      ServeUntilGone(State(), ctl.sram.shape, client.inbox, client.room)
    }

    /** The server loop: it answers every complete request and stops when the client is gone, in
        either direction. */
    method Run(client: Socket)
      requires Valid() && StreamServable(State(), ctl.sram.shape, client.inbox)
      modifies client, ctl, ctl.sram.mem, payload
      ensures Valid()
      ensures client.outbox == old(client.outbox) + old(Pending(client)).out
      ensures ctl.State() == old(Pending(client)).server.dev
    {
      ghost var all, out0, sent := Pending(client), client.outbox, [];
      var more := true;
      while more
        invariant Valid() && client.outbox == out0 + sent
        invariant OnTrack(client, all, sent, more)
        decreases if more then 1 + |client.inbox| else 0
      {
        more, sent := Turn(client, all, sent);
      }
    }

    /** What was sent and what is still to be done make up the session `all`. */
    ghost predicate OnTrack(client: Socket, all: Session, sent: seq<byte>, more: bool)
      requires Valid()
      reads client, ctl, ctl.sram.mem, payload
    {
      if more then StreamServable(State(), ctl.sram.shape, client.inbox) && all == Pending(client).Prepend(sent)
      else all == Session(State(), sent)
    }

    method Turn(client: Socket, ghost all: Session, ghost sent: seq<byte>) returns (more: bool, ghost sent': seq<byte>)
      requires Valid() && OnTrack(client, all, sent, true)
      modifies client, ctl, ctl.sram.mem, payload
      ensures Valid() && OnTrack(client, all, sent', more)
      ensures forall out0 :: old(client.outbox) == out0 + sent ==> client.outbox == out0 + sent'
      ensures more ==> |client.inbox| < |old(client.inbox)|
    {
      ghost var piece;
      more, piece := ServeNext(client);
      if more {
        PrependTwice(Pending(client), sent, piece);
      }
      sent' := sent + piece;
    }

    /** One turn of the loop. */
    method ServeNext(client: Socket) returns (more: bool, ghost piece: seq<byte>)
      requires Valid() && StreamServable(State(), ctl.sram.shape, client.inbox)
      modifies client, ctl, ctl.sram.mem, payload
      ensures Valid() && client.outbox == old(client.outbox) + piece
      ensures !more ==> old(Pending(client)) == Session(State(), piece)
      ensures more ==> |client.inbox| < |old(client.inbox)|
      ensures more ==> StreamServable(State(), ctl.sram.shape, client.inbox)
      ensures more ==> old(Pending(client)) == Pending(client).Prepend(piece)
    {
      ghost var s, stream := State(), client.inbox;
      var h, body;
      more, h, body := ReceiveRequest(client);
      piece := [];
      if more {
        ServeUnfolds(s, ctl.sram.shape, stream, h, body, client.inbox);
        var answer, data := Handle(h, body);
        more, piece := Respond(client, EncodeHeader(answer), data, h.size > DMA_BUFFER_SIZE);
      }
    }

    /** The answer to an oversize request is sent without looking at the result. */
    method Respond(client: Socket, head: seq<byte>, data: seq<byte>, unchecked: bool)
      returns (more: bool, ghost piece: seq<byte>)
      modifies client`outbox, client`room
      ensures more <==> |head + data| <= old(client.room) || unchecked
      ensures piece == Taken(head + data, old(client.room)) && client.outbox == old(client.outbox) + piece
      ensures client.room == old(client.room) - |piece|
    {
      ghost var room := client.room;
      piece := Taken(head + data, room);
      TakenSum(head, data, room);
      more := client.SendAll(head);
      if more {
        more := client.SendAll(data);
      } else {
        assert Taken(data, 0) == [];
      }
      more := more || unchecked;
    }

    method ReceiveRequest(client: Socket) returns (ok: bool, h: Header, body: seq<byte>)
      modifies client`inbox
      ensures ok <==> HasRequest(old(client.inbox))
      ensures ok ==> Cut(old(client.inbox)) == (h, body, client.inbox)
    {
      ghost var stream := client.inbox;
      var head;
      ok, head := client.RecvAll(HEADER_SIZE);
      body := [];
      if !ok {
        h := BlockRequest(false, 0, 0);
        return;
      }
      h := DecodeHeader(head);
      assert head == stream[..HEADER_SIZE];
      if h.size > 0 && h.size <= DMA_BUFFER_SIZE && h.isWrite != 0 {
        ok, body := client.RecvAll(h.size);
      }
      if ok {
        assert stream[HEADER_SIZE..][BodyLen(h)..] == stream[HEADER_SIZE + BodyLen(h)..];
        assert body == stream[HEADER_SIZE..HEADER_SIZE + BodyLen(h)];
      }
    }
  }

  lemma ServeUnfolds(s: Server, sh: Shape, stream: seq<byte>, h: Header, body: seq<byte>, rest: seq<byte>)
    requires StreamServable(s, sh, stream) && HasRequest(stream) && Cut(stream) == (h, body, rest)
    ensures Servable(s, h, body) && |rest| < |stream|
    ensures StreamServable(Serve(s, sh, h, body).server, sh, rest)
    ensures var r := Serve(s, sh, h, body);
            Answering(s, sh, stream) == Answered(Reply(r), Oversize(h), r.server, Answering(r.server, sh, rest))
  {
  }
}
