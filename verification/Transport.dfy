/** Messages with file descriptors over a socket: a header with the two lengths,
    then the message with the descriptors attached. */
module Transport {
  import opened Options

  type Byte = b: int | 0 <= b < 256

  type Fd = int

  // The header.

  const WIDTH := 8
  const HEADER_SIZE := 16

  function Limit(width: nat): nat {
    if width == 0 then 1 else 256 * Limit(width - 1)
  }

  type Uint64 = n: int | 0 <= n < 0x1_0000_0000_0000_0000

  /** The `width` lowest bytes of `n`, lowest first. */
  function Bytes(n: nat, width: nat): (bytes: seq<Byte>)
    ensures |bytes| == width
  {
    if width == 0 then [] else [n % 256] + Bytes(n / 256, width - 1)
  }

  function Number(bytes: seq<Byte>): nat {
    if bytes == [] then 0 else bytes[0] + 256 * Number(bytes[1..])
  }

  lemma {:induction false} NumberOfBytes(n: nat, width: nat)
    requires n < Limit(width)
    ensures Number(Bytes(n, width)) == n
  {
    if width > 0 {
      NumberOfBytes(n / 256, width - 1);
    }
  }

  lemma {:induction false} BytesOfNumber(bytes: seq<Byte>)
    ensures Number(bytes) < Limit(|bytes|) && Bytes(Number(bytes), |bytes|) == bytes
  {
    if bytes != [] {
      BytesOfNumber(bytes[1..]);
      var rest := Number(bytes[1..]);
      assert (bytes[0] + 256 * rest) / 256 == rest && (bytes[0] + 256 * rest) % 256 == bytes[0];
    }
  }

  /** Without its k lowest bytes. */
  function Shifted(n: nat, k: nat): nat
    decreases k
  {
    if k == 0 then n else Shifted(n / 256, k - 1)
  }

  /** Little-endian: the k-th byte is the lowest one once k are gone. */
  lemma {:induction false} LowestFirst(n: nat, width: nat, k: nat)
    requires k < width
    ensures Bytes(n, width)[k] == Shifted(n, k) % 256
    decreases k
  {
    if k > 0 {
      LowestFirst(n / 256, width - 1, k - 1);
    }
  }

  datatype Header = Header(size: Uint64, fds: Uint64)

  function Encoded(hdr: Header): (bytes: seq<Byte>)
    ensures |bytes| == HEADER_SIZE
  {
    Bytes(hdr.size, WIDTH) + Bytes(hdr.fds, WIDTH)
  }

  lemma LimitIs64Bits()
    ensures Limit(WIDTH) == 0x1_0000_0000_0000_0000
  {
    assert Limit(2) == 256 * Limit(1) && Limit(1) == 256 * Limit(0);
    assert Limit(4) == 256 * Limit(3) && Limit(3) == 256 * Limit(2);
    assert Limit(6) == 256 * Limit(5) && Limit(5) == 256 * Limit(4);
    assert Limit(8) == 256 * Limit(7) && Limit(7) == 256 * Limit(6);
  }

  /** parseMessageHeader */
  function Parsed(bytes: seq<Byte>): Header
    requires |bytes| == HEADER_SIZE
  {
    LimitIs64Bits();
    BytesOfNumber(bytes[..WIDTH]);
    BytesOfNumber(bytes[WIDTH..]);
    Header(Number(bytes[..WIDTH]), Number(bytes[WIDTH..]))
  }

  /** Every header survives, and every 16 bytes are some header. */
  lemma HeaderRoundTrip(hdr: Header, bytes: seq<Byte>)
    requires |bytes| == HEADER_SIZE
    ensures Parsed(Encoded(hdr)) == hdr
    ensures Encoded(Parsed(bytes)) == bytes
  {
    LimitIs64Bits();
    NumberOfBytes(hdr.size, WIDTH);
    NumberOfBytes(hdr.fds, WIDTH);
    assert Encoded(hdr)[..WIDTH] == Bytes(hdr.size, WIDTH) && Encoded(hdr)[WIDTH..] == Bytes(hdr.fds, WIDTH);
    BytesOfNumber(bytes[..WIDTH]);
    BytesOfNumber(bytes[WIDTH..]);
    assert bytes == bytes[..WIDTH] + bytes[WIDTH..];
  }

  /** The size comes first, each number with its lowest byte first. */
  lemma HeaderLayout(hdr: Header, k: nat)
    requires k < WIDTH
    ensures Encoded(hdr)[k] == Shifted(hdr.size, k) % 256
    ensures Encoded(hdr)[WIDTH + k] == Shifted(hdr.fds, k) % 256
  {
    LowestFirst(hdr.size, WIDTH, k);
    LowestFirst(hdr.fds, WIDTH, k);
  }

  /** PutUint64 on part of a buffer. */
  method PutUint64(buffer: array<Byte>, at: nat, n: Uint64)
    requires at + WIDTH <= buffer.Length
    modifies buffer
    ensures buffer[at..at + WIDTH] == Bytes(n, WIDTH)
    ensures buffer[..at] == old(buffer[..at]) && buffer[at + WIDTH..] == old(buffer[at + WIDTH..])
  {
    var rest: nat := n;
    for i := 0 to WIDTH
      invariant Bytes(n, WIDTH) == buffer[at..at + i] + Bytes(rest, WIDTH - i)
      invariant buffer[..at] == old(buffer[..at]) && buffer[at + WIDTH..] == old(buffer[at + WIDTH..])
    {
      ghost var done := buffer[at..at + i];
      buffer[at + i] := rest % 256;
      assert buffer[at..at + i + 1] == done + [rest % 256];
      rest := rest / 256;
    }
  }

  method PutMessageHeader(hdr: Header) returns (buffer: array<Byte>)
    ensures fresh(buffer) && buffer[..] == Encoded(hdr)
  {
    buffer := new Byte[HEADER_SIZE](_ => 0);
    PutUint64(buffer, 0, hdr.size);
    ghost var first := buffer[..WIDTH];
    PutUint64(buffer, WIDTH, hdr.fds);
    assert buffer[..] == buffer[..WIDTH] + buffer[WIDTH..WIDTH + WIDTH];
  }

  // The socket.

  /** What one sendmsg put into the socket and has not been received. */
  datatype Segment = Segment(bytes: seq<Byte>, fds: seq<Fd>)

  datatype Message = Message(data: seq<Byte>, fds: seq<Fd>)

  /** More descriptors than this the kernel does not accept at once. */
  const SCM_MAX_FD := 253

  predicate Sendable(m: Message) {
    m.data != [] && |m.data| < 0x1_0000_0000_0000_0000
  }

  predicate Deliverable(m: Message) {
    Sendable(m) && 1 <= |m.fds| <= SCM_MAX_FD
  }

  predicate AllDeliverable(ms: seq<Message>) {
    forall i :: 0 <= i < |ms| ==> Deliverable(ms[i])
  }

  function HeaderOf(m: Message): Header
    requires Sendable(m) && |m.fds| <= SCM_MAX_FD
  {
    Header(|m.data|, |m.fds|)
  }

  function HeaderSegment(m: Message): Segment
    requires Sendable(m) && |m.fds| <= SCM_MAX_FD
  {
    Segment(Encoded(HeaderOf(m)), [])
  }

  function BodySegment(m: Message): Segment {
    Segment(m.data, m.fds)
  }

  function Segments(m: Message): seq<Segment>
    requires Sendable(m) && |m.fds| <= SCM_MAX_FD
  {
    [HeaderSegment(m), BodySegment(m)]
  }

  function Min(a: nat, b: nat): nat { if a <= b then a else b }

  /** recvmsg with room for `room` bytes and `fdRoom` descriptors, of which the
      kernel delivers no more than `most` bytes; what is left of the segment stays,
      without its descriptors. */
  function Received(queue: seq<Segment>, room: nat, fdRoom: nat, most: nat): (Segment, seq<Segment>)
    requires queue != []
  {
    var first := queue[0];
    var n := Min(Min(room, most), |first.bytes|);
    var left := if n == |first.bytes| then [] else [Segment(first.bytes[n..], [])];
    (Segment(first.bytes[..n], first.fds[..Min(fdRoom, |first.fds|)]), left + queue[1..])
  }

  datatype Outcome = Got(message: Message) | Waiting | HasHeader | Failed

  /** One step of a Recv call that may already have taken the header: receiving the
      header, or receiving the message and ending the call. A call that waits
      keeps its header. */
  function RecvStep(queue: seq<Segment>, pending: Option<Header>, most: nat): (Outcome, seq<Segment>, Option<Header>) {
    if queue == [] then (Waiting, queue, pending)
    else
      match pending
      case None =>
        var (header, rest) := Received(queue, HEADER_SIZE, 0, most);
        if |header.bytes| != HEADER_SIZE then (Failed, rest, None) else (HasHeader, rest, Some(Parsed(header.bytes)))
      case Some(hdr) =>
        var (body, rest) := Received(queue, hdr.size, hdr.fds, most);
        if |body.bytes| != hdr.size then (Failed, rest, None)
        else if body.fds == [] then (Failed, rest, None) // no control message to parse
        else (Got(Message(body.bytes, body.fds)), rest, None)
  }

  /** The steps of one call until it waits or ends. */
  function RecvSteps(queue: seq<Segment>, pending: Option<Header>, most1: nat, most2: nat): (Outcome, seq<Segment>, Option<Header>) {
    if pending.Some? then RecvStep(queue, pending, most2)
    else
      var (r, rest, hdr) := RecvStep(queue, pending, most1);
      if r == HasHeader then RecvStep(rest, hdr, most2) else (r, rest, hdr)
  }

  class Channel {
    var queue: seq<Segment>
    var pending: Option<Header>

    constructor ()
      ensures queue == [] && pending == None
    {
      queue, pending := [], None;
    }

    /** The header goes out before the kernel gets to refuse the descriptors. */
    method Send(m: Message) returns (ok: bool)
      requires Sendable(m) && |m.fds| < 0x1_0000_0000_0000_0000
      modifies this`queue
      ensures ok <==> |m.fds| <= SCM_MAX_FD
      ensures ok ==> queue == old(queue) + Segments(m)
      ensures !ok ==> queue == old(queue) + [Segment(Encoded(Header(|m.data|, |m.fds|)), [])]
    {
      var fds := [];
      for i := 0 to |m.fds|
        invariant fds == m.fds[..i]
      {
        fds := fds + [m.fds[i]];
      }
      assert fds == m.fds;
      var hdrBuffer := PutMessageHeader(Header(|m.data|, |fds|));
      queue := queue + [Segment(hdrBuffer[..], [])];
      if |fds| > SCM_MAX_FD { return false; }
      queue := queue + [Segment(m.data, fds)];
      assert queue == old(queue) + Segments(m);
      return true;
    }

    /** Recv, until it ends or has to wait; called again it is the same call, going
        on with the header it may have taken. */
    method Recv(most1: nat, most2: nat) returns (r: Outcome)
      modifies this
      ensures (r, queue, pending) == RecvSteps(old(queue), old(pending), most1, most2)
    {
      if pending.None? {
        if queue == [] { return Waiting; }
        var (header, rest) := Received(queue, HEADER_SIZE, 0, most1);
        queue := rest;
        if |header.bytes| != HEADER_SIZE { return Failed; }
        pending := Some(Parsed(header.bytes));
      }
      if queue == [] { return Waiting; }
      var hdr := pending.value;
      var (body, rest) := Received(queue, hdr.size, hdr.fds, most2);
      queue, pending := rest, None;
      if |body.bytes| != hdr.size { return Failed; }
      if body.fds == [] { return Failed; }
      var fds := [];
      for i := 0 to |body.fds|
        invariant fds == body.fds[..i] && queue == rest && pending == None
      {
        fds := fds + [body.fds[i]];
      }
      assert fds == body.fds;
      return Got(Message(body.bytes, fds));
    }
  }

  // Runs.

  /** One sendmsg of the sender, or one recvmsg of the receiver, with as much as the
      kernel delivers; each is busy with one message at a time. */
  datatype Event = SendHeader(m: Message) | SendBody | Receive(most: nat)

  /** `sent` are the messages whose sending has begun, the last one being the one
      that is being sent, if any. */
  datatype State = State(queue: seq<Segment>, sending: Option<Message>, pending: Option<Header>,
                         sent: seq<Message>, got: seq<Message>, failed: bool)

  predicate Proper(e: Event) {
    e.SendHeader? ==> Deliverable(e.m)
  }

  function Step(s: State, e: Event): State
    requires Proper(e)
  {
    if s.failed then s
    else
      match e
      case SendHeader(m) =>
        if s.sending.Some? then s
        else s.(queue := s.queue + [HeaderSegment(m)], sending := Some(m), sent := s.sent + [m])
      case SendBody =>
        if s.sending.None? then s
        else s.(queue := s.queue + [BodySegment(s.sending.value)], sending := None)
      case Receive(most) =>
        var (r, queue, pending) := RecvStep(s.queue, s.pending, most);
        s.(queue := queue, pending := pending,
           got := if r.Got? then s.got + [r.message] else s.got,
           failed := r.Failed?)
  }

  function Run(es: seq<Event>): State
    requires forall e <- es :: Proper(e)
  {
    if es == [] then State([], None, None, [], [], false) else Step(Run(es[..|es| - 1]), es[|es| - 1])
  }

  function AllSegments(ms: seq<Message>): (segments: seq<Segment>)
    requires AllDeliverable(ms)
    ensures |segments| == 2 * |ms|
  {
    if ms == [] then [] else Segments(ms[0]) + AllSegments(ms[1..])
  }

  lemma {:induction false} AllSegmentsLast(ms: seq<Message>, m: Message)
    requires AllDeliverable(ms) && Deliverable(m)
    ensures AllSegments(ms + [m]) == AllSegments(ms) + Segments(m)
  {
    if ms == [] {
      assert [m][1..] == [];
    } else {
      assert (ms + [m])[1..] == ms[1..] + [m];
      AllSegmentsLast(ms[1..], m);
    }
  }

  lemma ReceivesSegment(segment: Segment, rest: seq<Segment>, room: nat, fdRoom: nat, most: nat)
    requires room == |segment.bytes| && fdRoom == |segment.fds|
    ensures var (got, left) := Received([segment] + rest, room, fdRoom, most);
            && (most >= room ==> got == segment && left == rest)
            && (most < room ==> |got.bytes| < room)
  {
    var queue := [segment] + rest;
    assert queue[1..] == rest && [] + rest == rest;
    assert segment.bytes[..room] == segment.bytes && segment.fds[..fdRoom] == segment.fds;
  }

  /** One message is received whole, exactly if it came with a descriptor and the
      kernel delivers both of its parts whole. */
  lemma ReceivesWhole(m: Message, rest: seq<Segment>, most1: nat, most2: nat)
    requires Sendable(m) && |m.fds| <= SCM_MAX_FD
    ensures var (r, queue, pending) := RecvSteps(Segments(m) + rest, None, most1, most2);
            && (r.Got? <==> most1 >= HEADER_SIZE && most2 >= |m.data| && m.fds != [])
            && (r.Got? ==> r.message == m && queue == rest && pending == None)
            && !r.Waiting?
  {
    ReceivesHeader(m, [BodySegment(m)] + rest, most1);
    ReceivesBody(m, rest, most2);
    assert Segments(m) + rest == [HeaderSegment(m)] + ([BodySegment(m)] + rest);
  }

  lemma ReceivesHeader(m: Message, rest: seq<Segment>, most: nat)
    requires Sendable(m) && |m.fds| <= SCM_MAX_FD
    ensures RecvStep([HeaderSegment(m)] + rest, None, most).0 == if most >= HEADER_SIZE then HasHeader else Failed
    ensures most >= HEADER_SIZE ==> RecvStep([HeaderSegment(m)] + rest, None, most) == (HasHeader, rest, Some(HeaderOf(m)))
  {
    HeaderRoundTrip(HeaderOf(m), Encoded(HeaderOf(m)));
    ReceivesSegment(HeaderSegment(m), rest, HEADER_SIZE, 0, most);
  }

  lemma ReceivesBody(m: Message, rest: seq<Segment>, most: nat)
    requires Sendable(m) && |m.fds| <= SCM_MAX_FD
    ensures var r := RecvStep([BodySegment(m)] + rest, Some(HeaderOf(m)), most);
            if most >= |m.data| && m.fds != [] then r == (Got(m), rest, None) else r.0 == Failed
  {
    ReceivesSegment(BodySegment(m), rest, |m.data|, |m.fds|, most);
  }

  /** What the receiver has taken of the first message and what the sender still
      has to send of the last one, with the socket's content in between, are the
      segments of the messages under way. */
  ghost predicate UnderWay(queue: seq<Segment>, pending: Option<Header>, sending: Option<Message>, way: seq<Message>)
    requires AllDeliverable(way)
  {
    && (pending.Some? ==> way != [] && pending.value == HeaderOf(way[0]))
    && (sending.Some? ==> way != [] && sending.value == way[|way| - 1])
    && Taken(pending, way) + queue + Missing(sending) == AllSegments(way)
  }

  function Taken(pending: Option<Header>, way: seq<Message>): seq<Segment>
    requires AllDeliverable(way)
  {
    if pending.Some? && way != [] then [HeaderSegment(way[0])] else []
  }

  function Missing(sending: Option<Message>): seq<Segment> {
    if sending.Some? then [BodySegment(sending.value)] else []
  }

  /** What is received is what was sent, in order, and until a receive fails nothing
      under way is lost. */
  ghost predicate InOrder(s: State) {
    && AllDeliverable(s.sent) && s.got <= s.sent
    && (!s.failed ==> UnderWay(s.queue, s.pending, s.sending, s.sent[|s.got|..]))
  }

  lemma SendHeaderOnWay(queue: seq<Segment>, pending: Option<Header>, way: seq<Message>, m: Message)
    requires AllDeliverable(way) && Deliverable(m) && UnderWay(queue, pending, None, way)
    ensures UnderWay(queue + [HeaderSegment(m)], pending, Some(m), way + [m])
  {
    AllSegmentsLast(way, m);
    var taken := Taken(pending, way);
    assert Taken(pending, way + [m]) == taken;
    assert taken + (queue + [HeaderSegment(m)]) + [BodySegment(m)] == (taken + queue + []) + Segments(m);
  }

  lemma SendBodyOnWay(queue: seq<Segment>, pending: Option<Header>, way: seq<Message>, m: Message)
    requires AllDeliverable(way) && UnderWay(queue, pending, Some(m), way)
    ensures UnderWay(queue + [BodySegment(m)], pending, None, way)
  {
    var taken, body := Taken(pending, way), [BodySegment(m)];
    assert taken + (queue + body) + [] == taken + queue + body;
  }

  /** The first segment in the socket, and what it means to take it. */
  lemma ReceiveHeaderOnWay(queue: seq<Segment>, sending: Option<Message>, way: seq<Message>)
    requires AllDeliverable(way) && UnderWay(queue, None, sending, way) && queue != []
    ensures way != [] && queue[0] == HeaderSegment(way[0])
    ensures UnderWay(queue[1..], Some(HeaderOf(way[0])), sending, way)
  {
    assert ([] + queue + Missing(sending))[0] == queue[0];
    assert AllSegments(way)[0] == HeaderSegment(way[0]);
    assert [queue[0]] + queue[1..] + Missing(sending) == [] + queue + Missing(sending);
  }

  lemma ReceiveBodyOnWay(queue: seq<Segment>, hdr: Header, sending: Option<Message>, way: seq<Message>)
    requires AllDeliverable(way) && UnderWay(queue, Some(hdr), sending, way) && queue != []
    ensures way != [] && hdr == HeaderOf(way[0]) && queue[0] == BodySegment(way[0])
    ensures UnderWay(queue[1..], None, sending, way[1..])
  {
    var m, rest := way[0], AllSegments(way[1..]);
    assert Taken(Some(hdr), way) == [HeaderSegment(m)];
    assert AllSegments(way) == Segments(m) + rest;
    TakeSecond(HeaderSegment(m), BodySegment(m), rest, queue, Missing(sending));
    assert |rest| == 2 * |way[1..]|;
    assert [] + queue[1..] + Missing(sending) == queue[1..] + Missing(sending);
  }

  lemma TakeSecond(first: Segment, second: Segment, rest: seq<Segment>, queue: seq<Segment>, missing: seq<Segment>)
    requires [first] + queue + missing == [first, second] + rest && queue != []
    ensures queue[0] == second && queue[1..] + missing == rest
  {
    var all := [first] + queue + missing;
    assert all[1] == queue[0] && all[2..] == queue[1..] + missing;
    assert ([first, second] + rest)[1] == second && ([first, second] + rest)[2..] == rest;
  }

  lemma SendKeepsOrder(s: State, e: Event)
    requires InOrder(s) && !s.failed && Proper(e) && !e.Receive?
    ensures InOrder(Step(s, e))
  {
    var way := s.sent[|s.got|..];
    if e.SendHeader? && s.sending.None? {
      assert (s.sent + [e.m])[|s.got|..] == way + [e.m];
      SendHeaderOnWay(s.queue, s.pending, way, e.m);
    } else if e.SendBody? && s.sending.Some? {
      SendBodyOnWay(s.queue, s.pending, way, s.sending.value);
    }
  }

  lemma ReceiveKeepsOrder(s: State, most: nat)
    requires InOrder(s) && !s.failed
    ensures InOrder(Step(s, Receive(most)))
  {
    var way := s.sent[|s.got|..];
    if s.queue != [] {
      assert s.queue == [s.queue[0]] + s.queue[1..];
      if s.pending.None? {
        ReceiveHeaderOnWay(s.queue, s.sending, way);
        ReceivesHeader(way[0], s.queue[1..], most);
      } else {
        ReceiveBodyOnWay(s.queue, s.pending.value, s.sending, way);
        ReceivesBody(way[0], s.queue[1..], most);
        assert way[0] == s.sent[|s.got|] && s.sent[|s.got| + 1..] == way[1..];
      }
    }
  }

  /** Over any run in which every message sent has descriptors, with sender and
      receiver in the middle of messages or not. */
  lemma {:induction false} Fifo(es: seq<Event>)
    requires forall e <- es :: Proper(e)
    ensures InOrder(Run(es))
    decreases |es|
  {
    if es != [] {
      var before, e := es[..|es| - 1], es[|es| - 1];
      assert e in es;
      Fifo(before);
      var s := Run(before);
      if !s.failed {
        match e
        case Receive(most) => ReceiveKeepsOrder(s, most);
        case _ => SendKeepsOrder(s, e);
      }
    }
  }
}
