/** Copying from one terminal to another, over short reads and writes and
    interrupted calls. The kernel's answers are given as scripts; where a script
    ends, the program is waiting in that call. */
module PtyForward {

  type Byte = bv8

  /** What read answers; EIO is treated like an interruption. */
  datatype ReadEvent = Data(bytes: seq<Byte>) | Eof | ReadInterrupted | ReadError

  /** What write answers; it never takes more than it is offered. */
  datatype WriteEvent = Wrote(n: nat) | WriteInterrupted | WriteError

  datatype Status = Ended | Reading | ReadFailed | Writing | WriteFailed

  /** The buffer's size, how far one unit of `offs` moves the address that is
      written from, and what the memory behind the buffer holds. An offset counts
      bytes if the stride is 1; as the code is written the stride is the size,
      since what `offs` is added to is the address of the whole buffer. */
  datatype Memory = Memory(size: nat, stride: nat, beyond: nat -> Byte)

  function Min(a: nat, b: nat): nat { if a <= b then a else b }

  /** The zeroed buffer with `chunk` read into it, and the memory behind it. */
  function ByteAt(m: Memory, chunk: seq<Byte>, address: nat): Byte {
    if address >= m.size then m.beyond(address) else if address < |chunk| then chunk[address] else 0
  }

  function Window(m: Memory, chunk: seq<Byte>, address: nat, n: nat): (w: seq<Byte>)
    ensures |w| == n
  {
    seq(n, i requires 0 <= i < n => ByteAt(m, chunk, address + i))
  }

  lemma WindowInside(m: Memory, chunk: seq<Byte>, address: nat, n: nat)
    requires address + n <= |chunk| <= m.size
    ensures Window(m, chunk, address, n) == chunk[address..address + n]
  {
    forall i | 0 <= i < n ensures Window(m, chunk, address, n)[i] == chunk[address..address + n][i] {
      assert Window(m, chunk, address, n)[i] == ByteAt(m, chunk, address + i);
    }
  }

  /** What the inner loop writes, the write calls it leaves, and whether it gets
      to its end; otherwise it is waiting or has failed. */
  datatype Sent = Sent(out: seq<Byte>, rest: seq<WriteEvent>, stuck: bool, failed: bool)

  function Send(m: Memory, chunk: seq<Byte>, offs: nat, writes: seq<WriteEvent>): Sent
    decreases |writes|
  {
    if offs >= |chunk| then Sent([], writes, false, false)
    else if writes == [] then Sent([], [], true, false)
    else
      match writes[0]
      case WriteInterrupted => Send(m, chunk, offs, writes[1..])
      case WriteError => Sent([], writes[1..], false, true)
      case Wrote(count) =>
        var n := Min(count, |chunk| - offs);
        var later := Send(m, chunk, offs + n, writes[1..]);
        Onto(Window(m, chunk, offs * m.stride, n), later)
  }

  /** Everything written and read, and where the program is. */
  datatype Copied = Copied(written: seq<Byte>, taken: seq<Byte>, status: Status)

  function Taken(m: Memory, bytes: seq<Byte>): seq<Byte> {
    bytes[..Min(|bytes|, m.size)]
  }

  function Forward(m: Memory, input: seq<ReadEvent>, writes: seq<WriteEvent>): Copied
    decreases |input|
  {
    if input == [] then Copied([], [], Reading)
    else
      match input[0]
      case ReadInterrupted => Forward(m, input[1..], writes)
      case ReadError => Copied([], [], ReadFailed)
      case Eof => Copied([], [], Ended)
      case Data(bytes) =>
        var chunk := Taken(m, bytes);
        if chunk == [] then Copied([], [], Ended)
        else
          var sent := Send(m, chunk, 0, writes);
          if sent.failed then Copied(sent.out, chunk, WriteFailed)
          else if sent.stuck then Copied(sent.out, chunk, Writing)
          else
            var later := Forward(m, input[1..], sent.rest);
            Copied(sent.out + later.written, chunk + later.taken, later.status)
  }

  /** nsbox_forward_pty. */
  method ForwardPty(m: Memory, input: seq<ReadEvent>, writes: seq<WriteEvent>) returns (r: Copied)
    ensures r == Forward(m, input, writes)
  {
    var written, taken: seq<Byte> := [], [];
    var i, w := 0, writes;
    while i < |input|
      invariant i <= |input|
      invariant Forward(m, input, writes) == After(written, taken, Forward(m, input[i..], w))
    {
      var event := input[i];
      i := i + 1;
      assert input[i - 1..][1..] == input[i..];
      if event == ReadInterrupted { continue; }
      if event == ReadError { return Copied(written, taken, ReadFailed); }
      var chunk := if event == Eof then [] else Taken(m, event.bytes);
      if chunk == [] { return Copied(written, taken, Ended); }
      var sent := WriteAll(m, chunk, w);
      written, taken, w := written + sent.out, taken + chunk, sent.rest;
      if sent.failed { return Copied(written, taken, WriteFailed); }
      if sent.stuck { return Copied(written, taken, Writing); }
    }
    assert input[i..] == [];
    return Copied(written, taken, Reading);
  }

  /** The inner loop of nsbox_forward_pty. */
  method WriteAll(m: Memory, chunk: seq<Byte>, writes: seq<WriteEvent>) returns (sent: Sent)
    ensures sent == Send(m, chunk, 0, writes)
  {
    var out: seq<Byte>, w := [], writes;
    var offs: nat := 0;
    while offs < |chunk|
      invariant offs <= |chunk|
      invariant Send(m, chunk, 0, writes) == Onto(out, Send(m, chunk, offs, w))
      decreases |w|
    {
      if w == [] { return Sent(out, [], true, false); }
      var answer := w[0];
      w := w[1..];
      if answer == WriteInterrupted { continue; }
      if answer == WriteError { return Sent(out, w, false, true); }
      var n := Min(answer.n, |chunk| - offs);
      var window := Window(m, chunk, offs * m.stride, n);
      OntoTwice(out, window, Send(m, chunk, offs + n, w));
      out := out + window;
      offs := offs + n;
    }
    return Sent(out, w, false, false);
  }

  function After(written: seq<Byte>, taken: seq<Byte>, later: Copied): Copied {
    Copied(written + later.written, taken + later.taken, later.status)
  }

  function Onto(out: seq<Byte>, later: Sent): Sent {
    later.(out := out + later.out)
  }

  lemma OntoTwice(a: seq<Byte>, b: seq<Byte>, later: Sent)
    ensures Onto(a, Onto(b, later)) == Onto(a + b, later)
  {
    assert a + (b + later.out) == a + b + later.out;
  }

  // With an offset in bytes.

  lemma {:induction false} SendCopies(m: Memory, chunk: seq<Byte>, offs: nat, writes: seq<WriteEvent>)
    requires m.stride == 1 && |chunk| <= m.size && offs <= |chunk|
    ensures var sent := Send(m, chunk, offs, writes);
            && sent.out <= chunk[offs..]
            && (!sent.stuck && !sent.failed ==> sent.out == chunk[offs..])
    decreases |writes|
  {
    if offs < |chunk| && writes != [] && !writes[0].WriteError? {
      var n := if writes[0].Wrote? then Min(writes[0].n, |chunk| - offs) else 0;
      SendCopies(m, chunk, offs + n, writes[1..]);
      assert offs * m.stride == offs;
      WindowInside(m, chunk, offs, n);
      assert chunk[offs..] == chunk[offs..offs + n] + chunk[offs + n..];
    }
  }

  /** What has been written is a prefix of what has been read, and all of it unless
      the program is inside its inner loop or has failed there. */
  predicate Right(r: Copied) {
    r.written <= r.taken && (r.status != Writing && r.status != WriteFailed ==> r.written == r.taken)
  }

  lemma {:induction false} ByteOffsetCopies(m: Memory, input: seq<ReadEvent>, writes: seq<WriteEvent>)
    requires m.stride == 1
    ensures Right(Forward(m, input, writes))
    decreases |input|
  {
    if input != [] {
      if input[0].Data? {
        var chunk := Taken(m, input[0].bytes);
        SendCopies(m, chunk, 0, writes);
        assert chunk[0..] == chunk;
        ByteOffsetCopies(m, input[1..], Send(m, chunk, 0, writes).rest);
      } else {
        ByteOffsetCopies(m, input[1..], writes);
      }
    }
  }

  // With an offset in buffers.

  /** Some byte of a chunk is written after a short write. */
  predicate ChunkResumes(length: nat, offs: nat, writes: seq<WriteEvent>)
    decreases |writes|
  {
    && offs < length && writes != [] && !writes[0].WriteError?
    && var n := if writes[0].Wrote? then Min(writes[0].n, length - offs) else 0;
    (offs > 0 && n > 0) || ChunkResumes(length, offs + n, writes[1..])
  }

  predicate Resumes(m: Memory, input: seq<ReadEvent>, writes: seq<WriteEvent>)
    decreases |input|
  {
    && input != []
    && if input[0].ReadInterrupted? then Resumes(m, input[1..], writes)
    else
      && input[0].Data?
      && var chunk := Taken(m, input[0].bytes); var sent := Send(m, chunk, 0, writes);
      && chunk != []
      && (ChunkResumes(|chunk|, 0, writes) || (!sent.failed && !sent.stuck && Resumes(m, input[1..], sent.rest)))
  }

  /** Without resuming, a chunk goes out in one piece or not to its end. */
  lemma {:induction false} SendsAtOnce(m: Memory, chunk: seq<Byte>, offs: nat, writes: seq<WriteEvent>)
    requires |chunk| <= m.size && offs < |chunk| && !ChunkResumes(|chunk|, offs, writes)
    ensures var sent := Send(m, chunk, offs, writes);
            && (offs > 0 ==> sent.out == [] && (sent.stuck || sent.failed))
            && (offs == 0 ==> sent.out <= chunk && (!sent.stuck && !sent.failed ==> sent.out == chunk))
    decreases |writes|
  {
    if writes != [] && !writes[0].WriteError? {
      var n := if writes[0].Wrote? then Min(writes[0].n, |chunk| - offs) else 0;
      if offs + n < |chunk| { SendsAtOnce(m, chunk, offs + n, writes[1..]); }
      if n > 0 { WindowInside(m, chunk, 0, n); }
    }
  }

  /** The offset at which a chunk is first resumed. */
  function ResumePoint(length: nat, offs: nat, writes: seq<WriteEvent>): (k: nat)
    requires ChunkResumes(length, offs, writes)
    ensures offs <= k < length
    decreases |writes|
  {
    var n := if writes[0].Wrote? then Min(writes[0].n, length - offs) else 0;
    if offs > 0 && n > 0 then offs else ResumePoint(length, offs + n, writes[1..])
  }

  /** The same memory with `b` everywhere behind the buffer. */
  function Filled(m: Memory, b: Byte): Memory {
    m.(beyond := _ => b)
  }

  /** Resuming writes what lies behind the buffer. */
  lemma {:induction false} SendsBeyond(m: Memory, chunk: seq<Byte>, offs: nat, writes: seq<WriteEvent>, b: Byte)
    requires |chunk| <= m.size == m.stride && ChunkResumes(|chunk|, offs, writes)
    ensures Diverges(Send(Filled(m, b), chunk, offs, writes).out, chunk, offs, ResumePoint(|chunk|, offs, writes), b)
    decreases |writes|
  {
    var n := if writes[0].Wrote? then Min(writes[0].n, |chunk| - offs) else 0;
    if offs > 0 && n > 0 {
      AtLeastOnce(offs, m.stride);
      WindowBeyond(m, chunk, offs * m.stride, n, b);
    } else {
      SendsBeyond(m, chunk, offs + n, writes[1..], b);
      var later := Send(Filled(m, b), chunk, offs + n, writes[1..]).out;
      DivergesLater(later, chunk, offs, n, ResumePoint(|chunk|, offs, writes), b);
      if n > 0 { WindowInside(Filled(m, b), chunk, 0, n); }
      assert n == 0 ==> chunk[offs..offs + n] == [];
    }
  }

  lemma DivergesLater(later: seq<Byte>, chunk: seq<Byte>, offs: nat, n: nat, k: nat, b: Byte)
    requires Diverges(later, chunk, offs + n, k, b)
    ensures Diverges(chunk[offs..offs + n] + later, chunk, offs, k, b)
    ensures n == 0 ==> Diverges(later, chunk, offs, k, b)
  {
    var out := chunk[offs..offs + n] + later;
    assert out[..k - offs] == chunk[offs..offs + n] + later[..k - offs - n];
    assert chunk[offs..k] == chunk[offs..offs + n] + chunk[offs + n..k];
  }

  lemma WindowBeyond(m: Memory, chunk: seq<Byte>, address: nat, n: nat, b: Byte)
    requires address >= m.size && n > 0
    ensures Window(Filled(m, b), chunk, address, n)[0] == b
  {
    assert Window(Filled(m, b), chunk, address, n)[0] == ByteAt(Filled(m, b), chunk, address + 0);
  }

  lemma AtLeastOnce(times: nat, size: nat)
    requires times > 0
    ensures times * size >= size
  {
    assert times * size == (times - 1) * size + size;
  }

  /** From offset `offs` on, `out` follows the chunk up to position k and then has `b`. */
  predicate Diverges(out: seq<Byte>, chunk: seq<Byte>, offs: nat, k: nat, b: Byte) {
    && offs <= k < |chunk| && k - offs < |out|
    && out[..k - offs] == chunk[offs..k] && out[k - offs] == b
  }

  /** Where the loops go does not depend on what lies behind the buffer. */
  lemma {:induction false} ControlIsTheSame(m: Memory, beyond: nat -> Byte, chunk: seq<Byte>, offs: nat, writes: seq<WriteEvent>)
    ensures Send(m.(beyond := beyond), chunk, offs, writes).(out := []) == Send(m, chunk, offs, writes).(out := [])
    decreases |writes|
  {
    if offs < |chunk| && writes != [] && !writes[0].WriteError? {
      var n := if writes[0].Wrote? then Min(writes[0].n, |chunk| - offs) else 0;
      ControlIsTheSame(m, beyond, chunk, offs + n, writes[1..]);
    }
  }

  lemma {:induction false} NeverResumingCopies(m: Memory, beyond: nat -> Byte, input: seq<ReadEvent>, writes: seq<WriteEvent>)
    requires !Resumes(m, input, writes)
    ensures Right(Forward(m.(beyond := beyond), input, writes))
    decreases |input|
  {
    var m' := m.(beyond := beyond);
    if input != [] && input[0].ReadInterrupted? {
      NeverResumingCopies(m, beyond, input[1..], writes);
    } else if input != [] && input[0].Data? && Taken(m, input[0].bytes) != [] {
      var chunk := Taken(m, input[0].bytes);
      var sent := Send(m', chunk, 0, writes);
      ControlIsTheSame(m, beyond, chunk, 0, writes);
      SendsAtOnce(m', chunk, 0, writes);
      if !sent.stuck && !sent.failed { NeverResumingCopies(m, beyond, input[1..], sent.rest); }
    }
  }

  lemma {:induction false} ResumingDiverges(m: Memory, input: seq<ReadEvent>, writes: seq<WriteEvent>) returns (b: Byte)
    requires m.stride == m.size && Resumes(m, input, writes)
    ensures !(Forward(Filled(m, b), input, writes).written <= Forward(Filled(m, b), input, writes).taken)
    decreases |input|
  {
    if input[0].ReadInterrupted? {
      b := ResumingDiverges(m, input[1..], writes);
    } else {
      var chunk := Taken(m, input[0].bytes);
      if ChunkResumes(|chunk|, 0, writes) {
        var k := ResumePoint(|chunk|, 0, writes);
        b := if chunk[k] == 0 then 1 else 0;
        SendsBeyond(m, chunk, 0, writes, b);
        var m' := Filled(m, b);
        var r := Forward(m', input, writes);
        assert r.written[k] == b && r.taken[k] == chunk[k];
      } else {
        b := ResumingDiverges(m, input[1..], Send(m, chunk, 0, writes).rest);
        var m' := Filled(m, b);
        ControlIsTheSame(m, m'.beyond, chunk, 0, writes);
        SendsAtOnce(m', chunk, 0, writes);
        var later := Forward(m', input[1..], Send(m, chunk, 0, writes).rest);
        if chunk + later.written <= chunk + later.taken { CancelPrefix(chunk, later.written, later.taken); }
      }
    }
  }

  lemma CancelPrefix(a: seq<Byte>, b: seq<Byte>, c: seq<Byte>)
    requires a + b <= a + c
    ensures b <= c
  {
    assert (a + b)[|a|..] == b && (a + c)[|a|..|a| + |b|] == c[..|b|];
  }

  /** The copy is right at every moment if offsets count bytes, and however they
      count as long as no chunk is resumed after a short write. */
  lemma CopiesInOrder(m: Memory, input: seq<ReadEvent>, writes: seq<WriteEvent>)
    requires m.stride == 1 || !Resumes(m, input, writes)
    ensures Right(Forward(m, input, writes))
  {
    if m.stride == 1 {
      ByteOffsetCopies(m, input, writes);
    } else {
      NeverResumingCopies(m, m.beyond, input, writes);
      assert m.(beyond := m.beyond) == m;
    }
  }

  // What was read.

  /** The kernel delivers no more than the buffer has room for. */
  predicate Fits(m: Memory, input: seq<ReadEvent>) {
    forall event <- input :: event.Data? ==> |event.bytes| <= m.size
  }

  /** All the bytes that the answers deliver. */
  function Delivered(input: seq<ReadEvent>): seq<Byte> {
    if input == [] then []
    else (if input[0].Data? then input[0].bytes else []) + Delivered(input[1..])
  }

  /** An answer after which the loop reads on. */
  predicate GoesOn(event: ReadEvent) {
    event.ReadInterrupted? || (event.Data? && event.bytes != [])
  }

  predicate EndsInput(event: ReadEvent) {
    event.Eof? || (event.Data? && event.bytes == [])
  }

  /** The loop has dealt with the first k answers, and why it is where it is: the
      answers have run out, the next one ends the input or is an error, or the last
      one is still being written. */
  ghost predicate StandsAt(input: seq<ReadEvent>, r: Copied, k: nat) {
    && k <= |input| && (forall event <- input[..k] :: GoesOn(event))
    && r.taken == Delivered(input[..k])
    && match r.status
       case Reading => k == |input|
       case Ended => k < |input| && EndsInput(input[k])
       case ReadFailed => k < |input| && input[k].ReadError?
       case Writing => k > 0 && input[k - 1].Data?
       case WriteFailed => k > 0 && input[k - 1].Data?
  }

  /** Nothing that was read is dropped, and nothing is made up. */
  lemma {:induction false} TakesWhatIsRead(m: Memory, input: seq<ReadEvent>, writes: seq<WriteEvent>) returns (k: nat)
    requires Fits(m, input)
    ensures StandsAt(input, Forward(m, input, writes), k)
    decreases |input|
  {
    k := 0;
    if input != [] && GoesOn(input[0]) {
      assert input[0] in input && forall event <- input[1..] :: event in input;
      assert input[..1] == [input[0]] && [input[0]][1..] == [];
      if input[0].Data? {
        var chunk := Taken(m, input[0].bytes);
        assert chunk == input[0].bytes;
        var sent := Send(m, chunk, 0, writes);
        if sent.failed || sent.stuck {
          k := 1;
          assert Delivered([input[0]]) == chunk + [];
        } else {
          var later := TakesWhatIsRead(m, input[1..], sent.rest);
          k := later + 1;
          OneAnswerMore(input, later);
        }
      } else {
        var later := TakesWhatIsRead(m, input[1..], writes);
        k := later + 1;
        OneAnswerMore(input, later);
      }
    }
  }

  lemma OneAnswerMore(input: seq<ReadEvent>, k: nat)
    requires k < |input|
    ensures input[..k + 1] == [input[0]] + input[1..][..k]
    ensures Delivered(input[..k + 1]) == (if input[0].Data? then input[0].bytes else []) + Delivered(input[1..][..k])
  {
    assert input[..k + 1][1..] == input[1..][..k];
  }

  /** How the inner loop ends: the answers it has used are the first ones, with no
      error but possibly the last; it waits only when they have run out, and all of
      the chunk is out exactly if it neither waits nor has failed. */
  ghost predicate SendEnds(chunk: seq<Byte>, offs: nat, writes: seq<WriteEvent>, sent: Sent) {
    && |sent.rest| <= |writes|
    && var used := |writes| - |sent.rest|;
    && sent.rest == writes[used..]
    && (sent.failed <==> used > 0 && writes[used - 1].WriteError?)
    && (forall i :: 0 <= i < used - 1 ==> !writes[i].WriteError?)
    && (sent.stuck ==> used == |writes| && !sent.failed)
    && |sent.out| <= |chunk| - offs
    && (sent.stuck || sent.failed <==> |sent.out| < |chunk| - offs)
  }

  lemma SendEndsLater(chunk: seq<Byte>, offs: nat, writes: seq<WriteEvent>, window: seq<Byte>, later: Sent)
    requires writes != [] && !writes[0].WriteError?
    requires SendEnds(chunk, offs + |window|, writes[1..], later)
    ensures SendEnds(chunk, offs, writes, Onto(window, later))
  {
    var used := |writes[1..]| - |later.rest|;
    assert writes[1..][used..] == writes[used + 1..];
    assert used > 0 ==> writes[used] == writes[1..][used - 1];
    forall i | 0 < i < used ensures !writes[i].WriteError? { assert writes[i] == writes[1..][i - 1]; }
  }

  /** What the first answer gets written. */
  function FirstOut(m: Memory, chunk: seq<Byte>, offs: nat, answer: WriteEvent): (window: seq<Byte>)
    requires offs < |chunk| && !answer.WriteError?
    ensures |window| <= |chunk| - offs
  {
    if answer.WriteInterrupted? then [] else Window(m, chunk, offs * m.stride, Min(answer.n, |chunk| - offs))
  }

  lemma SendOnce(m: Memory, chunk: seq<Byte>, offs: nat, writes: seq<WriteEvent>)
    requires offs < |chunk| && writes != [] && !writes[0].WriteError?
    ensures var window := FirstOut(m, chunk, offs, writes[0]);
            Send(m, chunk, offs, writes) == Onto(window, Send(m, chunk, offs + |window|, writes[1..]))
  {
  }

  lemma SendStops(m: Memory, chunk: seq<Byte>, offs: nat, writes: seq<WriteEvent>)
    requires offs == |chunk| || (offs < |chunk| && (writes == [] || writes[0].WriteError?))
    ensures SendEnds(chunk, offs, writes, Send(m, chunk, offs, writes))
  {
  }

  lemma {:induction false} HowSendEnds(m: Memory, chunk: seq<Byte>, offs: nat, writes: seq<WriteEvent>)
    requires offs <= |chunk|
    ensures SendEnds(chunk, offs, writes, Send(m, chunk, offs, writes))
    decreases |writes|
  {
    if offs == |chunk| || writes == [] || writes[0].WriteError? {
      SendStops(m, chunk, offs, writes);
    } else {
      var window := FirstOut(m, chunk, offs, writes[0]);
      SendOnce(m, chunk, offs, writes);
      HowSendEnds(m, chunk, offs + |window|, writes[1..]);
      SendEndsLater(chunk, offs, writes, window, Send(m, chunk, offs + |window|, writes[1..]));
    }
  }

  /** So whenever the copy is right, what is written is what the reads delivered: all
      of it, except that while a chunk is being written its end may be missing. */
  lemma CopiesWhatIsRead(m: Memory, input: seq<ReadEvent>, writes: seq<WriteEvent>) returns (k: nat)
    requires Fits(m, input) && (m.stride == 1 || !Resumes(m, input, writes))
    ensures var r := Forward(m, input, writes);
            && StandsAt(input, r, k)
            && r.written <= Delivered(input[..k])
            && (r.status in {Reading, Ended, ReadFailed} ==> r.written == Delivered(input[..k]))
            && (r.status == Reading ==> r.written == Delivered(input))
  {
    CopiesInOrder(m, input, writes);
    k := TakesWhatIsRead(m, input, writes);
    assert k == |input| ==> input[..k] == input;
  }

  predicate RightWith(m: Memory, beyond: nat -> Byte, input: seq<ReadEvent>, writes: seq<WriteEvent>) {
    Right(Forward(m.(beyond := beyond), input, writes))
  }

  /** As the offset is written, the copy is right whatever lies behind the buffer
      exactly if no chunk is ever resumed after a short write. */
  lemma InOrderIffNeverResumed(m: Memory, input: seq<ReadEvent>, writes: seq<WriteEvent>)
    requires m.stride == m.size
    ensures (forall beyond: nat -> Byte :: RightWith(m, beyond, input, writes)) <==> !Resumes(m, input, writes)
  {
    if Resumes(m, input, writes) {
      var b := ResumingDiverges(m, input, writes);
      assert !RightWith(m, Filled(m, b).beyond, input, writes);
    } else {
      forall beyond: nat -> Byte ensures RightWith(m, beyond, input, writes) {
        NeverResumingCopies(m, beyond, input, writes);
      }
    }
  }

  /** Two bytes read at once and written one at a time: the second one written is
      whatever the memory behind the buffer holds. */
  lemma ShortWriteSendsForeignMemory(m: Memory, a: Byte, b: Byte)
    requires m.size >= 2 && m.stride == m.size
    ensures var r := Forward(m, [Data([a, b])], [Wrote(1), Wrote(1)]);
            r.taken == [a, b] && r.written == [a, m.beyond(m.size)]
  {
    var chunk := Taken(m, [a, b]);
    assert chunk == [a, b];
    var rest: seq<WriteEvent> := [Wrote(1)];
    assert [Wrote(1), Wrote(1)][1..] == rest && rest[1..] == [];
    assert Send(m, chunk, 2, []) == Sent([], [], false, false);
    assert Window(m, chunk, m.size, 1)[0] == ByteAt(m, chunk, m.size + 0);
    assert Send(m, chunk, 1, rest) == Onto(Window(m, chunk, 1 * m.stride, 1), Sent([], [], false, false));
    assert Window(m, chunk, 0, 1) == [a];
    assert [Data([a, b])][1..] == [];
  }
}
