/**
  Multiplexing several streams into one: frames with an eight-byte header, and the
  demultiplexer that cuts a stream of arbitrary chunks back into frames in one sliding buffer.
 */
module StdCopy {
  import opened Wrappers

  type Byte = x: int | 0 <= x < 256

  const STDIN: Byte := 0
  const STDOUT: Byte := 1
  const STDERR: Byte := 2
  const SYSTEMERR: Byte := 3

  const PREFIX_LEN := 8
  const SIZE_INDEX := 4
  const STARTING_BUF_LEN := 32 * 1024 + PREFIX_LEN + 1

  const TWO_TO_32 := 0x1_0000_0000

  function BigEndian(b: seq<Byte>): nat
    requires |b| == 4
  {
    var b0: int, b1: int, b2: int, b3: int := b[0], b[1], b[2], b[3];
    ((b0 * 256 + b1) * 256 + b2) * 256 + b3
  }

  /** binary.BigEndian.PutUint32 of uint32(n), which keeps the low 32 bits. */
  function PutUint32(n: nat): (b: seq<Byte>)
    ensures |b| == 4
  {
    [n / 256 / 256 / 256 % 256, n / 256 / 256 % 256, n / 256 % 256, n % 256]
  }

  lemma LengthField(n: nat)
    ensures BigEndian(PutUint32(n)) == n % TWO_TO_32
  {
    var q1 := n / 256;
    var q2 := q1 / 256;
    var q3 := q2 / 256;
    var q4 := q3 / 256;
    assert n == q4 * TWO_TO_32 + BigEndian(PutUint32(n));
  }

  /** What stdWriter.Write sends for one payload. */
  function Encode(stream: Byte, payload: seq<Byte>): seq<Byte> {
    [stream, 0, 0, 0] + PutUint32(|payload|) + payload
  }

  // ----- writers

  /** What a writer has received, how much more it takes, and how many more calls succeed (None: no
      limit). A writer that is full reports an error or just a short count; one whose calls are used up
      reports an error whatever it takes. */
  datatype SinkState = SinkState(got: seq<Byte>, room: Option<nat>, loud: bool, calls: Option<nat>) {
    function Takes(p: seq<Byte>): (n: nat)
      ensures n <= |p|
    {
      if room.None? || |p| <= room.value then |p| else room.value
    }

    predicate Fails(p: seq<Byte>) {
      (Takes(p) < |p| && loud) || calls == Some(0)
    }

    function After(p: seq<Byte>): SinkState {
      SinkState(got + p[..Takes(p)],
                if room.None? then None else Some(room.value - Takes(p)),
                loud,
                if calls.None? || calls.value == 0 then calls else Some(calls.value - 1))
    }

    /** It takes everything and never fails. */
    predicate Willing() {
      room.None? && calls.None?
    }
  }

  class Sink {
    var state: SinkState

    constructor (state: SinkState)
      ensures this.state == state
    {
      this.state := state;
    }

    method Write(p: seq<Byte>) returns (n: nat, failed: bool)
      modifies this
      ensures n == old(state).Takes(p) && state == old(state).After(p)
      ensures failed == old(state).Fails(p)
    {
      n := state.Takes(p);
      failed := state.Fails(p);
      state := state.After(p);
    }
  }

  /** stdWriter.Write: without a writer it fails, a nil payload writes nothing, and the count is of
      payload bytes only. */
  method WriteFrame(w: Sink?, stream: Byte, p: Option<seq<Byte>>) returns (n: int, failed: bool)
    modifies w
    ensures w == null ==> n == 0 && failed
    ensures w != null && p.None? ==> n == 0 && !failed && w.state == old(w.state)
    ensures w != null && p.Some? ==>
              var frame := Encode(stream, p.value);
              && w.state == old(w.state).After(frame)
              && n == (if old(w.state).Takes(frame) < PREFIX_LEN then 0 else old(w.state).Takes(frame) - PREFIX_LEN)
              && 0 <= n <= |p.value|
              && failed == old(w.state).Fails(frame)
  {
    if w == null {
      return 0, true;
    }
    if p.None? {
      return 0, false;
    }
    var header := [stream, 0, 0, 0] + PutUint32(|p.value|);
    n, failed := w.Write(header + p.value);
    n := n - PREFIX_LEN;
    if n < 0 {
      n := 0;
    }
  }

  // ----- readers

  datatype ReadError = NoError | EOF | Broken

  /** A reader that makes progress: it hands out its bytes in chunks of any size and then ends
      or breaks, with the last bytes or on a later call. */
  class Source {
    var rest: seq<Byte>
    const breaks: bool

    constructor (data: seq<Byte>, breaks: bool)
      ensures rest == data && this.breaks == breaks
    {
      rest := data;
      this.breaks := breaks;
    }

    /** Reads into buf[at..], which must not be empty. */
    method Read(buf: array<Byte>, at: nat) returns (n: nat, er: ReadError)
      requires at < buf.Length
      modifies this, buf
      ensures n <= buf.Length - at && n <= |old(rest)|
      ensures rest == old(rest)[n..]
      ensures buf[..at] == old(buf[..at]) && buf[at..at + n] == old(rest)[..n]
      ensures forall i :: at + n <= i < buf.Length ==> buf[i] == old(buf[i])
      ensures er == NoError ==> n > 0
      ensures er != NoError ==> rest == [] && er == if breaks then Broken else EOF
    {
      if rest == [] {
        return 0, if breaks then Broken else EOF;
      }
      n :| 1 <= n <= buf.Length - at && n <= |rest|;
      forall i | 0 <= i < n {
        buf[at + i] := rest[i];
      }
      rest := rest[n..];
      er := NoError;
      if rest == [] {
        var atOnce: bool :| true;
        if atOnce {
          er := if breaks then Broken else EOF;
        }
      }
    }
  }

  // ----- the frame parser

  datatype Outcome =
    | Clean
    | UnrecognizedHeader(b: Byte)
    | SystemError(message: seq<Byte>)
    | ReadFailed
    | WriteFailed
    | ShortWrite

  datatype Delivery = Delivery(out: SinkState, err: SinkState, written: nat, outcome: Outcome)

  /** The payload length announced by the header at the front of `s`. */
  function FrameSize(s: seq<Byte>): nat
    requires |s| >= PREFIX_LEN
  {
    BigEndian(s[SIZE_INDEX..PREFIX_LEN])
  }

  /** A whole frame is at the front of `s`. */
  predicate HasFrame(s: seq<Byte>) {
    |s| >= PREFIX_LEN && |s| >= PREFIX_LEN + FrameSize(s)
  }

  function Payload(s: seq<Byte>): seq<Byte>
    requires HasFrame(s)
  {
    s[PREFIX_LEN..PREFIX_LEN + FrameSize(s)]
  }

  function Rest(s: seq<Byte>): seq<Byte>
    requires HasFrame(s)
  {
    s[PREFIX_LEN + FrameSize(s)..]
  }

  /** What a stream means: its frames one after the other, up to the first bad header, system error,
      refused write or incomplete tail. `same` says that both outputs are one writer. */
  function Demux(s: seq<Byte>, out: SinkState, err: SinkState, same: bool, written: nat): Delivery
    decreases |s|
  {
    if |s| < PREFIX_LEN then Delivery(out, err, written, Clean)
    else if s[0] > SYSTEMERR then Delivery(out, err, 0, UnrecognizedHeader(s[0]))
    else if !HasFrame(s) then Delivery(out, err, written, Clean)
    else if s[0] == SYSTEMERR then Delivery(out, err, written, SystemError(Payload(s)))
    else
      var p := Payload(s);
      var d := Deliver(s[0], p, out, err, same);
      if d.outcome != Clean then d else Demux(Rest(s), d.out, d.err, same, written + |p|)
  }

  /** One payload to its writer. */
  function Deliver(stream: Byte, p: seq<Byte>, out: SinkState, err: SinkState, same: bool): Delivery {
    var sink := if stream == STDERR then err else out;
    var fed := sink.After(p);
    Delivery(if stream == STDERR && !same then out else fed,
             if stream != STDERR && !same then err else fed,
             0,
             if sink.Fails(p) then WriteFailed else if sink.Takes(p) == |p| then Clean else ShortWrite)
  }

  /** The frame format in bytes: the first byte is the stream, the last four of eight the length, highest byte
      first; 0 and 1 go to one writer, 2 to the other, 3 stops with the payload as error, and anything
      else stops at once. */
  lemma StreamsByNumber(h: seq<Byte>, p: seq<Byte>, tail: seq<Byte>, out: SinkState, err: SinkState, same: bool,
                        written: nat)
    requires |h| == 8 && |p| == ((h[4] as int * 256 + h[5] as int) * 256 + h[6] as int) * 256 + h[7] as int
    requires out.Willing() && err.Willing()
    ensures var d := Demux(h + p + tail, out, err, same, written);
            && (h[0] == 0 || h[0] == 1 ==>
                  d == Demux(tail, out.(got := out.got + p), if same then out.(got := out.got + p) else err, same,
                             written + |p|))
            && (h[0] == 2 ==>
                  d == Demux(tail, if same then err.(got := err.got + p) else out, err.(got := err.got + p), same,
                             written + |p|))
            && (h[0] == 3 ==> d == Delivery(out, err, written, SystemError(p)))
            && (h[0] > 3 ==> d == Delivery(out, err, 0, UnrecognizedHeader(h[0])))
  {
    var s := h + p + tail;
    HeaderBytes(h, p, tail);
    assert p[..|p|] == p;
    assert out.After(p) == out.(got := out.got + p) && err.After(p) == err.(got := err.got + p);
    assert h[0] <= 3 ==> HasFrame(s) && Payload(s) == p && Rest(s) == tail;
  }

  /** What is left when the stream ends inside a header or a frame goes nowhere, and is no error. */
  lemma TailIsDropped(h: seq<Byte>, p: seq<Byte>, out: SinkState, err: SinkState, same: bool, written: nat)
    requires |h| < 8 ==> p == []
    requires |h| >= 8 ==>
               |h| == 8 && h[0] <= 3
               && |p| < ((h[4] as int * 256 + h[5] as int) * 256 + h[6] as int) * 256 + h[7] as int
    ensures Demux(h + p, out, err, same, written) == Delivery(out, err, written, Clean)
  {
    var s := h + p;
    if |h| == 8 {
      assert s[4..8] == h[4..8];
    }
  }

  /** A payload that its writer refuses, or takes only a part of, ends the copying with a count of 0. */
  lemma RefusedWriteEnds(stream: Byte, p: seq<Byte>, tail: seq<Byte>, out: SinkState, err: SinkState, same: bool,
                         written: nat)
    requires stream <= 2 && |p| < 0x1_0000_0000
    ensures var sink := if stream == 2 then err else out;
            var d := Demux(Encode(stream, p) + tail, out, err, same, written);
            && (sink.Fails(p) ==> d.outcome == WriteFailed && d.written == 0)
            && (!sink.Fails(p) && sink.Takes(p) < |p| ==> d.outcome == ShortWrite && d.written == 0)
            && (sink.Fails(p) || sink.Takes(p) < |p| ==>
                  d.out == (if stream == 2 && !same then out else sink.After(p))
                  && d.err == (if stream != 2 && !same then err else sink.After(p)))
  {
    hide PutUint32;
    var s := Encode(stream, p) + tail;
    LengthField(|p|);
    assert s[4..8] == PutUint32(|p|) && s[0] == stream;
    assert HasFrame(s) && Payload(s) == p;
  }

  lemma HeaderBytes(h: seq<Byte>, p: seq<Byte>, tail: seq<Byte>)
    requires |h| == 8 && |p| == ((h[4] as int * 256 + h[5] as int) * 256 + h[6] as int) * 256 + h[7] as int
    ensures var s := h + p + tail;
            s[0] == h[0] && FrameSize(s) == |p| && s[8..8 + |p|] == p && s[8 + |p|..] == tail
  {
    var s := h + p + tail;
    assert s[4..8] == h[4..8];
  }

  /** What the writer of a stream sends: the stream's number, three zeros, the length modulo 2^32 with its
      highest byte first, and the payload. */
  lemma EncodedBytes(stream: Byte, p: seq<Byte>)
    ensures var e := Encode(stream, p);
            && |e| == 8 + |p| && e[0] == stream && e[1..4] == [0, 0, 0] && e[8..] == p
            && ((e[4] as int * 256 + e[5] as int) * 256 + e[6] as int) * 256 + e[7] as int == |p| % 0x1_0000_0000
  {
    LengthField(|p|);
  }

  // ----- StdCopy

  datatype Fill = Enough | Ended | Broke

  /** Read until `want` bytes are in the buffer or the source is done. */
  method FillTo(src: Source, buf: array<Byte>, have: nat, want: nat) returns (nr: nat, status: Fill)
    requires have <= buf.Length && want <= buf.Length
    modifies src, buf
    ensures have <= nr <= buf.Length
    ensures buf[..nr] + src.rest == old(buf[..have]) + old(src.rest)
    ensures |src.rest| <= |old(src.rest)|
    ensures status == Enough ==> nr >= want
    ensures status == Ended ==> nr < want && src.rest == [] && !src.breaks
    ensures status == Broke ==> src.breaks
  {
    nr := have;
    while nr < want
      invariant have <= nr <= buf.Length
      invariant buf[..nr] + src.rest == old(buf[..have]) + old(src.rest)
      invariant |src.rest| <= |old(src.rest)|
      decreases |src.rest|
    {
      ghost var before := buf[..nr] + src.rest;
      ghost var was := src.rest;
      var nr2, er := src.Read(buf, nr);
      assert buf[..nr + nr2] == buf[..nr] + buf[nr..nr + nr2];
      assert was == was[..nr2] + was[nr2..];
      nr := nr + nr2;
      if er == EOF {
        if nr < want {
          return nr, Ended;
        }
        break;
      }
      if er != NoError {
        return nr, Broke;
      }
    }
    status := Enough;
  }

  /** append(buf, make(...)...): a longer buffer with the same contents. */
  method Grow(buf: array<Byte>, size: nat) returns (grown: array<Byte>)
    requires buf.Length <= size
    ensures fresh(grown) && grown.Length == size && grown[..buf.Length] == buf[..]
  {
    grown := new Byte[size](_ => 0);
    forall i | 0 <= i < buf.Length {
      grown[i] := buf[i];
    }
  }

  /** copy(buf, buf[off:]): what follows the frame moves to the front. */
  method Slide(buf: array<Byte>, off: nat, ghost nr: nat)
    requires off <= nr <= buf.Length
    modifies buf
    ensures buf[..buf.Length - off] == old(buf[off..])
    ensures buf[..nr - off] == old(buf[..nr])[off..]
  {
    forall i | 0 <= i < buf.Length - off {
      buf[i] := buf[i + off];
    }
  }

  lemma HeaderInBuffer(b: seq<Byte>, rest: seq<Byte>)
    requires |b| >= PREFIX_LEN
    ensures (b + rest)[0] == b[0] && FrameSize(b + rest) == BigEndian(b[SIZE_INDEX..PREFIX_LEN])
  {
    assert (b + rest)[SIZE_INDEX..PREFIX_LEN] == b[SIZE_INDEX..PREFIX_LEN];
  }

  lemma FrameInBuffer(b: seq<Byte>, rest: seq<Byte>, end: nat)
    requires PREFIX_LEN <= end <= |b| && end == PREFIX_LEN + BigEndian(b[SIZE_INDEX..PREFIX_LEN])
    ensures HasFrame(b + rest) && (b + rest)[0] == b[0]
    ensures Payload(b + rest) == b[PREFIX_LEN..end] && Rest(b + rest) == b[end..] + rest
  {
    HeaderInBuffer(b, rest);
    assert (b + rest)[PREFIX_LEN..end] == b[PREFIX_LEN..end];
    assert (b + rest)[end..] == b[end..] + rest;
  }

  /** Stdin and Stdout frames go to one writer, Stderr frames to the other. */
  method WriteOut(stream: Byte, payload: seq<Byte>, dstout: Sink, dsterr: Sink) returns (nw: nat, failed: bool)
    modifies dstout, dsterr
    ensures nw <= |payload|
    ensures Deliver(stream, payload, old(dstout.state), old(dsterr.state), dstout == dsterr)
         == Delivery(dstout.state, dsterr.state, 0,
                     if failed then WriteFailed else if nw < |payload| then ShortWrite else Clean)
  {
    if stream == STDERR {
      nw, failed := dsterr.Write(payload);
    } else {
      nw, failed := dstout.Write(payload);
    }
  }

  // ----- the part of the stream that has been delivered

  /** Complete frames for a writer and nothing after them. */
  ghost predicate Whole(s: seq<Byte>)
    decreases |s|
  {
    s == [] || (HasFrame(s) && s[0] < SYSTEMERR && Whole(Rest(s)))
  }

  lemma FrontFrame(a: seq<Byte>, b: seq<Byte>)
    requires HasFrame(a)
    ensures HasFrame(a + b) && (a + b)[0] == a[0] && Payload(a + b) == Payload(a) && Rest(a + b) == Rest(a) + b
  {
    FrameInBuffer(a, b, PREFIX_LEN + FrameSize(a));
  }

  /** Demultiplexing continues after whole frames that were all delivered. */
  lemma {:induction false} DemuxAppend(a: seq<Byte>, b: seq<Byte>, out: SinkState, err: SinkState, same: bool,
                                       written: nat)
    requires Whole(a) && Demux(a, out, err, same, written).outcome == Clean
    ensures var d := Demux(a, out, err, same, written);
            Demux(a + b, out, err, same, written) == Demux(b, d.out, d.err, same, d.written)
    decreases |a|
  {
    hide Deliver, Payload, FrameSize;
    if a == [] {
      assert a + b == b;
    } else {
      FrontFrame(a, b);
      var d := Deliver(a[0], Payload(a), out, err, same);
      DemuxAppend(Rest(a), b, d.out, d.err, same, written + |Payload(a)|);
    }
  }

  lemma {:induction false} WholeAppend(a: seq<Byte>, b: seq<Byte>)
    requires Whole(a) && Whole(b)
    ensures Whole(a + b)
    decreases |a|
  {
    if a == [] {
      assert a + b == b;
    } else {
      FrontFrame(a, b);
      WholeAppend(Rest(a), b);
    }
  }

  /** All but `ahead` has been delivered, frame by frame. */
  ghost predicate DoneWith(all: seq<Byte>, ahead: seq<Byte>, out0: SinkState, err0: SinkState, same: bool,
                           out: SinkState, err: SinkState, written: nat)
  {
    && |ahead| <= |all| && all[|all| - |ahead|..] == ahead
    && Whole(all[..|all| - |ahead|])
    && Demux(all[..|all| - |ahead|], out0, err0, same, 0) == Delivery(out, err, written, Clean)
  }

  /** The first k bytes are fully delivered. */
  ghost predicate CleanUpTo(all: seq<Byte>, k: nat, out0: SinkState, err0: SinkState, same: bool,
                            out: SinkState, err: SinkState)
    requires k <= |all|
  {
    var d := Demux(all[..k], out0, err0, same, 0);
    Whole(all[..k]) && d.outcome == Clean && d.out == out && d.err == err
  }

  /** The writers have what some run of whole frames at the front of the stream gives them. */
  ghost predicate WholeFramesOnly(all: seq<Byte>, out0: SinkState, err0: SinkState, same: bool,
                                  out: SinkState, err: SinkState)
  {
    exists k: nat :: k <= |all| && CleanUpTo(all, k, out0, err0, same, out, err)
  }

  lemma NothingDone(all: seq<Byte>, out: SinkState, err: SinkState, same: bool)
    ensures DoneWith(all, all, out, err, same, out, err, 0)
  {
    assert all[..0] == [];
  }

  lemma DoneMeans(all: seq<Byte>, ahead: seq<Byte>, out0: SinkState, err0: SinkState, same: bool, out: SinkState,
                  err: SinkState, written: nat)
    requires DoneWith(all, ahead, out0, err0, same, out, err, written)
    ensures WholeFramesOnly(all, out0, err0, same, out, err)
    ensures Demux(all, out0, err0, same, 0) == Demux(ahead, out, err, same, written)
  {
    hide Demux, Whole;
    var k := |all| - |ahead|;
    assert CleanUpTo(all, k, out0, err0, same, out, err);
    DemuxAppend(all[..k], ahead, out0, err0, same, 0);
    assert all == all[..k] + ahead;
  }

  lemma DoneNext(all: seq<Byte>, ahead: seq<Byte>, out0: SinkState, err0: SinkState, same: bool,
                 out: SinkState, err: SinkState, written: nat)
    requires DoneWith(all, ahead, out0, err0, same, out, err, written)
    requires HasFrame(ahead) && ahead[0] < SYSTEMERR
    requires Deliver(ahead[0], Payload(ahead), out, err, same).outcome == Clean
    ensures var d := Deliver(ahead[0], Payload(ahead), out, err, same);
            DoneWith(all, Rest(ahead), out0, err0, same, d.out, d.err, written + |Payload(ahead)|)
  {
    hide Deliver, HasFrame, Payload, Rest, Whole;
    var a := all[..|all| - |ahead|];
    var f := FirstFrame(ahead);
    assert all == a + ahead;
    assert all == a + f + Rest(ahead);
    assert all[..|all| - |Rest(ahead)|] == a + f && all[|all| - |Rest(ahead)|..] == Rest(ahead);
    DemuxAppend(a, f, out0, err0, same, 0);
    WholeAppend(a, f);
    OneFrame(f, out, err, same, written);
  }

  lemma FirstFrame(s: seq<Byte>) returns (f: seq<Byte>)
    requires HasFrame(s)
    ensures s == f + Rest(s) && HasFrame(f) && Payload(f) == Payload(s) && Rest(f) == [] && f[0] == s[0]
    ensures s[0] < SYSTEMERR ==> Whole(f)
  {
    var end := PREFIX_LEN + FrameSize(s);
    f := s[..end];
    assert f[SIZE_INDEX..PREFIX_LEN] == s[SIZE_INDEX..PREFIX_LEN];
    assert FrameSize(f) == FrameSize(s);
    assert f[PREFIX_LEN..end] == s[PREFIX_LEN..end] && f[end..] == [] && s == f + s[end..];
  }

  lemma OneFrame(f: seq<Byte>, out: SinkState, err: SinkState, same: bool, written: nat)
    requires HasFrame(f) && Rest(f) == [] && f[0] < SYSTEMERR
    requires Deliver(f[0], Payload(f), out, err, same).outcome == Clean
    ensures var d := Deliver(f[0], Payload(f), out, err, same);
            Demux(f, out, err, same, written) == Delivery(d.out, d.err, written + |Payload(f)|, Clean)
  {
    hide Deliver;
  }

  /** Read up to the end of the next frame, growing the buffer if it has to. The header decides. */
  method ReadFrame(src: Source, buffer: array<Byte>, have: nat)
    returns (buf: array<Byte>, nr: nat, end: nat, stop: Option<Outcome>)
    requires have <= buffer.Length && STARTING_BUF_LEN <= buffer.Length
    modifies src, buffer
    ensures buf == buffer || fresh(buf)
    ensures have <= nr <= buf.Length && STARTING_BUF_LEN <= buf.Length
    ensures buf[..nr] + src.rest == old(buffer[..have]) + old(src.rest)
    ensures var ahead := old(buffer[..have]) + old(src.rest);
            match stop
            case None => PREFIX_LEN <= end <= nr && HasFrame(ahead) && ahead[0] == buf[0] <= SYSTEMERR
                         && Payload(ahead) == buf[..nr][PREFIX_LEN..end]
                         && Rest(ahead) == buf[..nr][end..] + src.rest
            case Some(ReadFailed) => src.breaks
            case Some(UnrecognizedHeader(b)) => |ahead| >= PREFIX_LEN && ahead[0] == b > SYSTEMERR
            case Some(o) => o == Clean && (|ahead| < PREFIX_LEN || (ahead[0] <= SYSTEMERR && !HasFrame(ahead)))
  {
    hide BigEndian, FrameSize, Payload, Rest, HasFrame;
    buf, end, stop := buffer, 0, None;
    ghost var ahead := buf[..have] + src.rest;
    var status;
    nr, status := FillTo(src, buf, have, PREFIX_LEN);
    if status == Ended {
      return buf, nr, 0, Some(Clean);
    }
    if status == Broke {
      return buf, nr, 0, Some(ReadFailed);
    }
    HeaderInBuffer(buf[..nr], src.rest);
    if buf[0] > SYSTEMERR {
      return buf, nr, 0, Some(UnrecognizedHeader(buf[0]));
    }
    assert buf[..nr][SIZE_INDEX..PREFIX_LEN] == buf[SIZE_INDEX..PREFIX_LEN];
    end := BigEndian(buf[SIZE_INDEX..PREFIX_LEN]) + PREFIX_LEN;
    if end > buf.Length {
      var grown := Grow(buf, end + 1);
      assert grown[..nr] == buf[..nr];
      buf := grown;
    }
    nr, status := FillTo(src, buf, nr, end);
    HeaderInBuffer(buf[..nr], src.rest);
    if status == Ended {
      TooShort(ahead, end);
      return buf, nr, 0, Some(Clean);
    }
    if status == Broke {
      return buf, nr, 0, Some(ReadFailed);
    }
    FrameInBuffer(buf[..nr], src.rest, end);
  }

  method StdCopy(dstout: Sink, dsterr: Sink, src: Source) returns (written: nat, outcome: Outcome)
    modifies dstout, dsterr, src
    ensures outcome != ReadFailed ==>
              Delivery(dstout.state, dsterr.state, written, outcome)
              == Demux(old(src.rest), old(dstout.state), old(dsterr.state), dstout == dsterr, 0)
    ensures outcome == ReadFailed ==>
              && src.breaks && written == 0
              && WholeFramesOnly(old(src.rest), old(dstout.state), old(dsterr.state), dstout == dsterr,
                                 dstout.state, dsterr.state)
  {
    hide Deliver, FrameSize, Payload, Rest, HasFrame, WholeFramesOnly, DoneWith, SinkState.After,
         SinkState.Takes, SinkState.Fails;
    var buf := new Byte[STARTING_BUF_LEN](_ => 0);
    var nr: nat := 0;
    written := 0;
    assert buf[..0] + src.rest == src.rest;
    NothingDone(old(src.rest), dstout.state, dsterr.state, dstout == dsterr);
    while true
      invariant fresh(buf) && nr <= buf.Length && STARTING_BUF_LEN <= buf.Length
      invariant DoneWith(old(src.rest), buf[..nr] + src.rest, old(dstout.state), old(dsterr.state), dstout == dsterr,
                         dstout.state, dsterr.state, written)
      decreases nr + |src.rest|
    {
      ghost var ahead := buf[..nr] + src.rest;
      var end, stop;
      buf, nr, end, stop := ReadFrame(src, buf, nr);
      assert |ahead| == nr + |src.rest|;
      DoneMeans(old(src.rest), ahead, old(dstout.state), old(dsterr.state), dstout == dsterr,
                dstout.state, dsterr.state, written);
      if stop.Some? {
        return if stop.value == Clean then written else 0, stop.value;
      }
      var payload := buf[..nr][PREFIX_LEN..end];
      if buf[0] == SYSTEMERR {
        SystemErrorEnds(ahead, dstout.state, dsterr.state, dstout == dsterr, written);
        return written, SystemError(payload);
      }
      ghost var out, err, had := dstout.state, dsterr.state, written;
      var nw, failed := WriteOut(buf[0], payload, dstout, dsterr);
      RefusedPayloadEnds(ahead, out, err, dstout == dsterr, had);
      if failed {
        return 0, WriteFailed;
      }
      if nw != |payload| {
        return 0, ShortWrite;
      }
      written := written + nw;
      DoneNext(old(src.rest), ahead, old(dstout.state), old(dsterr.state), dstout == dsterr, out, err, had);
      Slide(buf, end, nr);
      nr := nr - end;
    }
  }

  lemma SystemErrorEnds(s: seq<Byte>, out: SinkState, err: SinkState, same: bool, written: nat)
    requires |s| >= PREFIX_LEN && s[0] == SYSTEMERR && HasFrame(s)
    ensures Demux(s, out, err, same, written) == Delivery(out, err, written, SystemError(Payload(s)))
  {
  }

  lemma RefusedPayloadEnds(s: seq<Byte>, out: SinkState, err: SinkState, same: bool, written: nat)
    requires |s| >= PREFIX_LEN && s[0] < SYSTEMERR && HasFrame(s)
    ensures var d := Deliver(s[0], Payload(s), out, err, same);
            d.outcome != Clean ==> Demux(s, out, err, same, written) == d
  {
    hide Deliver;
  }

  lemma TooShort(s: seq<Byte>, end: nat)
    requires PREFIX_LEN <= |s| < end && end == PREFIX_LEN + FrameSize(s)
    ensures !HasFrame(s)
  {
  }

  // ----- what the frames are

  datatype Frame = Frame(stream: Byte, payload: seq<Byte>)

  /** The deliverable frames at the front of a stream. */
  function Frames(s: seq<Byte>): seq<Frame>
    decreases |s|
  {
    if HasFrame(s) && s[0] < SYSTEMERR then [Frame(s[0], Payload(s))] + Frames(Rest(s)) else []
  }

  /** How a stream ends after its deliverable frames. */
  function Stop(s: seq<Byte>): Outcome
    decreases |s|
  {
    if HasFrame(s) && s[0] < SYSTEMERR then Stop(Rest(s))
    else if |s| >= PREFIX_LEN && s[0] > SYSTEMERR then UnrecognizedHeader(s[0])
    else if HasFrame(s) then SystemError(Payload(s))
    else Clean
  }

  /** The payloads for the error writer, or those for the other one, in order. */
  function Joined(frames: seq<Frame>, toErr: bool): seq<Byte> {
    if frames == [] then []
    else (if (frames[0].stream == STDERR) == toErr then frames[0].payload else []) + Joined(frames[1..], toErr)
  }

  function Total(frames: seq<Frame>): nat {
    if frames == [] then 0 else |frames[0].payload| + Total(frames[1..])
  }

  /** Writers that take everything receive exactly the payloads addressed to them, in order. */
  lemma {:induction false} DeliversFrames(s: seq<Byte>, out: SinkState, err: SinkState, written: nat)
    requires out.Willing() && err.Willing()
    ensures var d := Demux(s, out, err, false, written);
            && d.out == out.(got := out.got + Joined(Frames(s), false))
            && d.err == err.(got := err.got + Joined(Frames(s), true))
            && d.outcome == Stop(s)
            && d.written == if Stop(s).UnrecognizedHeader? then 0 else written + Total(Frames(s))
    decreases |s|
  {
    hide FrameSize, Payload, Joined;
    if HasFrame(s) && s[0] < SYSTEMERR {
      var p := Payload(s);
      var d := Deliver(s[0], p, out, err, false);
      assert p[..|p|] == p;
      DeliversFrames(Rest(s), d.out, d.err, written + |p|);
      var frames := Frames(s);
      assert frames[0] == Frame(s[0], p) && frames[1..] == Frames(Rest(s));
      JoinedFirst(frames, out.got, false);
      JoinedFirst(frames, err.got, true);
    } else {
      JoinedNone(out.got, false);
      JoinedNone(err.got, true);
    }
  }

  lemma JoinedFirst(frames: seq<Frame>, got: seq<Byte>, toErr: bool)
    requires frames != []
    ensures var own := (frames[0].stream == STDERR) == toErr;
            got + Joined(frames, toErr)
            == (if own then got + frames[0].payload else got) + Joined(frames[1..], toErr)
  {
    var tail := Joined(frames[1..], toErr);
    assert [] + tail == tail;
    assert got + (frames[0].payload + tail) == got + frames[0].payload + tail;
  }

  lemma JoinedNone(got: seq<Byte>, toErr: bool)
    ensures got + Joined([], toErr) == got
  {
  }

  // ----- the round trip

  /** What a sequence of stdWriter.Write calls sends. */
  function Muxed(writes: seq<Frame>): seq<Byte> {
    if writes == [] then [] else Encode(writes[0].stream, writes[0].payload) + Muxed(writes[1..])
  }

  ghost predicate Sendable(writes: seq<Frame>) {
    forall w :: w in writes ==> w.stream in {STDIN, STDOUT, STDERR} && |w.payload| < TWO_TO_32
  }

  lemma EncodedFrame(stream: Byte, p: seq<Byte>, tail: seq<Byte>)
    ensures var s := Encode(stream, p) + tail;
            && |s| >= PREFIX_LEN && s[0] == stream
            && FrameSize(s) == |p| % TWO_TO_32
            && (|p| < TWO_TO_32 ==> HasFrame(s) && Payload(s) == p && Rest(s) == tail)
  {
    var s := Encode(stream, p) + tail;
    assert s[SIZE_INDEX..PREFIX_LEN] == PutUint32(|p|);
    LengthField(|p|);
    if |p| < TWO_TO_32 {
      assert s[PREFIX_LEN..PREFIX_LEN + |p|] == p;
      assert s[PREFIX_LEN + |p|..] == tail;
    }
  }

  /** Cutting multiplexed output into frames gives back the writes. */
  lemma {:induction false} FramesOfMuxed(writes: seq<Frame>)
    requires Sendable(writes)
    ensures Frames(Muxed(writes)) == writes && Stop(Muxed(writes)) == Clean
    decreases |writes|
  {
    hide Encode, FrameSize, Payload, HasFrame, Rest;
    if writes == [] {
      EmptyHasNoFrame();
    } else {
      EncodedFrame(writes[0].stream, writes[0].payload, Muxed(writes[1..]));
      FramesOfMuxed(writes[1..]);
      assert writes[0] in writes && writes == [writes[0]] + writes[1..];
    }
  }

  /** Up to the first write that cannot be sent, the frames are the writes. */
  lemma {:induction false} FramesBegin(writes: seq<Frame>, i: nat)
    requires i <= |writes| && Sendable(writes[..i])
    ensures Frames(Muxed(writes)) == writes[..i] + Frames(Muxed(writes[i..]))
    decreases i
  {
    hide Encode, Frames, Muxed;
    if i == 0 {
      assert writes[0..] == writes && [] + Frames(Muxed(writes)) == Frames(Muxed(writes));
    } else {
      var rest := writes[1..];
      assert writes[0] == writes[..i][0] && writes[..i][1..] == rest[..i - 1] && rest[i - 1..] == writes[i..];
      OneMoreFrame(writes);
      FramesBegin(rest, i - 1);
      assert writes[..i] == [writes[0]] + rest[..i - 1];
      assert [writes[0]] + (rest[..i - 1] + Frames(Muxed(writes[i..])))
          == [writes[0]] + rest[..i - 1] + Frames(Muxed(writes[i..]));
    }
  }

  lemma OneMoreFrame(writes: seq<Frame>)
    requires writes != [] && writes[0].stream < SYSTEMERR && |writes[0].payload| < TWO_TO_32
    ensures Frames(Muxed(writes)) == [writes[0]] + Frames(Muxed(writes[1..]))
  {
    hide Encode, FrameSize, Payload, HasFrame, Rest;
    EncodedFrame(writes[0].stream, writes[0].payload, Muxed(writes[1..]));
  }

  /** A payload of 2^32 bytes or more is cut to what its length field says; what follows is read from
      the middle of it. */
  lemma TooLongIsCut(writes: seq<Frame>, i: nat)
    requires i < |writes| && Sendable(writes[..i])
    requires writes[i].stream < SYSTEMERR && |writes[i].payload| >= TWO_TO_32
    ensures var p := writes[i].payload;
            var frames := Frames(Muxed(writes));
            |frames| > i && frames[..i] == writes[..i]
            && frames[i] == Frame(writes[i].stream, p[..|p| % TWO_TO_32])
  {
    hide Encode, BigEndian;
    var w := writes[i];
    FramesBegin(writes, i);
    CutFrame(w.stream, w.payload, Muxed(writes[i + 1..]));
    assert writes[i..][0] == w && writes[i..][1..] == writes[i + 1..];
    assert Muxed(writes[i..]) == Encode(w.stream, w.payload) + Muxed(writes[i + 1..]);
  }

  lemma CutFrame(stream: Byte, p: seq<Byte>, tail: seq<Byte>)
    requires |p| >= TWO_TO_32
    ensures var s := Encode(stream, p) + tail;
            HasFrame(s) && s[0] == stream && Payload(s) == p[..|p| % TWO_TO_32]
  {
    var s := Encode(stream, p) + tail;
    EncodedFrame(stream, p, tail);
    var n := |p| % TWO_TO_32;
    assert s[PREFIX_LEN..PREFIX_LEN + n] == p[..n];
  }

  /** Cutting the output into frames gives back the writes exactly when all of them can be sent. */
  lemma {:induction false} FramesOfMuxedIff(writes: seq<Frame>)
    ensures Frames(Muxed(writes)) == writes <==> Sendable(writes)
    decreases |writes|
  {
    hide Encode, FrameSize, Payload, HasFrame, Rest;
    if Sendable(writes) {
      FramesOfMuxed(writes);
    } else {
      var w, rest := writes[0], writes[1..];
      assert writes == [w] + rest;
      if w.stream < SYSTEMERR && |w.payload| < TWO_TO_32 {
        EncodedFrame(w.stream, w.payload, Muxed(rest));
        FramesOfMuxedIff(rest);
      } else {
        EncodedFrame(w.stream, w.payload, Muxed(rest));
        if w.stream < SYSTEMERR {
          assert writes[..0] == [];
          TooLongIsCut(writes, 0);
        }
      }
    }
  }

  /** Of a write of exactly 2^32 bytes nothing is left in its frame. */
  lemma WholeLengthLost(p: seq<Byte>)
    requires |p| == TWO_TO_32
    ensures |Frames(Encode(STDOUT, p))| > 0 && Frames(Encode(STDOUT, p))[0] == Frame(STDOUT, [])
  {
    hide Encode, Frames;
    var writes := [Frame(STDOUT, p)];
    assert writes[..0] == [] && writes[1..] == [];
    TooLongIsCut(writes, 0);
    assert Muxed(writes) == Encode(STDOUT, p) + [] == Encode(STDOUT, p);
  }

  lemma EmptyHasNoFrame()
    ensures !HasFrame([])
  {
  }

  /** The header has 32 bits for the length: a single write comes through whole exactly when it fits. */
  lemma OneWriteIff(stream: Byte, p: seq<Byte>)
    requires stream < SYSTEMERR
    ensures Total(Frames(Encode(stream, p))) == |p| <==> |p| < TWO_TO_32
  {
    var s := Encode(stream, p);
    assert s + [] == s;
    EncodedFrame(stream, p, []);
    FramesFit(s);
    if |p| < TWO_TO_32 {
      FramesOfMuxed([Frame(stream, p)]);
      assert Muxed([Frame(stream, p)]) == s;
      assert [Frame(stream, p)][1..] == [];
    } else {
      assert HasFrame(s);
      var frames := Frames(s);
      assert |frames[0].payload| == |p| % TWO_TO_32 < |p|;
      if |frames| == 1 {
        assert frames[1..] == [];
      }
    }
  }

  lemma {:induction false} FramesFit(s: seq<Byte>)
    ensures Total(Frames(s)) + PREFIX_LEN * |Frames(s)| <= |s|
    decreases |s|
  {
    hide FrameSize;
    if HasFrame(s) && s[0] < SYSTEMERR {
      FramesFit(Rest(s));
      assert Frames(s)[1..] == Frames(Rest(s));
    }
  }

  /** A sequence of writes to one connection. */
  method Mux(writes: seq<Frame>) returns (wire: Sink)
    ensures fresh(wire) && wire.state.got == Muxed(writes)
  {
    hide Encode;
    wire := new Sink(SinkState([], None, false, None));
    for next := 0 to |writes|
      invariant fresh(wire) && wire.state.Willing()
      invariant wire.state.got + Muxed(writes[next..]) == Muxed(writes)
    {
      var n, failed := WriteFrame(wire, writes[next].stream, Some(writes[next].payload));
      assert writes[next..][0] == writes[next] && writes[next..][1..] == writes[next + 1..];
    }
    assert writes[|writes|..] == [] && wire.state.got + [] == wire.state.got;
  }

  /** Any sequence of writes, multiplexed through one connection and demultiplexed from whatever
      chunks it arrives in: each writer gets its own payloads, in order. */
  method Transfer(writes: seq<Frame>, dstout: Sink, dsterr: Sink) returns (written: nat, outcome: Outcome)
    requires Sendable(writes) && dstout != dsterr
    requires dstout.state.Willing() && dsterr.state.Willing()
    modifies dstout, dsterr
    ensures outcome == Clean && written == Total(writes)
    ensures dstout.state.got == old(dstout.state.got) + Joined(writes, false)
    ensures dsterr.state.got == old(dsterr.state.got) + Joined(writes, true)
  {
    hide Encode, Demux, Frames, Stop, Joined, Muxed, Total, WholeFramesOnly, Sendable;
    var wire := Mux(writes);
    FramesOfMuxed(writes);
    var src := new Source(wire.state.got, false);
    DeliversFrames(src.rest, dstout.state, dsterr.state, 0);
    written, outcome := StdCopy(dstout, dsterr, src);
  }
}
