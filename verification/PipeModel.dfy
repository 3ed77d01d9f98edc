/**
  BytesPipe as a state machine: every stretch of code that runs under the mutex is one
  step, cut where a caller waits on the condition variable.
 */
module PipeModel {
  import opened Wrappers

  const MIN_CAP := 64
  const MAX_CAP := 1_000_000
  const BLOCK_THRESHOLD := 1_000_000

  type Byte = x: int | 0 <= x < 256

  /** A fixedBuffer: `pos` bytes of `cap` written so far, of which `unread` are still to be read. */
  datatype Segment = Segment(cap: nat, pos: nat, unread: seq<Byte>) {
    predicate Ok() {
      MIN_CAP <= cap <= MAX_CAP && |unread| <= pos <= cap
    }
  }

  function Fresh(cap: nat): Segment {
    Segment(cap, 0, [])
  }

  datatype Pipe = Pipe(buf: seq<Segment>, bufLen: int, closeErr: Option<string>)

  /** The bytes in the pipe, oldest first. */
  function Unread(buf: seq<Segment>): seq<Byte> {
    if buf == [] then [] else buf[0].unread + Unread(buf[1..])
  }

  ghost predicate SegmentsOk(buf: seq<Segment>) {
    forall b :: b in buf ==> b.Ok()
  }

  ghost predicate PipeOk(p: Pipe) {
    && SegmentsOk(p.buf)
    && p.bufLen == |Unread(p.buf)|
    && p.bufLen + LastRoom(p.buf) < BLOCK_THRESHOLD + MAX_CAP
  }

  /** Free space in the segment that is written next. */
  function LastRoom(buf: seq<Segment>): int {
    if buf == [] then 0 else buf[|buf| - 1].cap - buf[|buf| - 1].pos
  }

  function Min(a: int, b: int): int {
    if a < b then a else b
  }

  function EnsureSegment(buf: seq<Segment>): seq<Segment> {
    if buf == [] then [Fresh(MIN_CAP)] else buf
  }

  /** fixedBuffer.Write on the last segment; `Taken` says how much of `p` it takes. */
  function Taken(buf: seq<Segment>, p: seq<Byte>): int
    requires buf != []
  {
    Min(LastRoom(buf), |p|)
  }

  function FillLast(buf: seq<Segment>, p: seq<Byte>): seq<Segment>
    requires buf != [] && 0 <= LastRoom(buf)
  {
    var b := buf[|buf| - 1];
    var n := Taken(buf, p);
    buf[..|buf| - 1] + [Segment(b.cap, b.pos + n, b.unread + p[..n])]
  }

  function NextCap(cap: nat): nat {
    Min(cap * 2, MAX_CAP)
  }

  // ----- contents

  lemma {:induction false} UnreadConcat(a: seq<Segment>, b: seq<Segment>)
    ensures Unread(a + b) == Unread(a) + Unread(b)
  {
    if a == [] {
      assert a + b == b;
    } else {
      assert (a + b)[1..] == a[1..] + b;
      UnreadConcat(a[1..], b);
    }
  }

  lemma UnreadLast(buf: seq<Segment>)
    requires buf != []
    ensures Unread(buf) == Unread(buf[..|buf| - 1]) + buf[|buf| - 1].unread
  {
    var b := buf[|buf| - 1];
    assert buf == buf[..|buf| - 1] + [b];
    UnreadConcat(buf[..|buf| - 1], [b]);
    assert [b][1..] == [] && b.unread + [] == b.unread;
  }

  /** Filling the last segment appends to the contents and uses up its room. */
  lemma FillAppends(buf: seq<Segment>, p: seq<Byte>)
    requires buf != [] && SegmentsOk(buf)
    ensures 0 <= LastRoom(buf)
    ensures var n := Taken(buf, p);
            var filled := FillLast(buf, p);
            && 0 <= n <= |p| && filled != []
            && Unread(filled) == Unread(buf) + p[..n]
            && LastRoom(filled) == LastRoom(buf) - n
            && SegmentsOk(filled)
            && (n < |p| ==> LastRoom(filled) == 0)
  {
    var l := |buf| - 1;
    var b := buf[l];
    assert b in buf && b.Ok();
    var n := Taken(buf, p);
    var filled := FillLast(buf, p);
    UnreadLast(buf);
    UnreadLast(filled);
    assert filled[..l] == buf[..l];
    forall c | c in filled ensures c.Ok() {
      if c in buf[..l] {
        assert c in buf;
      }
    }
  }

  lemma FreshAppends(buf: seq<Segment>, cap: nat)
    requires MIN_CAP <= cap <= MAX_CAP && SegmentsOk(buf)
    ensures var more := buf + [Fresh(NextCap(cap))];
            && Unread(more) == Unread(buf) && LastRoom(more) == NextCap(cap) <= MAX_CAP
            && SegmentsOk(more)
  {
    var more := buf + [Fresh(NextCap(cap))];
    UnreadLast(more);
    assert more[..|buf|] == buf;
  }

  // ----- Write

  datatype WriteEnd = Finished | Closed | Blocked(lastCap: nat)

  datatype WriteResult = WriteResult(pipe: Pipe, rest: seq<Byte>, end: WriteEnd)

  /** Write from the top of its loop up to its end or to Wait. */
  function WriteLoop(s: Pipe, p: seq<Byte>): WriteResult
    requires SegmentsOk(s.buf)
    decreases |p|, if s.buf == [] || LastRoom(s.buf) == 0 then 1 else 0
  {
    if s.closeErr.Some? then WriteResult(s, p, Closed)
    else
      var buf := EnsureSegment(s.buf);
      var cap := buf[|buf| - 1].cap;
      FillAppends(buf, p);
      assert buf[|buf| - 1] in buf;
      var n := Taken(buf, p);
      var t := s.(buf := FillLast(buf, p), bufLen := s.bufLen + n);
      if n == |p| then WriteResult(t, [], Finished)
      else if t.bufLen >= BLOCK_THRESHOLD then WriteResult(t, p[n..], Blocked(cap))
      else
        FreshAppends(t.buf, cap);
        WriteLoop(t.(buf := t.buf + [Fresh(NextCap(cap))]), p[n..])
  }

  /** Write once Wait has returned and the mutex is held again. */
  function WriteResume(s: Pipe, p: seq<Byte>, lastCap: nat): WriteResult
    requires MIN_CAP <= lastCap <= MAX_CAP
    requires SegmentsOk(s.buf)
  {
    if s.closeErr.Some? then WriteResult(s, p, Closed)
    else if s.bufLen >= BLOCK_THRESHOLD then WriteResult(s, p, Blocked(lastCap))
    else WriteLoop(s.(buf := s.buf + [Fresh(NextCap(lastCap))]), p)
  }

  // ----- Read

  datatype ReadEnd = Returned(data: seq<Byte>) | Failed(error: string) | Asleep

  datatype ReadResult = ReadResult(pipe: Pipe, end: ReadEnd)

  /** The copying loop: whole segments are dropped as they are used up. */
  function Drain(s: Pipe, want: nat): (Pipe, seq<Byte>)
    requires SegmentsOk(s.buf)
    requires s.bufLen == |Unread(s.buf)|
    decreases |s.buf|
  {
    if s.bufLen <= 0 then (s, [])
    else
      var b := s.buf[0];
      assert b in s.buf && b.Ok();
      var k := Min(|b.unread|, want);
      var data := b.unread[..k];
      var left := b.unread[k..];
      var t := if left == [] then s.(buf := s.buf[1..], bufLen := s.bufLen - k)
               else s.(buf := [b.(unread := left)] + s.buf[1..], bufLen := s.bufLen - k);
      if k == want then (t, data)
      else
        assert left == [];
        var (u, more) := Drain(t, want - k);
        (u, data + more)
  }

  function ReadStart(s: Pipe, want: nat): ReadResult
    requires PipeOk(s)
  {
    if s.bufLen == 0 && s.closeErr.Some? then ReadResult(s, Failed(s.closeErr.value))
    else if s.bufLen == 0 then ReadResult(s, Asleep)
    else var (t, data) := Drain(s, want); ReadResult(t, Returned(data))
  }

  function ReadResume(s: Pipe, want: nat): ReadResult
    requires PipeOk(s)
  {
    if s.bufLen == 0 && s.closeErr.Some? then ReadResult(s, Failed(s.closeErr.value))
    else var (t, data) := Drain(s, want); ReadResult(t, Returned(data))
  }

  /** One turn of Write's loop. */
  lemma WriteLoopUnfold(s: Pipe, p: seq<Byte>)
    requires SegmentsOk(s.buf)
    ensures s.closeErr.Some? ==> WriteLoop(s, p) == WriteResult(s, p, Closed)
    ensures var have := EnsureSegment(s.buf);
            have != [] && SegmentsOk(have) && 0 <= LastRoom(have)
            && (s.closeErr.None? ==>
              var n := Taken(have, p);
              var t := s.(buf := FillLast(have, p), bufLen := s.bufLen + n);
              var cap := have[|have| - 1].cap;
              && 0 <= n <= |p| && SegmentsOk(t.buf) && SegmentsOk(t.buf + [Fresh(NextCap(cap))])
              && LastRoom(t.buf + [Fresh(NextCap(cap))]) > 0
              && (n < |p| && n == 0 ==> LastRoom(s.buf) == 0)
              && WriteLoop(s, p) ==
                 if n == |p| then WriteResult(t, [], Finished)
                 else if t.bufLen >= BLOCK_THRESHOLD then WriteResult(t, p[n..], Blocked(cap))
                 else WriteLoop(t.(buf := t.buf + [Fresh(NextCap(cap))]), p[n..]))
  {
    hide FillLast;
    var have := EnsureSegment(s.buf);
    FillAppends(have, p);
    var cap := have[|have| - 1].cap;
    assert have[|have| - 1] in have;
    FreshAppends(FillLast(have, p), cap);
  }

  // ----- what one call does to the pipe

  /** A stretch of Write takes a prefix of its argument to the end of the contents. */
  ghost predicate WriteFacts(s: Pipe, p: seq<Byte>, r: WriteResult) {
    && PipeOk(r.pipe) && r.pipe.closeErr == s.closeErr
    && |r.rest| <= |p| && r.rest == p[|p| - |r.rest|..]
    && Unread(r.pipe.buf) == Unread(s.buf) + p[..|p| - |r.rest|]
    && (r.end == Closed <==> s.closeErr.Some?)
    && (r.end == Closed ==> r.pipe == s && r.rest == p)
    && (r.end == Finished ==> r.rest == [])
    && (r.end.Blocked? ==>
          r.rest != [] && r.pipe.bufLen >= BLOCK_THRESHOLD && MIN_CAP <= r.end.lastCap <= MAX_CAP)
  }

  lemma {:induction false} WriteLoopFacts(s: Pipe, p: seq<Byte>)
    requires PipeOk(s)
    ensures WriteFacts(s, p, WriteLoop(s, p))
    decreases |p|, if s.buf == [] || LastRoom(s.buf) == 0 then 1 else 0
  {
    hide FillLast, Taken, Unread, LastRoom, WriteFacts, PipeOk, NextCap;
    if s.closeErr.Some? {
      WriteNothing(s, p);
    } else {
      var (t, cap, n) := Fill(s, p);
      if n < |p| && t.bufLen < BLOCK_THRESHOLD {
        FreshAppends(t.buf, cap);
        var u := t.(buf := t.buf + [Fresh(NextCap(cap))]);
        FreshOk(t, cap);
        RoomLess(s, n, p);
        FreshRoom(t, cap);
        WriteLoopFacts(u, p[n..]);
        WriteMore(s, t, u, p, n, WriteLoop(u, p[n..]));
      } else {
        WriteEnds(s, t, p, n, cap);
      }
    }
  }

  lemma WriteNothing(s: Pipe, p: seq<Byte>)
    requires PipeOk(s) && s.closeErr.Some?
    ensures WriteFacts(s, p, WriteResult(s, p, Closed))
  {
    assert Unread(s.buf) + p[..0] == Unread(s.buf);
  }

  /** The pipe after one turn of Write's loop up to the check for more data. */
  ghost function Fill(s: Pipe, p: seq<Byte>): (r: (Pipe, nat, nat))
    requires PipeOk(s)
    ensures var (t, cap, n) := r;
            && n <= |p| && n == Taken(EnsureSegment(s.buf), p) && t.buf == FillLast(EnsureSegment(s.buf), p)
            && t.closeErr == s.closeErr && t.bufLen == s.bufLen + n
            && SegmentsOk(t.buf) && Unread(t.buf) == Unread(s.buf) + p[..n]
            && PipeOk(t) && MIN_CAP <= cap <= MAX_CAP
            && cap == EnsureSegment(s.buf)[|EnsureSegment(s.buf)| - 1].cap
  {
    EnsureFacts(s);
    var buf := EnsureSegment(s.buf);
    FillAppends(buf, p);
    assert buf[|buf| - 1] in buf;
    (s.(buf := FillLast(buf, p), bufLen := s.bufLen + Taken(buf, p)), buf[|buf| - 1].cap, Taken(buf, p))
  }

  lemma FreshOk(t: Pipe, cap: nat)
    requires PipeOk(t) && MIN_CAP <= cap <= MAX_CAP && t.bufLen < BLOCK_THRESHOLD
    ensures PipeOk(t.(buf := t.buf + [Fresh(NextCap(cap))]))
  {
    FreshAppends(t.buf, cap);
  }

  lemma FreshRoom(t: Pipe, cap: nat)
    requires PipeOk(t) && MIN_CAP <= cap <= MAX_CAP
    ensures LastRoom(t.buf + [Fresh(NextCap(cap))]) > 0
  {
    FreshAppends(t.buf, cap);
  }

  lemma WriteEnds(s: Pipe, t: Pipe, p: seq<Byte>, n: nat, cap: nat)
    requires PipeOk(t) && t.closeErr == s.closeErr && s.closeErr.None? && n <= |p|
    requires Unread(t.buf) == Unread(s.buf) + p[..n] && MIN_CAP <= cap <= MAX_CAP
    ensures n == |p| ==> WriteFacts(s, p, WriteResult(t, [], Finished))
    ensures n < |p| && t.bufLen >= BLOCK_THRESHOLD ==> WriteFacts(s, p, WriteResult(t, p[n..], Blocked(cap)))
  {
  }

  lemma WriteMore(s: Pipe, t: Pipe, u: Pipe, p: seq<Byte>, n: nat, r: WriteResult)
    requires n <= |p| && u.closeErr == s.closeErr && s.closeErr.None?
    requires Unread(u.buf) == Unread(s.buf) + p[..n]
    requires WriteFacts(u, p[n..], r)
    ensures WriteFacts(s, p, r)
  {
    hide Unread, PipeOk;
    var m := |p| - |r.rest|;
    Splice(p, n, m);
    Associate(Unread(s.buf), p[..n], p[n..][..m - n]);
  }

  lemma Associate(a: seq<Byte>, b: seq<Byte>, c: seq<Byte>)
    ensures a + b + c == a + (b + c)
  {
  }

  lemma Splice(p: seq<Byte>, n: nat, m: nat)
    requires n <= |p|
    ensures n <= m <= |p| ==> p[..n] + p[n..][..m - n] == p[..m] && p[n..][m - n..] == p[m..]
  {
  }

  lemma EnsureFacts(s: Pipe)
    requires PipeOk(s)
    ensures var buf := EnsureSegment(s.buf);
            && buf != [] && SegmentsOk(buf) && Unread(buf) == Unread(s.buf)
            && s.bufLen + LastRoom(buf) < BLOCK_THRESHOLD + MAX_CAP
            && (s.buf != [] ==> buf == s.buf) && (s.buf == [] ==> LastRoom(buf) == MIN_CAP)
  {
    if s.buf == [] {
      assert EnsureSegment(s.buf)[1..] == [];
    }
  }

  lemma RoomLess(s: Pipe, n: int, p: seq<Byte>)
    requires PipeOk(s) && n == Taken(EnsureSegment(s.buf), p) && n < |p|
    ensures n == 0 ==> s.buf != [] && LastRoom(s.buf) == 0
  {
    var buf := s.buf;
    if buf != [] {
      assert buf[|buf| - 1] in buf;
    }
  }

  lemma WriteResumeFacts(s: Pipe, p: seq<Byte>, lastCap: nat)
    requires PipeOk(s) && p != [] && MIN_CAP <= lastCap <= MAX_CAP
    ensures WriteFacts(s, p, WriteResume(s, p, lastCap))
  {
    hide Unread, LastRoom, WriteLoop;
    assert p[..0] == [] && Unread(s.buf) + [] == Unread(s.buf);
    if s.closeErr.None? && s.bufLen < BLOCK_THRESHOLD {
      FreshAppends(s.buf, lastCap);
      WriteLoopFacts(s.(buf := s.buf + [Fresh(NextCap(lastCap))]), p);
    }
  }

  /** The pipe after one turn of Read's copying loop. */
  ghost function TakeFirst(s: Pipe, want: nat): (r: (Pipe, seq<Byte>))
    requires PipeOk(s) && s.buf != []
    ensures var (t, data) := r;
            && PipeOk(t) && t.closeErr == s.closeErr
            && Unread(s.buf) == data + Unread(t.buf)
            && data == s.buf[0].unread[..Min(|s.buf[0].unread|, want)]
            && t.bufLen == s.bufLen - |data|
            && (|data| < want ==> t.buf == s.buf[1..])
  {
    FirstTaken(s, want);
    var b := s.buf[0];
    var k := Min(|b.unread|, want);
    (s.(buf := AfterFirst(s.buf, k), bufLen := s.bufLen - k), b.unread[..k])
  }

  /** The segments without k bytes of the first, which is dropped when it is used up. */
  ghost function AfterFirst(buf: seq<Segment>, k: int): seq<Segment>
    requires buf != [] && 0 <= k <= |buf[0].unread|
  {
    if k == |buf[0].unread| then buf[1..] else [buf[0].(unread := buf[0].unread[k..])] + buf[1..]
  }

  lemma FirstTaken(s: Pipe, want: nat)
    requires PipeOk(s) && s.buf != []
    ensures var k := Min(|s.buf[0].unread|, want);
            && 0 <= k <= |s.buf[0].unread|
            && PipeOk(s.(buf := AfterFirst(s.buf, k), bufLen := s.bufLen - k))
            && Unread(s.buf) == s.buf[0].unread[..k] + Unread(AfterFirst(s.buf, k))
            && (k < want ==> k == |s.buf[0].unread|)
  {
    hide Unread, LastRoom;
    var b := s.buf[0];
    var k := Min(|b.unread|, want);
    assert b in s.buf && b.Ok();
    assert forall c :: c in s.buf[1..] ==> c in s.buf;
    FirstUnread(s.buf);
    RoomOfRest(s.buf, AfterFirst(s.buf, k));
    assert b.unread == b.unread[..k] + b.unread[k..];
    var after := AfterFirst(s.buf, k);
    if k < |b.unread| {
      assert after[0] == b.(unread := b.unread[k..]) && after[1..] == s.buf[1..];
      FirstUnread(after);
      assert b.unread[..k] + (b.unread[k..] + Unread(s.buf[1..])) == b.unread + Unread(s.buf[1..]);
    }
    assert |Unread(s.buf)| == k + |Unread(after)|;
  }

  lemma FirstUnread(buf: seq<Segment>)
    requires buf != []
    ensures Unread(buf) == buf[0].unread + Unread(buf[1..])
  {
  }

  lemma RoomOfRest(buf: seq<Segment>, after: seq<Segment>)
    requires buf != [] && SegmentsOk(buf)
    requires after == buf[1..] || (after != [] && after[1..] == buf[1..]
                                   && after[0].cap == buf[0].cap && after[0].pos == buf[0].pos)
    ensures LastRoom(after) <= LastRoom(buf)
  {
    assert buf[0] in buf && buf[0].Ok();
    if |buf| > 1 {
      assert buf[|buf| - 1] == buf[1..][|buf| - 2];
      assert |after| > 0 && after[|after| - 1] == buf[|buf| - 1];
    } else if after != [] {
      assert |after| == 1;
    }
  }

  /** Read takes the oldest bytes, as many as it asked for or as there are. */
  lemma {:induction false} DrainFacts(s: Pipe, want: nat)
    requires PipeOk(s)
    ensures var (t, data) := Drain(s, want);
            && PipeOk(t) && t.closeErr == s.closeErr
            && |data| == Min(want, s.bufLen)
            && Unread(s.buf) == data + Unread(t.buf)
            && t.bufLen == s.bufLen - |data|
    decreases |s.buf|
  {
    hide Unread;
    if s.bufLen > 0 {
      assert s.buf != [] by { NoBytes(s.buf); }
      var (t, data) := TakeFirst(s, want);
      if |data| < want {
        DrainFacts(t, want - |data|);
        var (u, more) := Drain(t, want - |data|);
        assert data + (more + Unread(u.buf)) == data + more + Unread(u.buf);
        DrainUnfold(s, want);
      } else {
        DrainUnfold(s, want);
        ContentsLength(s, t, data);
      }
    } else {
      assert [] + Unread(s.buf) == Unread(s.buf);
    }
  }

  lemma NoBytes(buf: seq<Segment>)
    ensures buf == [] ==> Unread(buf) == []
  {
  }

  lemma ContentsLength(s: Pipe, t: Pipe, data: seq<Byte>)
    requires PipeOk(s) && PipeOk(t) && Unread(s.buf) == data + Unread(t.buf)
    ensures s.bufLen == |data| + t.bufLen && t.bufLen >= 0
  {
  }

  lemma DrainUnfold(s: Pipe, want: nat)
    requires PipeOk(s) && s.bufLen > 0 && s.buf != []
    ensures var (t, data) := TakeFirst(s, want);
            Drain(s, want) == if |data| < want then var (u, more) := Drain(t, want - |data|); (u, data + more)
                              else (t, data)
  {
    assert s.buf[0] in s.buf && s.buf[0].Ok();
  }

  /** What Read's loop still has to do once it holds `data`. */
  ghost function DrainAfter(s: Pipe, want: nat, data: seq<Byte>): (r: (Pipe, seq<Byte>))
    requires PipeOk(s)
    ensures s.bufLen <= 0 ==> r == (s, data)
    ensures data == [] ==> r == Drain(s, want)
  {
    LengthOk(s);
    var (t, more) := Drain(s, want);
    assert [] + more == more && data + [] == data;
    (t, data + more)
  }

  lemma DrainAfterUnfold(s: Pipe, want: nat, data: seq<Byte>)
    requires PipeOk(s) && s.bufLen > 0
    ensures s.buf != []
    ensures var (t, more) := TakeFirst(s, want);
            DrainAfter(s, want, data) == if |more| < want then DrainAfter(t, want - |more|, data + more)
                                         else (t, data + more)
  {
    hide Unread, PipeOk, Drain, TakeFirst;
    NoBytes(s.buf);
    LengthOk(s);
    DrainUnfold(s, want);
    var (t, more) := TakeFirst(s, want);
    if |more| < want {
      LengthOk(t);
      Associate(data, more, Drain(t, want - |more|).1);
    }
  }

  lemma LengthOk(s: Pipe)
    requires PipeOk(s)
    ensures SegmentsOk(s.buf) && s.bufLen == |Unread(s.buf)|
  {
  }

  // ----- all callers together

  /** A caller between calls, or asleep in Wait; a broadcast makes it runnable. */
  datatype Caller =
    | Idle
    | Writer(rest: seq<Byte>, lastCap: nat, runnable: bool)
    | Reader(want: nat, runnable: bool)

  /** The pipe, its callers, and two ledgers: every byte copied in and every byte handed out. */
  datatype System = System(pipe: Pipe, callers: map<nat, Caller>, accepted: seq<Byte>, delivered: seq<Byte>)

  datatype Event =
    | CallWrite(who: nat, data: seq<Byte>)
    | CallRead(who: nat, want: nat)
    | Wake(who: nat)
    | Close(error: string)

  datatype Reply =
    | Wrote
    | WriteClosed
    | ReadData(data: seq<Byte>)
    | ReadError(error: string)
    | Sleeps
    | ClosedNow

  function Broadcast(callers: map<nat, Caller>): map<nat, Caller> {
    map w | w in callers :: if callers[w].Idle? then Idle else callers[w].(runnable := true)
  }

  function CallerOf(s: System, who: nat): Caller {
    if who in s.callers then s.callers[who] else Idle
  }

  function AfterWrite(s: System, who: nat, p: seq<Byte>, r: WriteResult): (System, Reply)
    requires |r.rest| <= |p|
  {
    var t := s.(pipe := r.pipe, accepted := s.accepted + p[..|p| - |r.rest|]);
    match r.end
    case Finished => (t.(callers := Broadcast(s.callers)[who := Idle]), Wrote)
    case Closed => (t.(callers := s.callers[who := Idle]), WriteClosed)
    case Blocked(cap) => (t.(callers := s.callers[who := Writer(r.rest, cap, false)]), Sleeps)
  }

  function AfterRead(s: System, who: nat, want: nat, r: ReadResult): (System, Reply) {
    var t := s.(pipe := r.pipe);
    match r.end
    case Returned(data) =>
      (t.(callers := Broadcast(s.callers)[who := Idle], delivered := s.delivered + data), ReadData(data))
    case Failed(e) => (t.(callers := s.callers[who := Idle]), ReadError(e))
    case Asleep => (t.(callers := s.callers[who := Reader(want, false)]), Sleeps)
  }

  ghost predicate CallersOk(callers: map<nat, Caller>) {
    forall w :: w in callers && callers[w].Writer? ==>
      callers[w].rest != [] && MIN_CAP <= callers[w].lastCap <= MAX_CAP
  }

  ghost predicate SystemOk(s: System) {
    PipeOk(s.pipe) && CallersOk(s.callers)
  }

  ghost predicate Enabled(s: System, e: Event) {
    match e
    case CallWrite(w, _) => CallerOf(s, w).Idle?
    case CallRead(w, _) => CallerOf(s, w).Idle?
    case Wake(w) => !CallerOf(s, w).Idle? && CallerOf(s, w).runnable
    case Close(_) => true
  }

  ghost function Step(s: System, e: Event): (System, Reply)
    requires SystemOk(s) && Enabled(s, e)
  {
    match e
    case CallWrite(w, p) =>
      WriteLoopFacts(s.pipe, p);
      AfterWrite(s, w, p, WriteLoop(s.pipe, p))
    case CallRead(w, want) =>
      AfterRead(s, w, want, ReadStart(s.pipe, want))
    case Wake(w) =>
      (match s.callers[w]
       case Writer(rest, cap, _) =>
         WriteResumeFacts(s.pipe, rest, cap);
         AfterWrite(s, w, rest, WriteResume(s.pipe, rest, cap))
       case Reader(want, _) => AfterRead(s, w, want, ReadResume(s.pipe, want)))
    case Close(error) =>
      (s.(pipe := s.pipe.(closeErr := Some(error)), callers := Broadcast(s.callers)), ClosedNow)
  }

  // ----- what every run keeps

  /** Nothing is lost, duplicated or reordered. */
  ghost predicate Fifo(s: System) {
    s.accepted == s.delivered + Unread(s.pipe.buf)
  }

  ghost predicate Sleeping(c: Caller) {
    !c.Idle? && !c.runnable
  }

  ghost predicate WriterSleeps(s: System) {
    exists w :: w in s.callers && s.callers[w].Writer? && Sleeping(s.callers[w])
  }

  /** Sleepers that nobody has woken: a writer only at a full pipe, a reader only at an empty one
      or while a writer sleeps as well, and nobody at a closed one. */
  ghost predicate SleepersOk(s: System) {
    && (forall w :: w in s.callers && Sleeping(s.callers[w]) ==> s.pipe.closeErr.None?)
    && (WriterSleeps(s) ==> s.pipe.bufLen >= BLOCK_THRESHOLD)
    && (forall w :: w in s.callers && s.callers[w].Reader? && Sleeping(s.callers[w]) ==>
          s.pipe.bufLen == 0 || WriterSleeps(s))
  }

  ghost predicate Inv(s: System) {
    SystemOk(s) && Fifo(s) && SleepersOk(s)
  }

  lemma AfterWriteKeeps(s: System, who: nat, p: seq<Byte>, r: WriteResult)
    requires Inv(s) && WriteFacts(s.pipe, p, r)
    requires !Sleeping(CallerOf(s, who))
    ensures Inv(AfterWrite(s, who, p, r).0)
  {
    hide PipeOk, Unread, Fifo, SleepersOk;
    AcceptedInOrder(s, who, p, r);
    WriterLeaves(s, who, p, r);
  }

  lemma AcceptedInOrder(s: System, who: nat, p: seq<Byte>, r: WriteResult)
    requires Fifo(s) && WriteFacts(s.pipe, p, r)
    ensures Fifo(AfterWrite(s, who, p, r).0)
  {
    hide PipeOk, Unread;
    Associate(s.delivered, Unread(s.pipe.buf), p[..|p| - |r.rest|]);
  }

  lemma WriterLeaves(s: System, who: nat, p: seq<Byte>, r: WriteResult)
    requires Inv(s) && WriteFacts(s.pipe, p, r)
    requires !Sleeping(CallerOf(s, who))
    ensures SleepersOk(AfterWrite(s, who, p, r).0)
  {
    hide PipeOk, Unread, Fifo;
    var t := AfterWrite(s, who, p, r).0;
    if r.end.Blocked? {
      assert t.callers[who].Writer? && Sleeping(t.callers[who]);
    }
  }

  lemma AfterReadKeeps(s: System, who: nat, want: nat, r: ReadResult)
    requires Inv(s) && !Sleeping(CallerOf(s, who))
    requires r == ReadStart(s.pipe, want) || r == ReadResume(s.pipe, want)
    ensures Inv(AfterRead(s, who, want, r).0)
  {
    hide PipeOk, Unread, Drain;
    DrainFacts(s.pipe, want);
    match r.end
    case Returned(data) =>
      Associate(s.delivered, data, Unread(r.pipe.buf));
      NobodySleeps(s.callers, who);
    case Failed(_) =>
    case Asleep => FallsAsleep(s, who, want);
  }

  lemma NobodySleeps(callers: map<nat, Caller>, who: nat)
    requires CallersOk(callers)
    ensures var awake := Broadcast(callers)[who := Idle];
            CallersOk(awake) && forall w :: w in awake ==> !Sleeping(awake[w])
  {
  }

  lemma FallsAsleep(s: System, who: nat, want: nat)
    requires Inv(s) && s.pipe.bufLen == 0 && s.pipe.closeErr.None?
    ensures Inv(s.(callers := s.callers[who := Reader(want, false)]))
  {
    hide PipeOk, Unread;
    var t := s.(callers := s.callers[who := Reader(want, false)]);
    assert forall w :: w in t.callers && t.callers[w].Writer? ==> w in s.callers && s.callers[w] == t.callers[w];
  }

  lemma StepKeeps(s: System, e: Event)
    requires Inv(s) && Enabled(s, e)
    ensures Inv(Step(s, e).0)
  {
    hide Unread, WriteFacts, LastRoom;
    match e
    case CallWrite(w, p) =>
      WriteLoopFacts(s.pipe, p);
      AfterWriteKeeps(s, w, p, WriteLoop(s.pipe, p));
    case CallRead(w, want) =>
      AfterReadKeeps(s, w, want, ReadStart(s.pipe, want));
    case Wake(w) =>
      if s.callers[w].Writer? {
        WriteResumeFacts(s.pipe, s.callers[w].rest, s.callers[w].lastCap);
        AfterWriteKeeps(s, w, s.callers[w].rest, WriteResume(s.pipe, s.callers[w].rest, s.callers[w].lastCap));
      } else {
        AfterReadKeeps(s, w, s.callers[w].want, ReadResume(s.pipe, s.callers[w].want));
      }
    case Close(error) =>
      CloseKeepsPipe(s.pipe, error);
  }

  lemma CloseKeepsPipe(p: Pipe, error: string)
    requires PipeOk(p)
    ensures PipeOk(p.(closeErr := Some(error)))
  {
  }

  // ----- every run

  ghost predicate CanRun(s: System, run: seq<Event>)
    requires Inv(s)
    decreases |run|
  {
    run == [] || (Enabled(s, run[0]) && (StepKeeps(s, run[0]); CanRun(Step(s, run[0]).0, run[1..])))
  }

  ghost function Final(s: System, run: seq<Event>): (t: System)
    requires Inv(s) && CanRun(s, run)
    ensures Inv(t)
    decreases |run|
  {
    if run == [] then s
    else
      StepKeeps(s, run[0]);
      Final(Step(s, run[0]).0, run[1..])
  }

  /** NewBytesPipe, with nobody using it yet. */
  const START := System(Pipe([Fresh(MIN_CAP)], 0, None), map[], [], [])

  lemma StartOk()
    ensures Inv(START)
  {
    assert START.pipe.buf[1..] == [];
  }

  ghost predicate Possible(run: seq<Event>) {
    StartOk();
    CanRun(START, run)
  }

  ghost function Reached(run: seq<Event>): System
    requires Possible(run)
  {
    StartOk();
    Final(START, run)
  }

  /** In every interleaving of writers, readers and closers: the bytes handed out followed by the bytes
      still held are exactly the bytes taken in, in order, and the pipe holds less than two million. */
  lemma EveryRun(run: seq<Event>)
    requires Possible(run)
    ensures var s := Reached(run);
            && s.accepted == s.delivered + Unread(s.pipe.buf)
            && s.pipe.bufLen == |s.accepted| - |s.delivered|
            && 0 <= s.pipe.bufLen < 2_000_000
  {
    StartOk();
    var s := Reached(run);
    RoomNotNegative(s.pipe.buf);
  }

  lemma RoomNotNegative(buf: seq<Segment>)
    requires SegmentsOk(buf)
    ensures LastRoom(buf) >= 0
  {
    if buf != [] {
      assert buf[|buf| - 1] in buf;
    }
  }

  /** After Close no byte is accepted any more, and every write is refused. */
  lemma {:induction false} NothingAfterClose(s: System, run: seq<Event>)
    requires Inv(s) && CanRun(s, run) && s.pipe.closeErr.Some?
    ensures Final(s, run).pipe.closeErr.Some? && Final(s, run).accepted == s.accepted
    decreases |run|
  {
    hide PipeOk, Unread, Drain, SleepersOk;
    if run != [] {
      StepKeeps(s, run[0]);
      ClosedStep(s, run[0]);
      NothingAfterClose(Step(s, run[0]).0, run[1..]);
    }
  }

  lemma ClosedStep(s: System, e: Event)
    requires Inv(s) && Enabled(s, e) && s.pipe.closeErr.Some?
    ensures var (t, reply) := Step(s, e);
            t.pipe.closeErr.Some? && t.accepted == s.accepted && reply != Wrote
  {
    hide Unread, SleepersOk, LastRoom;
    match e
    case CallWrite(w, p) => WriteLoopFacts(s.pipe, p);
    case CallRead(w, want) => DrainFacts(s.pipe, want);
    case Wake(w) =>
      if s.callers[w].Writer? {
        WriteResumeFacts(s.pipe, s.callers[w].rest, s.callers[w].lastCap);
      } else {
        DrainFacts(s.pipe, s.callers[w].want);
      }
    case Close(_) =>
  }

  /** Read hands out the oldest bytes; it fails only on a closed pipe that holds nothing. */
  lemma ReadReplies(s: System, e: Event)
    requires Inv(s) && Enabled(s, e)
    ensures match Step(s, e).1
            case ReadError(error) => s.pipe.closeErr == Some(error) && Unread(s.pipe.buf) == []
            case ReadData(data) => Unread(s.pipe.buf) == data + Unread(Step(s, e).0.pipe.buf)
                                   && Step(s, e).0.delivered == s.delivered + data
            case _ => Step(s, e).0.delivered == s.delivered
  {
    hide Unread, SleepersOk, LastRoom, WriteFacts;
    match e
    case CallWrite(w, p) => WriteLoopFacts(s.pipe, p);
    case CallRead(w, want) => DrainFacts(s.pipe, want);
    case Wake(w) =>
      if s.callers[w].Writer? {
        WriteResumeFacts(s.pipe, s.callers[w].rest, s.callers[w].lastCap);
      } else {
        DrainFacts(s.pipe, s.callers[w].want);
      }
    case Close(_) =>
  }

  /** Closing sets the error, also at a pipe that is closed already, wakes everybody, and leaves the contents. */
  lemma CloseSets(s: System, error: string)
    requires Inv(s)
    ensures var t := Step(s, Close(error)).0;
            && t.pipe.closeErr == Some(error) && Unread(t.pipe.buf) == Unread(s.pipe.buf)
            && t.callers.Keys == s.callers.Keys && forall w :: w in t.callers ==> !Sleeping(t.callers[w])
  {
    hide Unread, PipeOk;
  }

  // ----- who is left asleep

  ghost predicate ReaderSleeps(s: System) {
    exists w :: w in s.callers && s.callers[w].Reader? && Sleeping(s.callers[w])
  }

  /** While a reader sleeps unwoken, the pipe holds bytes exactly when a writer sleeps too: Write goes
      to sleep at a full pipe without a broadcast. */
  lemma SleepingReaderMissesDataIff(s: System)
    requires Inv(s) && ReaderSleeps(s)
    ensures Unread(s.pipe.buf) != [] <==> WriterSleeps(s)
  {
  }

  /** How many bytes Write takes before it reaches Wait. */
  function Budget(buf: seq<Segment>, bufLen: int): int
    requires forall b :: b in buf ==> b.Ok()
    decreases BLOCK_THRESHOLD - bufLen, if buf == [] || LastRoom(buf) == 0 then 1 else 0
  {
    var have := EnsureSegment(buf);
    var last := have[|have| - 1];
    assert last in have && last.Ok();
    var room := LastRoom(have);
    if bufLen + room >= BLOCK_THRESHOLD then room
    else
      var next := Fresh(NextCap(last.cap));
      assert [next][|[next]| - 1] == next;
      room + Budget([next], bufLen + room)
  }

  /** Only the last segment and the fill level matter. */
  lemma BudgetOfLast(buf: seq<Segment>, bufLen: int, cap: nat)
    requires SegmentsOk(buf) && MIN_CAP <= cap <= MAX_CAP
    ensures SegmentsOk(buf + [Fresh(NextCap(cap))])
    ensures Budget(buf + [Fresh(NextCap(cap))], bufLen) == Budget([Fresh(NextCap(cap))], bufLen)
  {
    FreshAppends(buf, cap);
    FreshAppends([], cap);
    assert [] + [Fresh(NextCap(cap))] == [Fresh(NextCap(cap))];
  }

  /** Write goes to sleep exactly when its argument is longer than that. */
  lemma {:induction false} WriteSleepsIff(s: Pipe, p: seq<Byte>)
    requires PipeOk(s) && s.closeErr.None?
    ensures WriteLoop(s, p).end.Blocked? <==> |p| > Budget(s.buf, s.bufLen)
    decreases |p|, if s.buf == [] || LastRoom(s.buf) == 0 then 1 else 0
  {
    hide FillLast, Unread, WriteFacts, PipeOk, NextCap;
    var (t, cap, n) := Fill(s, p);
    var room := LastRoom(EnsureSegment(s.buf));
    RoomNotNegative2(s);
    assert n == Min(room, |p|);
    BudgetUnfold(s, cap);
    if n < |p| && t.bufLen < BLOCK_THRESHOLD {
      FreshAppends(t.buf, cap);
      var u := t.(buf := t.buf + [Fresh(NextCap(cap))]);
      FreshOk(t, cap);
      RoomLess(s, n, p);
      FreshRoom(t, cap);
      WriteSleepsIff(u, p[n..]);
      BudgetOfLast(t.buf, t.bufLen, cap);
    } else if n == |p| {
      BudgetAtLeastRoom(s);
    }
  }

  lemma RoomNotNegative2(s: Pipe)
    requires PipeOk(s)
    ensures LastRoom(EnsureSegment(s.buf)) >= 0
  {
    EnsureFacts(s);
    RoomNotNegative(EnsureSegment(s.buf));
  }

  lemma BudgetUnfold(s: Pipe, cap: nat)
    requires PipeOk(s) && cap == EnsureSegment(s.buf)[|EnsureSegment(s.buf)| - 1].cap
    ensures MIN_CAP <= cap <= MAX_CAP && SegmentsOk([Fresh(NextCap(cap))])
    ensures var room := LastRoom(EnsureSegment(s.buf));
            Budget(s.buf, s.bufLen)
            == if s.bufLen + room >= BLOCK_THRESHOLD then room
               else room + Budget([Fresh(NextCap(cap))], s.bufLen + room)
  {
    EnsureFacts(s);
    assert EnsureSegment(s.buf)[|EnsureSegment(s.buf)| - 1] in EnsureSegment(s.buf);
  }

  lemma {:induction false} BudgetNotNegative(buf: seq<Segment>, bufLen: int)
    requires SegmentsOk(buf)
    ensures Budget(buf, bufLen) >= LastRoom(EnsureSegment(buf)) >= 0
    decreases BLOCK_THRESHOLD - bufLen, if buf == [] || LastRoom(buf) == 0 then 1 else 0
  {
    var have := EnsureSegment(buf);
    var last := have[|have| - 1];
    assert last in have && last.Ok();
    var room := LastRoom(have);
    if bufLen + room < BLOCK_THRESHOLD {
      var next := Fresh(NextCap(last.cap));
      BudgetNotNegative([next], bufLen + room);
    }
  }

  lemma BudgetAtLeastRoom(s: Pipe)
    requires PipeOk(s)
    ensures Budget(s.buf, s.bufLen) >= LastRoom(EnsureSegment(s.buf))
  {
    BudgetNotNegative(s.buf, s.bufLen);
  }

  /** A reader asleep at the empty pipe stays asleep, with bytes waiting for it, exactly when the
      next write is longer than the pipe takes at once. */
  lemma LostWakeUpIff(s: System, who: nat, p: seq<Byte>)
    requires Inv(s) && ReaderSleeps(s) && !WriterSleeps(s) && CallerOf(s, who).Idle?
    ensures var t := Step(s, CallWrite(who, p)).0;
            && (ReaderSleeps(t) <==> |p| > Budget(s.pipe.buf, s.pipe.bufLen))
            && (ReaderSleeps(t) ==> Unread(t.pipe.buf) != [])
  {
    hide Unread, WriteFacts, Budget, LastRoom;
    var r := WriteLoop(s.pipe, p);
    WriteLoopFacts(s.pipe, p);
    WriteSleepsIff(s.pipe, p);
    StepKeeps(s, CallWrite(who, p));
    var t := Step(s, CallWrite(who, p)).0;
    ClosedIff(s.pipe, p, r);
    if r.end.Blocked? {
      var w :| w in s.callers && s.callers[w].Reader? && Sleeping(s.callers[w]);
      assert w in t.callers && t.callers[w] == s.callers[w];
      assert t.callers[who].Writer? && Sleeping(t.callers[who]);
      SleepingReaderMissesDataIff(t);
    } else {
      NobodySleeps(s.callers, who);
    }
  }

  lemma ClosedIff(s: Pipe, p: seq<Byte>, r: WriteResult)
    requires WriteFacts(s, p, r)
    ensures r.end == Closed <==> s.closeErr.Some?
  {
  }

  /** Everybody asleep and nobody left to wake them. */
  ghost predicate Stuck(s: System) {
    && (exists w :: w in s.callers && Sleeping(s.callers[w]))
    && (forall w :: w in s.callers ==> s.callers[w].Idle? || Sleeping(s.callers[w]))
  }

  /** One reader first, one long write second: both sleep, and the pipe is full. */
  lemma ReaderAndWriterStuck(data: seq<Byte>)
    requires |data| >= 2_000_000
    ensures Possible([CallRead(0, 1), CallWrite(1, data)])
    ensures var s := Reached([CallRead(0, 1), CallWrite(1, data)]);
            Stuck(s) && ReaderSleeps(s) && s.pipe.bufLen >= BLOCK_THRESHOLD
  {
    hide Unread, LastRoom;
    StartOk();
    StepKeeps(START, CallRead(0, 1));
    var s := Step(START, CallRead(0, 1)).0;
    assert s == START.(callers := map[0 := Reader(1, false)]);
    StepKeeps(s, CallWrite(1, data));
    LongWriteSleeps(s.pipe, data);
    var t := Step(s, CallWrite(1, data)).0;
    assert t.callers[0] == Reader(1, false) && Sleeping(t.callers[0]);
    assert t.callers[1].Writer? && Sleeping(t.callers[1]) && t.callers.Keys == {0, 1};
    TwoSteps(START, CallRead(0, 1), CallWrite(1, data));
  }

  /** A pipe never holds two million bytes, so a write of that many has to wait. */
  lemma LongWriteSleeps(s: Pipe, data: seq<Byte>)
    requires PipeOk(s) && s.closeErr.None? && |data| >= 2_000_000
    ensures WriteLoop(s, data).end.Blocked? && WriteLoop(s, data).pipe.bufLen >= BLOCK_THRESHOLD
  {
    WriteLoopFacts(s, data);
    RoomNotNegative(WriteLoop(s, data).pipe.buf);
  }

  lemma TwoSteps(s: System, a: Event, b: Event)
    requires Inv(s) && Enabled(s, a) && Inv(Step(s, a).0) && Enabled(Step(s, a).0, b)
    ensures CanRun(s, [a, b]) && Inv(Step(Step(s, a).0, b).0)
    ensures Final(s, [a, b]) == Step(Step(s, a).0, b).0
  {
    hide Step, Enabled, PipeOk, SleepersOk, Fifo, CallersOk;
    var t := Step(s, a).0;
    StepKeeps(t, b);
    OneStep(t, b);
    assert [a, b][1..] == [b];
  }

  lemma OneStep(s: System, e: Event)
    requires Inv(s) && Enabled(s, e) && Inv(Step(s, e).0)
    ensures CanRun(s, [e]) && Final(s, [e]) == Step(s, e).0
  {
    hide Step, Enabled, PipeOk, SleepersOk, Fifo, CallersOk;
    assert [e][1..] == [];
    assert CanRun(Step(s, e).0, []);
  }

  /** On a new pipe that is 1,048,512 bytes: segments of 64, 128, ... up to 524,288. */
  lemma BudgetOfNewPipe()
    ensures SegmentsOk(START.pipe.buf) && Budget(START.pipe.buf, 0) == 1_048_512
  {
    StartOk();
    assert START.pipe.buf[0] == Fresh(64);
    BudgetStep(64, 0);
    BudgetStep(128, 64);
    BudgetStep(256, 192);
    BudgetStep(512, 448);
    BudgetStep(1024, 960);
    BudgetStep(2048, 1984);
    BudgetStep(4096, 4032);
    BudgetStep(8192, 8128);
    BudgetStep(16384, 16320);
    BudgetStep(32768, 32704);
    BudgetStep(65536, 65472);
    BudgetStep(131072, 131008);
    BudgetStep(262144, 262080);
    BudgetStep(524288, 524224);
  }

  lemma BudgetStep(cap: nat, bufLen: int)
    requires MIN_CAP <= cap <= MAX_CAP
    ensures SegmentsOk([Fresh(cap)]) && SegmentsOk([Fresh(NextCap(cap))])
    ensures Budget([Fresh(cap)], bufLen)
         == if bufLen + cap >= BLOCK_THRESHOLD then cap else cap + Budget([Fresh(NextCap(cap))], bufLen + cap)
  {
    var buf := [Fresh(cap)];
    assert buf[|buf| - 1] == Fresh(cap);
  }
}
