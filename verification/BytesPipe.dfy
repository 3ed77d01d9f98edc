/**
  The pipe as it is laid out in memory: fixed buffers over byte arrays, handed out by shared
  pools, and the methods that run while the mutex is held. Each is the step of PipeModel.
 */
module BytesPipe {
  import opened Wrappers
  import opened PipeModel

  class FixedBuffer {
    const mem: array<Byte>
    var pos: nat
    var lastRead: nat

    constructor (size: nat)
      ensures Valid() && View() == Fresh(size) && fresh(mem)
    {
      mem := new Byte[size](_ => 0);
      pos, lastRead := 0, 0;
    }

    ghost predicate Valid()
      reads this
    {
      lastRead <= pos <= mem.Length
    }

    ghost function View(): Segment
      requires Valid()
      reads this, mem
    {
      Segment(mem.Length, pos, mem[lastRead..pos])
    }

    /** Copies what fits; the only error there is says that the buffer is full. */
    method Write(p: seq<Byte>) returns (n: nat, full: bool)
      requires Valid()
      modifies this, mem
      ensures Valid() && n == Min(mem.Length - old(pos), |p|)
      ensures View() == Segment(mem.Length, old(pos) + n, old(View()).unread + p[..n])
      ensures full == (n < |p|) && (full ==> pos == mem.Length)
    {
      n := Min(mem.Length - pos, |p|);
      forall i | 0 <= i < n {
        mem[pos + i] := p[i];
      }
      pos := pos + n;
      full := n < |p|;
      assert mem[old(pos)..pos] == p[..n];
      assert mem[lastRead..pos] == mem[lastRead..old(pos)] + mem[old(pos)..pos];
    }

    method Read(want: nat) returns (data: seq<Byte>)
      requires Valid()
      modifies this
      ensures Valid() && data == old(View()).unread[..Min(|old(View()).unread|, want)]
      ensures View() == old(View()).(unread := old(View()).unread[|data|..])
    {
      var n := Min(pos - lastRead, want);
      data := mem[lastRead..lastRead + n];
      lastRead := lastRead + n;
    }

    method Reset()
      modifies this
      ensures Valid() && View() == Fresh(mem.Length)
    {
      pos, lastRead := 0, 0;
    }
  }

  /** Buffers with the arrays behind them. */
  ghost function Parts(bs: set<FixedBuffer>): set<object> {
    (set b | b in bs :: b as object) + (set b | b in bs :: b.mem as object)
  }

  lemma PartsPlus(bs: set<FixedBuffer>, b: FixedBuffer)
    ensures Parts(bs + {b}) == Parts(bs) + Parts({b})
  {
  }

  lemma PartsFewer(few: set<FixedBuffer>, many: set<FixedBuffer>)
    requires few <= many
    ensures Parts(few) <= Parts(many)
  {
  }

  /** bufPools: the free buffers of each capacity, in no order. `lent` are the buffers that some
      pipe holds. */
  class BufPools {
    var free: map<nat, set<FixedBuffer>>
    ghost var lent: set<FixedBuffer>
    ghost var all: set<FixedBuffer>
    ghost var idle: set<object>

    constructor ()
      ensures Valid() && lent == {} && all == {}
    {
      free, lent, all, idle := map[], {}, {}, {};
    }

    /** Empty, of its pool's capacity, and nowhere else. */
    ghost predicate FreeOk(b: FixedBuffer, size: nat)
      reads this, b
    {
      b in all && b !in lent && b.pos == 0 && b.lastRead == 0 && b.mem.Length == size
    }

    ghost predicate OwnMemory() reads this {
      forall a, b :: a in all && b in all && a != b ==> a.mem != b.mem
    }

    ghost predicate Valid()
      reads this, all
    {
      && lent <= all && idle == Parts(all - lent)
      && OwnMemory()
      && (forall k, b :: k in free && b in free[k] ==> b in all)
      && (forall k, b :: k in free && b in free[k] ==> FreeOk(b, k))
    }

    lemma LentKnown()
      requires Valid()
      ensures lent <= all
    {
    }

    /** Writing to or reading from a lent buffer does not concern the pools. */
    twostate lemma UseKeepsValid(b: FixedBuffer)
      requires old(Valid()) && b in lent && unchanged(this)
      requires forall c :: c in all && c != b ==> c.pos == old(c.pos) && c.lastRead == old(c.lastRead)
      ensures Valid()
    {
      forall k, c | k in free && c in free[k] ensures c in all && FreeOk(c, k) {
        assert old(FreeOk(c, k));
      }
    }

    /** getBuffer: sync.Pool may hand back a free buffer or make a new one. */
    method GetBuffer(size: nat) returns (b: FixedBuffer)
      requires Valid()
      modifies this
      ensures Valid() && b !in old(lent) && lent == old(lent) + {b}
      ensures all == old(all) + {b} && (b in old(all) || (fresh(b) && fresh(b.mem)))
      ensures b.Valid() && b.View() == Fresh(size)
      ensures idle <= old(idle) && (b in old(all) ==> Parts({b}) <= old(idle))
    {
      if size !in free {
        free := free[size := {}];
      }
      var reuse: bool :| true;
      if reuse && free[size] != {} {
        b :| b in free[size];
        assert FreeOk(b, size);
        free := free[size := free[size] - {b}];
      } else {
        b := new FixedBuffer(size);
      }
      Lend(b);
    }

    ghost method Lend(b: FixedBuffer)
      requires Valid() && b !in lent && (b in all || forall c :: c in all ==> c.mem != b.mem)
      requires forall k :: k in free ==> b !in free[k]
      modifies this`lent, this`all, this`idle
      ensures Valid() && lent == old(lent) + {b} && all == old(all) + {b} && idle <= old(idle)
      ensures b in old(all) ==> Parts({b}) <= old(idle)
    {
      hide Parts;
      PartsFewer(all + {b} - (lent + {b}), all - lent);
      if b in all {
        PartsFewer({b}, all - lent);
      }
      lent := lent + {b};
      all := all + {b};
      idle := Parts(all - lent);
      forall k, c | k in free && c in free[k] ensures c in all && FreeOk(c, k) {
        assert old(c in all && FreeOk(c, k)) && c != b;
      }
    }

    /** returnBuffer: the buffer is emptied and can be handed out again. */
    method ReturnBuffer(b: FixedBuffer)
      requires Valid() && b in lent
      modifies this, b
      ensures Valid() && lent == old(lent) - {b} && all == old(all)
      ensures idle == old(idle) + Parts({b})
    {
      b.Reset();
      lent := lent - {b};
      idle := Parts(all - lent);
      assert all - lent == old(all - lent) + {b};
      PartsPlus(old(all - lent), b);
      var size := b.mem.Length;
      if size in free {
        free := free[size := free[size] + {b}];
      }
      forall k, c | k in free && c in free[k] ensures c in all && FreeOk(c, k) {
        if c != b {
          assert old(k in free && c in free[k] && FreeOk(c, k));
        }
      }
    }
  }

  ghost predicate AllValid(bs: seq<FixedBuffer>)
    reads bs
  {
    forall b :: b in bs ==> b.Valid()
  }

  ghost function Views(bs: seq<FixedBuffer>): (v: seq<Segment>)
    requires AllValid(bs)
    reads bs, set b | b in bs :: b.mem
    ensures |v| == |bs|
    ensures forall i :: 0 <= i < |bs| ==> v[i] == bs[i].View()
  {
    if bs == [] then [] else Views(bs[..|bs| - 1]) + [bs[|bs| - 1].View()]
  }

  ghost predicate Apart(bs: seq<FixedBuffer>) {
    forall i, j :: 0 <= i < j < |bs| ==> bs[i] != bs[j] && bs[i].mem != bs[j].mem
  }

  lemma ApartFrom(bs: seq<FixedBuffer>, b: FixedBuffer)
    requires Apart(bs) && b in bs
    ensures forall c :: c in bs && c != b ==> c.mem != b.mem
    ensures forall i :: 0 <= i < |bs| && bs[i] == b ==> forall j :: 0 <= j < |bs| && bs[j] == b ==> i == j
  {
  }

  lemma FilledViews(before: seq<Segment>, after: seq<Segment>, p: seq<Byte>)
    requires before != [] && |after| == |before|
    requires forall i :: 0 <= i < |before| - 1 ==> after[i] == before[i]
    requires var b := before[|before| - 1];
             var n := Min(b.cap - b.pos, |p|);
             0 <= n && after[|before| - 1] == Segment(b.cap, b.pos + n, b.unread + p[..n])
    ensures 0 <= LastRoom(before) && after == FillLast(before, p)
    ensures Taken(before, p) == Min(before[|before| - 1].cap - before[|before| - 1].pos, |p|)
  {
  }

  lemma StillApart(pools: BufPools, bs: seq<FixedBuffer>, b: FixedBuffer)
    requires pools.Valid() && Apart(bs) && b !in bs
    requires b in pools.all && forall c :: c in bs ==> c in pools.all
    ensures Apart(bs + [b])
  {
  }

  twostate lemma LongerViews(bs: seq<FixedBuffer>, new b: FixedBuffer)
    requires old(AllValid(bs)) && b.Valid()
    requires forall c :: c in bs ==> unchanged(c) && unchanged(c.mem)
    ensures AllValid(bs + [b])
    ensures Views(bs + [b]) == old(Views(bs)) + [b.View()]
  {
    hide Views, FixedBuffer.Valid;
    forall i | 0 <= i < |bs| ensures Views(bs + [b])[i] == old(Views(bs))[i] {
      assert (bs + [b])[i] == bs[i];
    }
  }

  /** The pipe after `want` bytes of its first segment, or all it has, were read. */
  ghost function UsedFirst(p: Pipe, want: nat): Pipe
    requires p.buf != []
  {
    var b := p.buf[0];
    var k := Min(|b.unread|, want);
    p.(buf := p.buf[0 := b.(unread := b.unread[k..])], bufLen := p.bufLen - k)
  }

  lemma TakenFirst(p: Pipe, want: nat)
    requires PipeOk(p) && p.buf != []
    ensures var t := UsedFirst(p, want);
            var data := p.buf[0].unread[..Min(|p.buf[0].unread|, want)];
            && (|data| < want ==> t.buf[0].unread == [])
            && TakeFirst(p, want) == (if t.buf[0].unread == [] then t.(buf := t.buf[1..]) else t, data)
  {
    hide Unread, PipeOk;
    var t := UsedFirst(p, want);
    assert t.buf[1..] == p.buf[1..];
    assert t.buf == [t.buf[0]] + p.buf[1..];
  }

  class BytesPipe {
    const pools: BufPools
    var buf: seq<FixedBuffer>
    var bufLen: int
    var closeErr: Option<string>
    /** The buffers in `buf`, and all that belongs to them. */
    ghost var held: set<FixedBuffer>
    ghost var mine: set<object>

    ghost predicate Valid()
      reads this, pools, pools.all, buf
    {
      && pools.Valid()
      && held == (set b | b in buf)
      && mine == Parts(held)
      && held <= pools.lent
      && Apart(buf) && AllValid(buf)
    }

    ghost function State(): Pipe
      requires Valid()
      reads this, pools, pools.all, buf, set b | b in buf :: b.mem
    {
      Pipe(Views(buf), bufLen, closeErr)
    }

    twostate lemma LongerByOne(new b: FixedBuffer, cap: nat)
      requires old(Valid()) && pools.Valid() && b.Valid() && b.View() == Fresh(cap)
      requires b !in old(pools.lent) && pools.lent == old(pools.lent) + {b} && b in pools.all
      requires forall c :: c in old(buf) ==> unchanged(c) && unchanged(c.mem)
      requires buf == old(buf) + [b] && held == old(held) + {b} && mine == Parts(held)
      requires bufLen == old(bufLen) && closeErr == old(closeErr)
      ensures Valid() && State() == old(State()).(buf := old(State()).buf + [Fresh(cap)])
    {
      hide BufPools.Valid, Apart, Views, AllValid, Parts, FixedBuffer.View, FixedBuffer.Valid;
      pools.LentKnown();
      assert forall c :: c in old(buf) ==> c in old(held);
      StillApart(pools, old(buf), b);
      LongerViews(old(buf), b);
      assert held == set c | c in buf;
    }

    twostate lemma FreshMine(new b: FixedBuffer)
      requires held == old(held) + {b} && mine == Parts(held) && old(mine == Parts(held))
      requires pools.idle <= old(pools.idle)
      requires Parts({b}) <= old(pools.idle) || (fresh(b) && fresh(b.mem))
      ensures fresh(mine + pools.idle - old(mine + pools.idle))
    {
      PartsPlus(old(held), b);
    }

    /** A buffer from the pools at the end. */
    method Append(cap: nat)
      requires Valid()
      modifies this`buf, this`held, this`mine, pools
      ensures Valid() && State() == old(State()).(buf := old(State()).buf + [Fresh(cap)])
      ensures pools.lent - held == old(pools.lent - held)
      ensures fresh(mine + pools.idle - old(mine + pools.idle))
    {
      hide BufPools.Valid, Apart, Views, AllValid, Parts, FixedBuffer.View, FixedBuffer.Valid, State;
      var b := pools.GetBuffer(cap);
      held := held + {b};
      mine := Parts(held);
      buf := buf + [b];
      LongerByOne(b, cap);
      FreshMine(b);
    }

    constructor (pools: BufPools)
      requires pools.Valid()
      ensures Valid() && this.pools == pools && held == {} && mine == {}
      ensures State() == Pipe([], 0, None)
    {
      this.pools := pools;
      bufLen, closeErr := 0, None;
      buf, held, mine := [], {}, {};
    }

    lemma Layout()
      requires Valid()
      ensures |State().buf| == |buf| && State().bufLen == bufLen && State().closeErr == closeErr
    {
    }

    lemma Owned(b: FixedBuffer)
      requires Valid() && b in buf
      ensures b in held && b in mine && b.mem in mine && b in pools.lent && b.Valid() && pools.Valid()
      ensures forall c :: c in pools.all && c != b ==> c.mem != b.mem
      ensures forall i :: 0 <= i < |buf| && buf[i] == b ==> State().buf[i] == b.View()
    {
      assert b in held;
    }

    /** Using one buffer does not concern the other ones. */
    twostate lemma OneChanged(b: FixedBuffer)
      requires old(Valid()) && b in buf && b.Valid() && unchanged(pools)
      requires buf == old(buf) && held == old(held) && mine == old(mine)
      requires forall c :: c in pools.all && c != b ==> unchanged(c) && unchanged(c.mem)
      ensures Valid()
      ensures buf[|buf| - 1] == b ==> forall i :: 0 <= i < |buf| - 1 ==> State().buf[i] == old(State()).buf[i]
      ensures buf[0] == b ==> forall i :: 0 < i < |buf| ==> State().buf[i] == old(State()).buf[i]
      ensures forall i :: 0 <= i < |buf| && buf[i] == b ==> State().buf[i] == b.View()
    {
      hide BufPools.Valid;
      assert b in held;
      pools.UseKeepsValid(b);
      pools.LentKnown();
      forall c | c in buf && c != b ensures unchanged(c) && unchanged(c.mem) && c.Valid() {
        assert c in held;
      }
    }

    /** One fixedBuffer.Write on the last buffer. */
    method FillLastBuffer(p: seq<Byte>) returns (n: nat, full: bool)
      requires Valid() && buf != []
      modifies this`bufLen, buf[|buf| - 1], buf[|buf| - 1].mem
      ensures Valid() && n <= |p| && full == (n < |p|)
      ensures n == Taken(old(State()).buf, p) && 0 <= LastRoom(old(State()).buf)
      ensures State() == old(State()).(buf := FillLast(old(State()).buf, p), bufLen := old(bufLen) + n)
    {
      hide BufPools.Valid, Valid, State, Views, SegmentsOk, FillLast, Taken, LastRoom, Apart, Parts;
      var b := buf[|buf| - 1];
      Layout();
      Owned(b);
      ghost var before := State().buf;
      n, full := b.Write(p);
      bufLen := bufLen + n;
      OneChanged(b);
      Layout();
      FilledViews(before, State().buf, p);
    }

    /** Write from the top of its loop, mutex held, up to its end or to Wait. */
    method WriteUnderLock(p: seq<Byte>) returns (rest: seq<Byte>, end: WriteEnd)
      requires Valid() && SegmentsOk(State().buf)
      modifies this`buf, this`bufLen, this`held, this`mine, mine, pools, pools.idle
      ensures Valid() && WriteResult(State(), rest, end) == WriteLoop(old(State()), p)
      ensures pools.lent - held == old(pools.lent - held)
      ensures fresh(mine + pools.idle - old(mine + pools.idle))
    {
      hide BufPools.Valid, Valid, State, SegmentsOk, FillLast, Taken, LastRoom, EnsureSegment, NextCap, WriteLoop;
      rest := p;
      ghost var s := State();
      while true
        invariant Valid() && SegmentsOk(State().buf)
        invariant WriteLoop(State(), rest) == WriteLoop(s, p)
        invariant pools.lent - held == old(pools.lent - held)
        invariant fresh(mine + pools.idle - old(mine + pools.idle))
        decreases |rest|, if LastRoom(State().buf) == 0 then 1 else 0
      {
        WriteLoopUnfold(State(), rest);
        Layout();
        if closeErr.Some? {
          return rest, Closed;
        }
        var n, cap := WriteTurn(rest);
        if n == |rest| {
          return [], Finished;
        }
        rest := rest[n..];
        Layout();
        if bufLen >= BLOCK_THRESHOLD {
          return rest, Blocked(cap);
        }
        Append(NextCap(cap));
      }
    }

    /** The body of Write's loop up to the check for more data. */
    method WriteTurn(p: seq<Byte>) returns (n: nat, cap: nat)
      requires Valid() && SegmentsOk(State().buf)
      modifies this`buf, this`bufLen, this`held, this`mine, mine, pools, pools.idle
      ensures Valid() && n <= |p|
      ensures var have := EnsureSegment(old(State()).buf);
              && 0 <= LastRoom(have) && n == Taken(have, p) && cap == have[|have| - 1].cap
              && State() == old(State()).(buf := FillLast(have, p), bufLen := old(bufLen) + n)
      ensures pools.lent - held == old(pools.lent - held)
      ensures fresh(mine + pools.idle - old(mine + pools.idle))
    {
      hide BufPools.Valid, Valid, State, SegmentsOk, FillLast, Taken, LastRoom, Apart, Views, AllValid, Parts,
           FixedBuffer.Valid;
      Layout();
      if buf == [] {
        Append(MIN_CAP);
        assert State().buf == EnsureSegment(old(State()).buf);
        Layout();
      }
      cap := buf[|buf| - 1].mem.Length;
      Owned(buf[|buf| - 1]);
      var full;
      n, full := FillLastBuffer(p);
    }

    /** Write again, once Wait has returned. */
    method WriteAfterWait(p: seq<Byte>, lastCap: nat) returns (rest: seq<Byte>, end: WriteEnd)
      requires Valid() && SegmentsOk(State().buf) && MIN_CAP <= lastCap <= MAX_CAP
      modifies this`buf, this`bufLen, this`held, this`mine, mine, pools, pools.idle
      ensures Valid() && WriteResult(State(), rest, end) == WriteResume(old(State()), p, lastCap)
      ensures pools.lent - held == old(pools.lent - held)
      ensures fresh(mine + pools.idle - old(mine + pools.idle))
    {
      hide BufPools.Valid, Valid, State, SegmentsOk, LastRoom, NextCap, WriteLoop;
      Layout();
      if closeErr.Some? {
        return p, Closed;
      }
      if bufLen >= BLOCK_THRESHOLD {
        return p, Blocked(lastCap);
      }
      FreshAppends(State().buf, lastCap);
      Append(NextCap(lastCap));
      rest, end := WriteUnderLock(p);
    }

    twostate lemma ShorterByOne(b: FixedBuffer)
      requires old(Valid()) && pools.Valid() && old(buf) != [] && b == old(buf)[0]
      requires pools.lent == old(pools.lent) - {b} && pools.all == old(pools.all)
      requires pools.idle == old(pools.idle) + Parts({b})
      requires forall c :: c in old(held) && c != b ==> unchanged(c) && unchanged(c.mem)
      requires buf == old(buf)[1..] && held == old(held) - {b} && mine == Parts(held)
      requires bufLen == old(bufLen) && closeErr == old(closeErr)
      ensures Valid() && State() == old(State()).(buf := old(State()).buf[1..])
      ensures mine + pools.idle == old(mine + pools.idle) && mine <= old(mine)
    {
      hide BufPools.Valid, Parts;
      ApartFrom(old(buf), b);
      assert held == set c | c in buf by {
        assert forall i :: 0 < i < |old(buf)| ==> old(buf)[i] == buf[i - 1];
      }
      forall c | c in buf ensures c.Valid() && unchanged(c) && unchanged(c.mem) {
        assert c in old(held) && c != b;
      }
      assert old(held) == held + {b};
      PartsPlus(held, b);
    }

    /** The used-up buffer at the front goes back to the pools. */
    method DropFirst()
      requires Valid() && buf != []
      modifies this`buf, this`held, this`mine, mine, pools
      ensures Valid() && buf == old(buf[1..])
      ensures State() == old(State()).(buf := old(State()).buf[1..])
      ensures pools.lent - held == old(pools.lent - held)
      ensures mine + pools.idle == old(mine + pools.idle) && mine <= old(mine)
    {
      hide BufPools.Valid, Valid, State, Parts, Apart, AllValid, Views;
      var b := buf[0];
      Owned(b);
      pools.ReturnBuffer(b);
      held := held - {b};
      mine := Parts(held);
      buf := buf[1..];
      ShorterByOne(b);
    }

    /** One fixedBuffer.Read on the first buffer. */
    method ReadFirstBuffer(want: nat) returns (data: seq<Byte>)
      requires Valid() && buf != []
      modifies this`bufLen, buf[0]
      ensures Valid() && State() == UsedFirst(old(State()), want)
      ensures data == old(State()).buf[0].unread[..Min(|old(State()).buf[0].unread|, want)]
    {
      hide BufPools.Valid, Valid, State, Views, SegmentsOk, Apart, Parts, AllValid, FixedBuffer.Valid;
      var b := buf[0];
      Owned(b);
      Layout();
      ghost var before := State();
      data := b.Read(want);
      bufLen := bufLen - |data|;
      OneChanged(b);
      Layout();
      assert State().buf == UsedFirst(before, want).buf;
    }

    /** The body of Read's loop. */
    method ReadTurn(want: nat) returns (data: seq<Byte>)
      requires Valid() && PipeOk(State()) && buf != []
      modifies this`buf, this`bufLen, this`held, this`mine, mine, pools
      ensures Valid() && (State(), data) == TakeFirst(old(State()), want)
      ensures |data| < want ==> |buf| < old(|buf|)
      ensures pools.lent - held == old(pools.lent - held)
      ensures mine + pools.idle == old(mine + pools.idle) && mine <= old(mine)
    {
      hide BufPools.Valid, Valid, State, PipeOk, UsedFirst;
      Layout();
      Owned(buf[0]);
      TakenFirst(State(), want);
      data := ReadFirstBuffer(want);
      Layout();
      Owned(buf[0]);
      if buf[0].pos == buf[0].lastRead {
        DropFirst();
      }
    }

    /** The copying loop of Read. */
    method ReadLoop(want: nat) returns (data: seq<Byte>)
      requires Valid() && PipeOk(State())
      modifies this`buf, this`bufLen, this`held, this`mine, mine, pools
      ensures Valid() && (State(), data) == Drain(old(State()), want)
      ensures pools.lent - held == old(pools.lent - held)
      ensures mine + pools.idle == old(mine + pools.idle) && mine <= old(mine)
    {
      hide BufPools.Valid, Valid, State, PipeOk, TakeFirst;
      data := [];
      var left: nat := want;
      ghost var s := State();
      while bufLen > 0
        invariant Valid() && PipeOk(State())
        invariant DrainAfter(s, want, []) == DrainAfter(State(), left, data)
        invariant pools.lent - held == old(pools.lent - held)
        invariant mine + pools.idle == old(mine + pools.idle) && mine <= old(mine)
        decreases |buf|
      {
        Layout();
        DrainAfterUnfold(State(), left, data);
        var more := ReadTurn(left);
        data := data + more;
        if |more| == left {
          break;
        }
        left := left - |more|;
      }
      Layout();
    }

    /** Read with the mutex held, up to its end or to Wait. */
    method ReadUnderLock(want: nat) returns (end: ReadEnd)
      requires Valid() && PipeOk(State())
      modifies this`buf, this`bufLen, this`held, this`mine, mine, pools
      ensures Valid() && ReadResult(State(), end) == ReadStart(old(State()), want)
      ensures pools.lent - held == old(pools.lent - held)
      ensures mine + pools.idle == old(mine + pools.idle)
    {
      hide BufPools.Valid, Valid, State, PipeOk, Drain;
      Layout();
      if bufLen == 0 {
        if closeErr.Some? {
          return Failed(closeErr.value);
        }
        return Asleep;
      }
      var data := ReadLoop(want);
      end := Returned(data);
    }

    /** Read again, once Wait has returned. */
    method ReadAfterWait(want: nat) returns (end: ReadEnd)
      requires Valid() && PipeOk(State())
      modifies this`buf, this`bufLen, this`held, this`mine, mine, pools
      ensures Valid() && ReadResult(State(), end) == ReadResume(old(State()), want)
      ensures pools.lent - held == old(pools.lent - held)
      ensures mine + pools.idle == old(mine + pools.idle)
    {
      hide BufPools.Valid, Valid, State, PipeOk, Drain;
      Layout();
      if bufLen == 0 && closeErr.Some? {
        return Failed(closeErr.value);
      }
      var data := ReadLoop(want);
      end := Returned(data);
    }

    /** Without an error of its own, Close makes readers see the end of the stream. */
    method CloseWithError(error: Option<string>)
      requires Valid()
      modifies this`closeErr
      ensures Valid()
      ensures State() == old(State()).(closeErr := Some(if error.Some? then error.value else EOF))
    {
      hide BufPools.Valid;
      closeErr := if error.Some? then error else Some(EOF);
    }
  }

  const EOF := "EOF"

  /** Two pipes on the same pools. */
  ghost predicate ShareNothing(a: BytesPipe, b: BytesPipe)
    reads a, b, a.pools, b.pools, a.pools.all, b.pools.all, a.buf, b.buf
  {
    a != b && a.pools == b.pools && a.Valid() && b.Valid() && a.held !! b.held
  }

  /** Whatever one pipe does within its bounds, another pipe on the same pools keeps its contents. */
  twostate lemma OtherPipeKept(mover: BytesPipe, other: BytesPipe)
    requires old(ShareNothing(mover, other)) && mover.Valid()
    requires mover.pools.lent - mover.held == old(mover.pools.lent - mover.held)
    requires unchanged(other) && forall b :: b in other.held ==> unchanged(b) && unchanged(b.mem)
    ensures ShareNothing(mover, other) && other.State() == old(other.State())
  {
    hide BufPools.Valid, Parts;
    forall b | b in other.held ensures b in other.pools.lent && b !in mover.held {
      assert b in old(mover.pools.lent - mover.held);
    }
    SameViews(other.buf);
  }

  twostate lemma SameViews(bs: seq<FixedBuffer>)
    requires old(AllValid(bs))
    requires forall b :: b in bs ==> unchanged(b) && unchanged(b.mem)
    ensures AllValid(bs) && Views(bs) == old(Views(bs))
  {
    forall i | 0 <= i < |bs| ensures Views(bs)[i] == old(Views(bs))[i] {
      assert bs[i] in bs;
    }
  }

  /** What the methods of one pipe may change has nothing of the other one. */
  lemma OutOfReach(mover: BytesPipe, other: BytesPipe)
    requires ShareNothing(mover, other)
    ensures mover.pools.Valid() && other.held <= other.pools.lent
    ensures forall b :: b in other.held ==>
              b !in mover.mine && b.mem !in mover.mine && b !in mover.pools.idle && b.mem !in mover.pools.idle
  {
    var pools := mover.pools;
    forall b | b in other.held ensures b !in mover.mine && b.mem !in mover.mine
                                       && b !in pools.idle && b.mem !in pools.idle {
      NotAPart(pools, b, mover.held);
      NotAPart(pools, b, pools.all - pools.lent);
    }
  }

  lemma NotAPart(pools: BufPools, b: FixedBuffer, bs: set<FixedBuffer>)
    requires pools.Valid() && b in pools.all && bs <= pools.all && b !in bs
    ensures b !in Parts(bs) && b.mem !in Parts(bs)
  {
  }

  method NewBytesPipe(pools: BufPools) returns (bp: BytesPipe)
    requires pools.Valid()
    modifies pools
    ensures bp.Valid() && fresh(bp) && bp.pools == pools
    ensures bp.State() == START.pipe
    ensures pools.lent - bp.held == old(pools.lent)
  {
    hide BufPools.Valid, BytesPipe.Valid, BytesPipe.State;
    bp := new BytesPipe(pools);
    bp.Append(MIN_CAP);
  }
}
