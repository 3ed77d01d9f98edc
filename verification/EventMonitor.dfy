/**
  The methods of eventMonitoringState, each with its lock held. What panics in Go is a
  precondition here: closing a channel twice, sending to a closed one, taking a WaitGroup
  below zero; and so is a Wait that could not return.
 */
module EventMonitor {
  import opened Wrappers
  import opened EventModel

  class ChannelTable {
    var chans: Channels

    constructor ()
      ensures chans == Channels({}, {})
    {
      chans := Channels({}, {});
    }

    method Make() returns (x: Chan)
      modifies this
      ensures x !in old(chans.made) && chans == old(chans).Make(x)
    {
      x := Unused(chans.made);
      chans := chans.Make(x);
    }

    method Close(x: Chan)
      requires chans.Open(x)
      modifies this
      ensures chans == old(chans).Close(x)
    {
      chans := chans.Close(x);
    }

    method Send(x: Chan)
      requires chans.Open(x)
    {
    }
  }

  method Unused(used: set<Chan>) returns (x: Chan)
    ensures x !in used
  {
    x := 0;
    var rest := used;
    while rest != {}
      invariant rest <= used && forall y :: y in used ==> y in rest || y < x
      decreases rest
    {
      var y :| y in rest;
      rest := rest - {y};
      if x <= y {
        x := y + 1;
      }
    }
  }

  class EventMonitoringState {
    const table: ChannelTable
    var enabled: bool
    var c: Option<Chan>
    var errC: Option<Chan>
    var listeners: seq<Chan>
    var count: int
    var lastSeen: int
    /** How many other goroutines are inside sendEvent. */
    ghost var senders: nat

    constructor (table: ChannelTable)
      requires table.chans.closed <= table.chans.made
      ensures Valid() && this.table == table && M() == START.m && senders == 0
    {
      this.table := table;
      enabled, c, errC, listeners, count, lastSeen := false, None, None, [], 0, 0;
      senders := 0;
    }

    ghost function M(): Monitor
      reads this
    {
      Monitor(enabled, c, errC, listeners, count, lastSeen)
    }

    ghost predicate Valid()
      reads this, table
    {
      && count == |listeners| + senders
      && ClosesOnce(table.chans, ToClose(M()))
      && table.chans.closed <= table.chans.made
      && (enabled ==> c.Some? && errC.Some?)
    }

    // ----- the WaitGroup

    method Add(delta: int)
      requires count + delta >= 0
      modifies this`count
      ensures count == old(count) + delta
    {
      count := count + delta;
    }

    /** Called with the write lock held, so that nobody else could bring the counter down. */
    method Wait()
      requires count == 0
    {
    }

    // ----- the listeners

    method ListenerExists(l: Chan) returns (found: bool)
      ensures found <==> l in listeners
    {
      for i := 0 to |listeners|
        invariant l !in listeners[..i]
      {
        if listeners[i] == l {
          return true;
        }
      }
      found := false;
    }

    method AddListener(l: Chan) returns (alreadyExists: bool)
      requires Valid() && table.chans.Open(l) && (enabled ==> Some(l) != c && Some(l) != errC)
      modifies this`listeners, this`count
      ensures Valid() && M() == Added(old(M()), l)
      ensures alreadyExists ==> listeners == old(listeners) && count == old(count)
      ensures !alreadyExists ==> listeners == old(listeners) + [l] && count == old(count) + 1
      ensures alreadyExists <==> l in old(listeners)
    {
      alreadyExists := ListenerExists(l);
      if alreadyExists {
        return;
      }
      Add(1);
      listeners := listeners + [l];
      LongerClosesOnce(table.chans, old(listeners), ToClose(old(M()))[|old(listeners)|..], l);
      assert ToClose(M()) == listeners + ToClose(old(M()))[|old(listeners)|..];
      assert ToClose(old(M())) == old(listeners) + ToClose(old(M()))[|old(listeners)|..];
    }

    method RemoveListener(l: Chan)
      requires Valid()
      modifies this`listeners, this`count
      ensures Valid() && M() == Removed(old(M()), l)
      ensures forall x :: x in listeners <==> x in old(listeners) && x != l
      ensures count - |listeners| == old(count) - |old(listeners)|
    {
      hide Distinct;
      var found := ListenerExists(l);
      if found {
        var newListeners := [];
        for i := 0 to |listeners|
          invariant newListeners == Without(listeners[..i], l)
        {
          assert listeners[..i + 1][..i] == listeners[..i];
          if listeners[i] != l {
            newListeners := newListeners + [listeners[i]];
          }
        }
        assert listeners[..|listeners|] == listeners;
        WithoutOne(listeners, l);
        ghost var own := ToClose(M())[|listeners|..];
        assert ToClose(M()) == listeners + own;
        ShorterClosesOnce(table.chans, listeners, own, l);
        listeners := newListeners;
        Add(-1);
        assert ToClose(M()) == listeners + own;
      }
    }

    /** Every listener is closed once, and its count given back. */
    method CloseListeners()
      requires ClosesOnce(table.chans, listeners) && count >= |listeners|
      modifies this`listeners, this`count, table
      ensures listeners == [] && count == old(count) - |old(listeners)|
      ensures table.chans == CloseAll(old(table.chans), old(listeners))
    {
      for i := 0 to |listeners|
        invariant listeners == old(listeners) && count == old(count) - i
        invariant table.chans == CloseAll(old(table.chans), listeners[..i])
      {
        assert listeners[i] in listeners && listeners[i] !in listeners[..i];
        table.Close(listeners[i]);
        Add(-1);
        assert listeners[..i + 1] == listeners[..i] + [listeners[i]];
      }
      assert listeners[..|listeners|] == listeners;
      listeners := [];
    }

    // ----- on and off

    method EnableEventMonitoring()
      requires Valid() && senders == 0
      modifies this, table
      ensures Valid() && senders == 0
      ensures enabled && listeners == old(listeners) && count == old(count)
      ensures lastSeen == if old(enabled) then old(lastSeen) else 0
      ensures old(enabled) ==> M() == old(M()) && table.chans == old(table.chans)
      ensures !old(enabled) ==>
                && M().c.Some? && M().errC.Some? && c.value != errC.value
                && c.value !in old(table.chans.made) && errC.value !in old(table.chans.made)
                && M() == Enabled(old(M()), c.value, errC.value)
                && table.chans == old(table.chans).Make(c.value).Make(errC.value)
    {
      if !enabled {
        enabled := true;
        lastSeen := 0;
        var x := table.Make();
        c := Some(x);
        x := table.Make();
        errC := Some(x);
        assert ToClose(M()) == listeners + [c.value, errC.value];
        assert ToClose(old(M())) == listeners + [];
        Splits(old(table.chans), listeners, []);
        FreshClosesOnce(old(table.chans), listeners, c.value, errC.value);
      }
    }

    /** Wait returns at once, and no channel is closed a second time. */
    method DisableEventMonitoring()
      requires Valid() && senders == 0
      modifies this, table
      ensures Valid() && senders == 0
      ensures M() == Disabled(old(M())) && table.chans == CloseAll(old(table.chans), ToClose(old(M())))
      ensures !enabled && listeners == [] && count == 0 && lastSeen == old(lastSeen)
      ensures forall x :: x in table.chans.closed <==>
                || x in old(table.chans.closed) || x in old(listeners)
                || (old(enabled) && (Some(x) == old(c) || Some(x) == old(errC)))
    {
      ghost var own := if enabled then [c.value, errC.value] else [];
      assert ToClose(M()) == listeners + own;
      Splits(table.chans, listeners, own);
      CloseListeners();
      Wait();
      if enabled {
        enabled := false;
        assert own[0] in own && own[1] in own && own[0] != own[1];
        table.Close(c.value);
        table.Close(errC.value);
      }
      assert ToClose(M()) == [];
    }

    method UpdateLastSeen(time: int)
      requires Valid()
      modifies this`lastSeen
      ensures Valid() && M() == Seen(old(M()), time)
      ensures lastSeen == if old(lastSeen) < time then time else old(lastSeen)
    {
      if lastSeen < time {
        lastSeen := time;
      }
    }

    /** Every listener gets the event offered, once and in order, or errC when there is none; the channel is
        open when it does. */
    method SendEvent() returns (offered: seq<Chan>)
      requires Valid()
      modifies this`count, this`senders
      ensures Valid() && M() == old(M()) && senders == old(senders)
      ensures enabled && listeners != [] ==> offered == listeners
      ensures enabled && listeners == [] ==> offered == [errC.value]
      ensures !enabled ==> offered == []
      ensures offered == Targets(M())
    {
      Add(1);
      senders := senders + 1;
      offered := [];
      if enabled {
        if |listeners| == 0 {
          table.Send(errC.value);
          offered := [errC.value];
        } else {
          for i := 0 to |listeners|
            invariant offered == listeners[..i]
            invariant count == old(count) + 1 && senders == old(senders) + 1
          {
            assert listeners[i] in ToClose(M());
            table.Send(listeners[i]);
            offered := offered + [listeners[i]];
          }
        }
      }
      senders := senders - 1;
      Add(-1);
    }

    /** eventHijack's guarded send, with the read lock held. */
    method SendFromHijack(eventChan: Chan) returns (sent: bool)
      requires Valid()
      ensures sent <==> enabled && c == Some(eventChan)
    {
      sent := enabled && c == Some(eventChan);
      if sent {
        assert eventChan in ToClose(M());
        table.Send(eventChan);
      }
    }
  }

  lemma DistinctConcat(xs: seq<Chan>, ys: seq<Chan>)
    ensures Distinct(xs + ys) <==> Distinct(xs) && Distinct(ys) && forall x :: x in xs ==> x !in ys
  {
    var all := xs + ys;
    if Distinct(all) {
      forall i, j | 0 <= i < j < |xs| ensures xs[i] != xs[j] {
        assert all[i] == xs[i] && all[j] == xs[j];
      }
      forall i, j | 0 <= i < j < |ys| ensures ys[i] != ys[j] {
        assert all[|xs| + i] == ys[i] && all[|xs| + j] == ys[j];
      }
      forall x | x in xs ensures x !in ys {
        var i :| 0 <= i < |xs| && xs[i] == x;
        forall j | 0 <= j < |ys| ensures ys[j] != x {
          assert all[i] == x && all[|xs| + j] == ys[j];
        }
      }
    }
    if Distinct(xs) && Distinct(ys) && forall x :: x in xs ==> x !in ys {
      forall i, j | 0 <= i < j < |all| ensures all[i] != all[j] {
        assert i < |xs| ==> all[i] in xs;
        assert |xs| <= j ==> all[j] in ys;
      }
    }
  }

  lemma Splits(chans: Channels, xs: seq<Chan>, ys: seq<Chan>)
    requires ClosesOnce(chans, xs + ys)
    ensures ClosesOnce(chans, xs) && ClosesOnce(chans, ys)
    ensures forall x :: x in xs ==> x !in ys
  {
    hide Distinct;
    DistinctConcat(xs, ys);
    assert forall x :: x in xs + ys <==> x in xs || x in ys;
  }

  /** Two channels just made can be closed besides. */
  lemma FreshClosesOnce(chans: Channels, xs: seq<Chan>, c: Chan, errC: Chan)
    requires ClosesOnce(chans, xs) && chans.closed <= chans.made
    requires c !in chans.made && errC !in chans.made && c != errC
    ensures ClosesOnce(chans.Make(c).Make(errC), xs + [c, errC])
  {
    DistinctConcat(xs, [c, errC]);
  }

  lemma LongerClosesOnce(chans: Channels, xs: seq<Chan>, ys: seq<Chan>, x: Chan)
    requires ClosesOnce(chans, xs + ys) && chans.Open(x) && x !in xs && x !in ys
    ensures ClosesOnce(chans, xs + [x] + ys)
  {
    hide Distinct;
    Splits(chans, xs, ys);
    DistinctLast(xs, x);
    DistinctConcat(xs + [x], ys);
  }

  lemma ShorterClosesOnce(chans: Channels, xs: seq<Chan>, ys: seq<Chan>, x: Chan)
    requires ClosesOnce(chans, xs + ys) && x in xs
    ensures ClosesOnce(chans, Without(xs, x) + ys) && |Without(xs, x)| == |xs| - 1
  {
    hide Distinct;
    Splits(chans, xs, ys);
    WithoutOne(xs, x);
    DistinctConcat(Without(xs, x), ys);
  }
}
