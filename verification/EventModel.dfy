/**
  The event monitor as a state machine. What runs under the write lock is one step, possible
  only while nobody holds the read lock; what runs under the read lock is cut into single sends.
 */
module EventModel {
  import opened Wrappers

  type Chan = nat

  /** eventMonitoringState: `count` is its WaitGroup's counter. */
  datatype Monitor = Monitor(
    enabled: bool, c: Option<Chan>, errC: Option<Chan>, listeners: seq<Chan>, count: int, lastSeen: int)

  /** Channels that were made, and those closed again. */
  datatype Channels = Channels(made: set<Chan>, closed: set<Chan>) {
    predicate Open(x: Chan) {
      x in made && x !in closed
    }

    function Close(x: Chan): Channels {
      this.(closed := closed + {x})
    }

    function Make(x: Chan): Channels {
      this.(made := made + {x})
    }
  }

  // ----- what each method does

  function Added(m: Monitor, l: Chan): Monitor {
    if l in m.listeners then m else m.(listeners := m.listeners + [l], count := m.count + 1)
  }

  function Without(ls: seq<Chan>, l: Chan): seq<Chan> {
    if ls == [] then []
    else Without(ls[..|ls| - 1], l) + if ls[|ls| - 1] == l then [] else [ls[|ls| - 1]]
  }

  function Removed(m: Monitor, l: Chan): Monitor {
    if l in m.listeners then m.(listeners := Without(m.listeners, l), count := m.count - 1) else m
  }

  function Enabled(m: Monitor, c: Chan, errC: Chan): Monitor {
    if m.enabled then m else m.(enabled := true, lastSeen := 0, c := Some(c), errC := Some(errC))
  }

  function Seen(m: Monitor, time: int): Monitor {
    if m.lastSeen < time then m.(lastSeen := time) else m
  }

  /** The listeners, and with a monitor that is on its own two channels. */
  function ToClose(m: Monitor): seq<Chan> {
    m.listeners + if m.enabled && m.c.Some? && m.errC.Some? then [m.c.value, m.errC.value] else []
  }

  function Disabled(m: Monitor): Monitor {
    m.(enabled := false, listeners := [], count := m.count - |m.listeners|)
  }

  function CloseAll(chans: Channels, xs: seq<Chan>): Channels {
    chans.(closed := chans.closed + set x | x in xs)
  }

  /** Where sendEvent sends: to every listener, or without one to errC. */
  function Targets(m: Monitor): seq<Chan> {
    if !m.enabled then []
    else if m.listeners == [] && m.errC.Some? then [m.errC.value]
    else m.listeners
  }

  // ----- what would be a panic, or would block for good

  /** Closing these one after the other closes none twice. */
  predicate ClosesOnce(chans: Channels, xs: seq<Chan>) {
    (forall x :: x in xs ==> chans.Open(x)) && Distinct(xs)
  }

  predicate Distinct(xs: seq<Chan>) {
    forall i, j :: 0 <= i < j < |xs| ==> xs[i] != xs[j]
  }

  /** closeListeners takes one off the counter per listener, so it stays non-negative; Wait, which runs
      with the lock held, returns only when nothing is left; and nothing is closed twice. */
  predicate DisableIsSafe(m: Monitor, chans: Channels) {
    m.count - |m.listeners| == 0 && ClosesOnce(chans, ToClose(m))
  }

  // ----- all callers together

  /** `senders` run sendEvent, with the sends they still have to do; `hijackers` hold the read lock in
      eventHijack, with the send that they decided on. `own` are the channels that callers made. */
  datatype System = System(
    m: Monitor, chans: Channels, own: set<Chan>,
    senders: map<nat, seq<Chan>>, hijackers: map<nat, Option<Chan>>, times: seq<int>)

  datatype Event =
    | NewChannel(x: Chan)
    | CallerCloses(x: Chan)
    | AddListener(l: Chan)
    | RemoveListener(l: Chan)
    | Enable(c: Chan, errC: Chan)
    | Disable
    | UpdateLastSeen(time: int)
    | SendBegin(who: nat)
    | SendNext(who: nat)
    | SendEnd(who: nat)
    | HijackBegin(who: nat, eventChan: Chan)
    | HijackSend(who: nat)
    | HijackEnd(who: nat)

  predicate NoReaders(s: System) {
    s.senders == map[] && s.hijackers == map[]
  }

  /** When a step can happen. A new channel is one nobody has; callers add channels of theirs that are
      open, and close none that is registered. */
  predicate CanHappen(s: System, e: Event) {
    match e
    case NewChannel(x) => x !in s.chans.made
    case CallerCloses(x) => x in s.own && s.chans.Open(x) && x !in s.m.listeners
    case AddListener(l) => NoReaders(s) && l in s.own && s.chans.Open(l)
    case RemoveListener(_) => NoReaders(s)
    case Enable(c, errC) => NoReaders(s) && c !in s.chans.made && errC !in s.chans.made && c != errC
    case Disable => NoReaders(s)
    case UpdateLastSeen(_) => NoReaders(s)
    case SendBegin(who) => who !in s.senders && who !in s.hijackers
    case SendNext(who) => who in s.senders && s.senders[who] != []
    case SendEnd(who) => who in s.senders && s.senders[who] == []
    case HijackBegin(who, _) => who !in s.senders && who !in s.hijackers
    case HijackSend(who) => who in s.hijackers && s.hijackers[who].Some?
    case HijackEnd(who) => who in s.hijackers && s.hijackers[who].None?
  }

  function Step(s: System, e: Event): System
    requires CanHappen(s, e)
  {
    match e
    case NewChannel(x) => s.(chans := s.chans.Make(x), own := s.own + {x})
    case CallerCloses(x) => s.(chans := s.chans.Close(x))
    case AddListener(l) => s.(m := Added(s.m, l))
    case RemoveListener(l) => s.(m := Removed(s.m, l))
    case Enable(c, errC) =>
      if s.m.enabled then s
      else s.(m := Enabled(s.m, c, errC), chans := s.chans.Make(c).Make(errC), times := [])
    case Disable => s.(m := Disabled(s.m), chans := CloseAll(s.chans, ToClose(s.m)))
    case UpdateLastSeen(time) => s.(m := Seen(s.m, time), times := s.times + [time])
    case SendBegin(who) => s.(m := s.m.(count := s.m.count + 1), senders := s.senders[who := Targets(s.m)])
    case SendNext(who) => s.(senders := s.senders[who := s.senders[who][1..]])
    case SendEnd(who) => s.(m := s.m.(count := s.m.count - 1), senders := s.senders - {who})
    case HijackBegin(who, eventChan) =>
      s.(hijackers := s.hijackers[who := if s.m.enabled && s.m.c == Some(eventChan) then Some(eventChan) else None])
    case HijackSend(who) => s.(hijackers := s.hijackers[who := None])
    case HijackEnd(who) => s.(hijackers := s.hijackers - {who})
  }

  /** No panic in this step and no Wait that never returns: a send goes to an open channel, a counter
      that is taken down stays non-negative, and disabling is safe. */
  predicate Safe(s: System, e: Event)
    requires CanHappen(s, e)
  {
    match e
    case SendNext(who) => s.chans.Open(s.senders[who][0])
    case HijackSend(who) => s.chans.Open(s.hijackers[who].value)
    case SendEnd(_) => s.m.count >= 1
    case RemoveListener(l) => l in s.m.listeners ==> s.m.count >= 1
    case Disable => DisableIsSafe(s.m, s.chans)
    case _ => true
  }

  // ----- what every run keeps

  /** One per listener, one per sendEvent at work. */
  ghost predicate CountOk(s: System) {
    s.m.count == |s.m.listeners| + |s.senders|
  }

  ghost predicate ListenersOk(s: System) {
    && Distinct(s.m.listeners)
    && forall l :: l in s.m.listeners ==> l in s.own && s.chans.Open(l)
  }

  /** A monitor that is on has two open channels which are none of the callers'. */
  ghost predicate MonitorOk(m: Monitor, chans: Channels, own: set<Chan>) {
    && own <= chans.made && chans.closed <= chans.made
    && (m.enabled ==>
          && m.c.Some? && m.errC.Some? && m.c != m.errC
          && chans.Open(m.c.value) && chans.Open(m.errC.value)
          && m.c.value !in own && m.errC.value !in own)
  }

  /** Nobody who holds the read lock is about to send anywhere but to registered listeners and the
      channels of the monitor. */
  ghost predicate ReadersOk(s: System) {
    && (forall w, x :: w in s.senders && x in s.senders[w] ==>
          x in s.m.listeners || (s.m.enabled && Some(x) == s.m.errC))
    && (forall w :: w in s.hijackers && s.hijackers[w].Some? ==> s.m.enabled && s.m.c == s.hijackers[w])
  }

  function Latest(times: seq<int>): int {
    if times == [] then 0
    else
      var before := Latest(times[..|times| - 1]);
      if before < times[|times| - 1] then times[|times| - 1] else before
  }

  ghost predicate Inv(s: System) {
    && CountOk(s)
    && ListenersOk(s)
    && MonitorOk(s.m, s.chans, s.own)
    && ReadersOk(s)
    && s.m.lastSeen == Latest(s.times)
  }

  lemma {:induction false} WithoutOne(ls: seq<Chan>, l: Chan)
    ensures forall x :: x in Without(ls, l) <==> x in ls && x != l
    ensures Distinct(ls) ==> Distinct(Without(ls, l))
    ensures Distinct(ls) ==> |Without(ls, l)| == |ls| - if l in ls then 1 else 0
  {
    hide Distinct;
    if ls == [] {
      assert Without(ls, l) == ls;
    } else {
      var rest, last := ls[..|ls| - 1], ls[|ls| - 1];
      WithoutOne(rest, l);
      assert ls == rest + [last];
      DistinctLast(rest, last);
      DistinctLast(Without(rest, l), last);
      assert Without(rest, l) + [] == Without(rest, l);
    }
  }

  lemma DistinctLast(xs: seq<Chan>, x: Chan)
    ensures Distinct(xs + [x]) <==> Distinct(xs) && x !in xs
  {
    var all := xs + [x];
    if Distinct(all) {
      assert forall i :: 0 <= i < |xs| ==> all[i] == xs[i] && all[i] != all[|xs|];
    }
  }

  lemma DisabledSafely(s: System)
    requires Inv(s) && NoReaders(s)
    ensures DisableIsSafe(s.m, s.chans)
  {
    assert |s.senders| == 0;
  }

  /** No step panics or blocks on the WaitGroup. */
  lemma StepIsSafe(s: System, e: Event)
    requires Inv(s) && CanHappen(s, e)
    ensures Safe(s, e)
  {
    hide Latest, DisableIsSafe, Distinct;
    match e
    case SendNext(who) => assert s.senders[who][0] in s.senders[who];
    case SendEnd(who) => assert who in s.senders.Keys && |s.senders.Keys| > 0;
    case Disable => DisabledSafely(s);
    case _ =>
  }

  lemma StepKeeps(s: System, e: Event)
    requires Inv(s) && CanHappen(s, e)
    ensures Inv(Step(s, e))
  {
    match e
    case AddListener(_) => WriterKeeps(s, e);
    case RemoveListener(_) => WriterKeeps(s, e);
    case Enable(_, _) => WriterKeeps(s, e);
    case Disable => WriterKeeps(s, e);
    case UpdateLastSeen(time) => assert (s.times + [time])[..|s.times|] == s.times;
    case NewChannel(_) => ChannelKeeps(s, e);
    case CallerCloses(_) => ChannelKeeps(s, e);
    case SendBegin(_) => SenderKeeps(s, e);
    case SendNext(_) => SenderKeeps(s, e);
    case SendEnd(_) => SenderKeeps(s, e);
    case _ => HijackerKeeps(s, e);
  }

  lemma WriterKeeps(s: System, e: Event)
    requires Inv(s) && CanHappen(s, e)
    requires e.AddListener? || e.RemoveListener? || e.Enable? || e.Disable?
    ensures Inv(Step(s, e))
  {
    hide Latest, Without, Distinct;
    match e
    case AddListener(l) => DistinctLast(s.m.listeners, l);
    case RemoveListener(l) => WithoutOne(s.m.listeners, l);
    case Enable(_, _) => Nothing();
    case Disable => Nothing();
  }

  lemma Nothing()
    ensures Distinct([]) && Latest([]) == 0
  {
  }

  lemma SenderKeeps(s: System, e: Event)
    requires Inv(s) && CanHappen(s, e)
    requires e.SendBegin? || e.SendNext? || e.SendEnd?
    ensures Inv(Step(s, e))
  {
    hide Latest, ListenersOk, MonitorOk, Targets, CountOk;
    SenderCounted(s, e);
    match e
    case SendBegin(_) => TargetsOk(s.m);
    case SendNext(who) => assert forall x :: x in s.senders[who][1..] ==> x in s.senders[who];
    case SendEnd(_) =>
  }

  lemma SenderCounted(s: System, e: Event)
    requires Inv(s) && CanHappen(s, e)
    requires e.SendBegin? || e.SendNext? || e.SendEnd?
    ensures CountOk(Step(s, e)) && ListenersOk(Step(s, e)) && MonitorOk(Step(s, e).m, Step(s, e).chans, Step(s, e).own)
  {
    hide Latest, Targets, ReadersOk, Distinct, ListenersOk, MonitorOk;
    var t := Step(s, e);
    SameListeners(s, t);
    match e
    case SendBegin(who) =>
      OneMore(s.senders, who, Targets(s.m));
      assert |t.senders| == |s.senders| + 1;
    case SendNext(who) =>
      OneMore(s.senders, who, s.senders[who][1..]);
      assert |t.senders| == |s.senders|;
    case SendEnd(who) =>
      OneLess(s.senders, who);
      assert |t.senders| == |s.senders| - 1;
  }

  lemma SameListeners(s: System, t: System)
    requires t.m.(count := s.m.count) == s.m && t.chans == s.chans && t.own == s.own
    ensures ListenersOk(s) <==> ListenersOk(t)
    ensures MonitorOk(s.m, s.chans, s.own) <==> MonitorOk(t.m, t.chans, t.own)
  {
  }

  lemma TargetsOk(m: Monitor)
    ensures forall x :: x in Targets(m) ==> x in m.listeners || (m.enabled && Some(x) == m.errC)
  {
  }

  lemma HijackerKeeps(s: System, e: Event)
    requires Inv(s) && CanHappen(s, e)
    requires e.HijackBegin? || e.HijackSend? || e.HijackEnd?
    ensures Inv(Step(s, e))
  {
    hide Latest, ListenersOk, MonitorOk, Targets, CountOk;
    var t := Step(s, e);
    assert t.m == s.m && t.senders == s.senders && t.chans == s.chans;
    assert CountOk(t) && ListenersOk(t) by {
      SameCounts(s, t);
    }
  }

  lemma SameCounts(s: System, t: System)
    requires t.m == s.m && t.senders == s.senders && t.chans == s.chans && t.own == s.own
    ensures (CountOk(s) <==> CountOk(t)) && (ListenersOk(s) <==> ListenersOk(t))
  {
  }

  lemma ChannelKeeps(s: System, e: Event)
    requires Inv(s) && CanHappen(s, e)
    requires e.NewChannel? || e.CallerCloses?
    ensures Inv(Step(s, e))
  {
    hide Latest, Targets, Distinct;
  }

  lemma OneMore<T>(m: map<nat, T>, k: nat, v: T)
    ensures |m[k := v]| == |m| + if k in m then 0 else 1
  {
    if k in m {
      assert m[k := v].Keys == m.Keys;
    } else {
      assert m[k := v].Keys == m.Keys + {k};
    }
    assert |m| == |m.Keys| && |m[k := v]| == |m[k := v].Keys|;
  }

  lemma OneLess<T>(m: map<nat, T>, k: nat)
    requires k in m
    ensures |m - {k}| == |m| - 1
  {
    assert (m - {k}).Keys == m.Keys - {k};
    assert |m| == |m.Keys| && |m - {k}| == |(m - {k}).Keys|;
  }

  // ----- every run

  const START := System(Monitor(false, None, None, [], 0, 0), Channels({}, {}), {}, map[], map[], [])

  ghost predicate CanRun(s: System, run: seq<Event>)
    decreases |run|
  {
    run == [] || (CanHappen(s, run[0]) && CanRun(Step(s, run[0]), run[1..]))
  }

  ghost predicate SafeRun(s: System, run: seq<Event>)
    requires CanRun(s, run)
    decreases |run|
  {
    run == [] || (Safe(s, run[0]) && SafeRun(Step(s, run[0]), run[1..]))
  }

  ghost function Final(s: System, run: seq<Event>): System
    requires CanRun(s, run)
    decreases |run|
  {
    if run == [] then s else Final(Step(s, run[0]), run[1..])
  }

  lemma {:induction false} RunIsSafe(s: System, run: seq<Event>)
    requires Inv(s) && CanRun(s, run)
    ensures SafeRun(s, run) && Inv(Final(s, run))
    decreases |run|
  {
    hide Inv, Safe, Step, CanHappen;
    if run != [] {
      StepIsSafe(s, run[0]);
      StepKeeps(s, run[0]);
      RunIsSafe(Step(s, run[0]), run[1..]);
    }
  }

  /** From a new monitor, in any interleaving: no step panics, Wait always returns at once, and the
      counter is the number of listeners and active sends. */
  lemma EveryRunIsSafe(run: seq<Event>)
    requires CanRun(START, run)
    ensures SafeRun(START, run)
    ensures var s := Final(START, run);
            s.m.count == |s.m.listeners| + |s.senders| && Distinct(s.m.listeners) && s.m.lastSeen == Latest(s.times)
  {
    RunIsSafe(START, run);
  }

  /** That callers add open channels only is needed: adding a channel and then disabling goes well
      exactly when the channel was open. */
  lemma AddedOpenIff(s: System, l: Chan)
    requires Inv(s) && NoReaders(s) && l in s.own && l !in s.m.listeners
    ensures DisableIsSafe(Added(s.m, l), s.chans) <==> s.chans.Open(l)
  {
    assert |s.senders| == 0;
    var m := Added(s.m, l);
    assert l in ToClose(m) by {
      assert m.listeners[|s.m.listeners|] == l;
      assert ToClose(m)[|s.m.listeners|] == l;
    }
    if s.chans.Open(l) {
      assert Distinct(m.listeners);
      assert Distinct(ToClose(m));
    }
  }

  // ----- what one sendEvent sends, from its begin to its end, with anything else going on meanwhile

  /** The channels that this sender sends to in the course of a run, in order. */
  ghost function SentBy(s: System, run: seq<Event>, who: nat): seq<Chan>
    requires CanRun(s, run)
    decreases |run|
  {
    if run == [] then []
    else (if run[0] == SendNext(who) then [s.senders[who][0]] else []) + SentBy(Step(s, run[0]), run[1..], who)
  }

  /** While a sender holds the read lock nobody changes the listeners, and only it sends its sends. */
  lemma OneSend(s: System, e: Event, who: nat)
    requires CanHappen(s, e) && who in s.senders && e != SendEnd(who)
    ensures var t := Step(s, e);
            && who in t.senders
            && s.senders[who] == (if e == SendNext(who) then [s.senders[who][0]] else []) + t.senders[who]
            && t.m.listeners == s.m.listeners && t.m.enabled == s.m.enabled && t.m.errC == s.m.errC
  {
    hide Targets, Without, ToClose, Added, Removed, Enabled, Disabled;
    assert who in s.senders.Keys && s.senders != map[];
  }

  /** What it has sent and what it has still to send are what it set out with. */
  lemma {:induction false} SendsRest(s: System, run: seq<Event>, who: nat)
    requires CanRun(s, run) && who in s.senders && SendEnd(who) !in run
    ensures var t := Final(s, run);
            && who in t.senders && SentBy(s, run, who) + t.senders[who] == s.senders[who]
            && t.m.listeners == s.m.listeners && t.m.enabled == s.m.enabled && t.m.errC == s.m.errC
    decreases |run|
  {
    hide Step, CanHappen;
    if run != [] {
      assert run[0] in run;
      OneSend(s, run[0], who);
      SendsRest(Step(s, run[0]), run[1..], who);
    }
  }

  lemma {:induction false} RunConcat(s: System, a: seq<Event>, b: seq<Event>, who: nat)
    requires CanRun(s, a + b)
    ensures CanRun(s, a) && CanRun(Final(s, a), b)
    ensures Final(s, a + b) == Final(Final(s, a), b)
    ensures SentBy(s, a + b, who) == SentBy(s, a, who) + SentBy(Final(s, a), b, who)
    decreases |a|
  {
    hide Step, CanHappen;
    if a == [] {
      assert a + b == b;
    } else {
      assert (a + b)[1..] == a[1..] + b;
      RunConcat(Step(s, a[0]), a[1..], b, who);
    }
  }

  lemma OneEvent(s: System, e: Event, who: nat)
    requires CanRun(s, [e])
    ensures CanHappen(s, e) && Final(s, [e]) == Step(s, e)
    ensures e != SendNext(who) ==> SentBy(s, [e], who) == []
  {
    hide CanHappen, Step;
    assert [e][1..] == [];
  }

  lemma SentBetween(s: System, mid: seq<Event>, who: nat)
    requires SendEnd(who) !in mid && CanRun(s, [SendBegin(who)] + mid + [SendEnd(who)])
    ensures SentBy(s, [SendBegin(who)] + mid + [SendEnd(who)], who) == Targets(s.m)
    ensures CanRun(s, [SendBegin(who)] + mid) && Final(s, [SendBegin(who)] + mid).m.listeners == s.m.listeners
  {
    hide CanHappen, Step, Targets, CanRun, Final, SentBy;
    var begin, end := [SendBegin(who)], [SendEnd(who)];
    RunConcat(s, begin + mid, end, who);
    RunConcat(s, begin, mid, who);
    OneEvent(s, SendBegin(who), who);
    var t := Step(s, SendBegin(who));
    BeginStep(s, who);
    SendsRest(t, mid, who);
    var u := Final(t, mid);
    OneEvent(u, SendEnd(who), who);
    assert u.senders[who] == [] by {
      EndStep(u, who);
    }
    assert SentBy(t, mid, who) + [] == SentBy(t, mid, who);
  }

  lemma BeginStep(s: System, who: nat)
    requires CanHappen(s, SendBegin(who))
    ensures var t := Step(s, SendBegin(who));
            who in t.senders && t.senders[who] == Targets(s.m) && t.m.listeners == s.m.listeners
  {
  }

  lemma EndStep(s: System, who: nat)
    requires CanHappen(s, SendEnd(who))
    ensures who in s.senders && s.senders[who] == []
  {
  }

  /** From the begin of a sendEvent to its end, whatever happens in between: with the monitor on, it sends
      to every registered listener exactly once and in order, or without a listener once to errC; with the
      monitor off, nowhere. */
  lemma EveryListenerOnce(s: System, mid: seq<Event>, who: nat)
    requires Inv(s) && SendEnd(who) !in mid && CanRun(s, [SendBegin(who)] + mid + [SendEnd(who)])
    ensures var sent := SentBy(s, [SendBegin(who)] + mid + [SendEnd(who)], who);
            && (!s.m.enabled ==> sent == [])
            && (s.m.enabled && s.m.listeners == [] ==> sent == [s.m.errC.value])
            && (s.m.enabled && s.m.listeners != [] ==> sent == s.m.listeners)
            && (s.m.enabled ==> forall l :: l in s.m.listeners ==> multiset(sent)[l] == 1)
    ensures CanRun(s, [SendBegin(who)] + mid) && Final(s, [SendBegin(who)] + mid).m.listeners == s.m.listeners
  {
    hide CanRun, SentBy, Final, Step, CountOk, ReadersOk, Distinct;
    SentBetween(s, mid, who);
    if s.m.enabled {
      forall l | l in s.m.listeners ensures multiset(s.m.listeners)[l] == 1 {
        OnceEach(s.m.listeners, l);
      }
    }
  }

  lemma {:induction false} OnceEach(xs: seq<Chan>, x: Chan)
    requires Distinct(xs)
    ensures multiset(xs)[x] == if x in xs then 1 else 0
  {
    if xs != [] {
      var rest, last := xs[..|xs| - 1], xs[|xs| - 1];
      assert xs == rest + [last];
      DistinctLast(rest, last);
      OnceEach(rest, x);
    }
  }

  /** The latest time is one that came in, or the zero it starts with, and none that came in is later. */
  lemma {:induction false} LatestIs(times: seq<int>)
    ensures Latest(times) == 0 || Latest(times) in times
    ensures Latest(times) >= 0 && forall t :: t in times ==> t <= Latest(times)
  {
    if times != [] {
      LatestIs(times[..|times| - 1]);
      assert times == times[..|times| - 1] + [times[|times| - 1]];
    }
  }

  /** Disabling closes every registered listener and the monitor's own channels, and nothing else. */
  lemma DisableCloses(s: System, x: Chan)
    requires Inv(s) && CanHappen(s, Disable)
    ensures var t := Step(s, Disable);
            && !t.m.enabled && t.m.listeners == [] && t.m.count == 0 && t.m.lastSeen == s.m.lastSeen
            && (x in t.chans.closed <==>
                  x in s.chans.closed || x in s.m.listeners
                  || (s.m.enabled && (Some(x) == s.m.c || Some(x) == s.m.errC)))
  {
    assert |s.senders| == 0;
  }

  /** A hijacker that takes the read lock has a send to do exactly when the monitor is on and its channel is
      the one it came with; the send is the next thing it does. */
  lemma HijackSendsIff(s: System, who: nat, eventChan: Chan)
    requires CanHappen(s, HijackBegin(who, eventChan))
    ensures var t := Step(s, HijackBegin(who, eventChan));
            && (CanHappen(t, HijackSend(who)) <==> s.m.enabled && s.m.c == Some(eventChan))
            && (CanHappen(t, HijackEnd(who)) <==> !(s.m.enabled && s.m.c == Some(eventChan)))
            && (CanHappen(t, HijackSend(who)) ==>
                  t.hijackers[who] == Some(eventChan) && CanHappen(Step(t, HijackSend(who)), HijackEnd(who)))
  {
  }
}
