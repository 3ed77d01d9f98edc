/** Finding a free block of subordinate ids. */
module SubordinateRanges {
  import opened IdMaps

  const DEFAULT_RANGE_LEN := 65536
  const DEFAULT_RANGE_START := 100000

  /** Does the block starting at `id` begin or end in the range? */
  predicate WouldOverlap(r: Range, id: int) {
    var low, high := id, id + DEFAULT_RANGE_LEN;
    (low >= r.start && low <= r.start + r.length) || (high <= r.start + r.length && high >= r.start)
  }

  /** Where the search stands after the ranges. */
  function StartAfter(ranges: seq<Range>): int {
    if ranges == [] then DEFAULT_RANGE_START
    else
      var last := ranges[|ranges| - 1];
      var startID := StartAfter(ranges[..|ranges| - 1]);
      if WouldOverlap(last, startID) then last.start + last.length else startID
  }

  method FindNextRangeStart(rangeList: seq<Range>) returns (startID: int)
    ensures startID == StartAfter(rangeList)
  {
    startID := DEFAULT_RANGE_START;
    for i := 0 to |rangeList|
      invariant startID == StartAfter(rangeList[..i])
    {
      var arange := rangeList[i];
      assert rangeList[..i + 1][..i] == rangeList[..i];
      if WouldOverlap(arange, startID) {
        startID := arange.start + arange.length;
      }
    }
    assert rangeList[..|rangeList|] == rangeList;
  }

  /** The callers' lists: parsed, then sorted. */
  ghost predicate WellFormed(ranges: seq<Range>) {
    NotNegative(ranges) && SortedByStart(ranges) && Disjoint(multiset(ranges))
  }

  /** No id of the range is in the block. */
  predicate Free(r: Range, startID: int) {
    r.length == 0 || r.End() <= startID || startID + DEFAULT_RANGE_LEN <= r.start
  }

  /** The range lies in the block and touches neither end of it: what WouldOverlap does not see. */
  predicate Inside(r: Range, startID: int) {
    startID < r.start && r.End() < startID + DEFAULT_RANGE_LEN
  }

  predicate Ahead(r: Range, startID: int) {
    startID + DEFAULT_RANGE_LEN < r.start
  }

  ghost predicate Passed(ranges: seq<Range>, startID: int) {
    forall r :: r in ranges ==> r.End() <= startID || Ahead(r, startID) || Inside(r, startID)
  }

  /** The start never moves back. */
  lemma {:induction false} NeverBelowDefault(ranges: seq<Range>)
    requires NotNegative(ranges)
    ensures StartAfter(ranges) >= DEFAULT_RANGE_START
    ensures ranges != [] ==> StartAfter(ranges) >= StartAfter(ranges[..|ranges| - 1])
  {
    if ranges != [] {
      assert ranges[|ranges| - 1] in ranges;
      NeverBelowDefault(ranges[..|ranges| - 1]);
    }
  }

  lemma Shorter(rest: seq<Range>, last: Range)
    requires WellFormed(rest + [last])
    ensures WellFormed(rest)
    ensures forall r :: r in rest ==>
              r.start <= last.start && (r.length > 0 && last.length > 0 ==> r.End() <= last.start)
  {
    var ranges := rest + [last];
    assert multiset(ranges) == multiset(rest) + multiset{last};
    FewerDisjoint(multiset(rest), last);
    SortedInit(rest, last);
    assert forall r :: r in rest ==> r in ranges && r in multiset(rest);
  }

  lemma SortedInit(rest: seq<Range>, last: Range)
    requires SortedByStart(rest + [last])
    ensures SortedByStart(rest) && forall r :: r in rest ==> r.start <= last.start
  {
    var ranges := rest + [last];
    assert forall i :: 0 <= i < |rest| ==> ranges[i] == rest[i];
    forall r | r in rest ensures r.start <= last.start {
      var i :| 0 <= i < |rest| && rest[i] == r;
      assert ranges[i].start <= ranges[|rest|].start;
    }
  }

  lemma FewerDisjoint(rest: multiset<Range>, last: Range)
    requires Disjoint(rest + multiset{last})
    ensures Disjoint(rest)
    ensures forall r :: r in rest && r.length > 0 && last.length > 0 ==> r.End() <= last.start || last.End() <= r.start
  {
    var all := rest + multiset{last};
    assert last in all;
    forall r | r in rest && r.length > 0
      ensures rest[r] == 1 && (last.length > 0 ==> r.End() <= last.start || last.End() <= r.start)
    {
      assert r in all && all[r] == 1;
      assert r == last ==> all[r] >= 2;
    }
    assert forall r :: r in rest ==> r in all;
  }

  /** Every range is behind the block, ahead of it, or inside without being seen. */
  lemma {:induction false} AllPassed(ranges: seq<Range>)
    requires WellFormed(ranges)
    ensures Passed(ranges, StartAfter(ranges))
    decreases |ranges|
  {
    hide WellFormed, WouldOverlap, Inside, Ahead;
    if ranges != [] {
      hide Passed;
      var rest, last := ranges[..|ranges| - 1], ranges[|ranges| - 1];
      assert ranges == rest + [last];
      Shorter(rest, last);
      AllPassed(rest);
      OneMorePassed(rest, last, StartAfter(rest));
    }
  }

  lemma OneMorePassed(rest: seq<Range>, last: Range, s: int)
    requires Passed(rest, s) && WellFormed(rest + [last])
    ensures Passed(rest + [last], if WouldOverlap(last, s) then last.start + last.length else s)
  {
    hide WouldOverlap;
    var ranges := rest + [last];
    var t := if WouldOverlap(last, s) then last.start + last.length else s;
    Shorter(rest, last);
    hide WellFormed;
    NoLength(ranges, last);
    forall r | r in ranges ensures r.End() <= t || Ahead(r, t) || Inside(r, t) {
      if r in rest {
        NoLength(rest, r);
        Stays(r, last, s);
      } else {
        Arrives(last, s);
      }
    }
  }

  lemma Arrives(last: Range, s: int)
    requires last.length >= 0
    ensures var t := if WouldOverlap(last, s) then last.start + last.length else s;
            last.End() <= t || Ahead(last, t) || Inside(last, t)
  {
  }

  lemma NoLength(ranges: seq<Range>, r: Range)
    requires WellFormed(ranges) && r in ranges
    ensures r.length >= 0
  {
  }

  /** One more range after `r` leaves `r` behind, ahead or inside. */
  lemma Stays(r: Range, last: Range, s: int)
    requires r.length >= 0 && last.length >= 0 && r.start <= last.start
    requires r.length > 0 && last.length > 0 ==> r.End() <= last.start
    requires r.End() <= s || Ahead(r, s) || Inside(r, s)
    ensures var t := if WouldOverlap(last, s) then last.start + last.length else s;
            r.End() <= t || Ahead(r, t) || Inside(r, t)
  {
  }

  /** The block found is free of every range exactly when no range lies inside it unseen. */
  lemma BlockFreeIff(ranges: seq<Range>)
    requires WellFormed(ranges)
    ensures var startID := StartAfter(ranges);
            (forall r :: r in ranges ==> Free(r, startID))
            <==> forall r :: r in ranges && r.length > 0 ==> !Inside(r, startID)
  {
    AllPassed(ranges);
  }

  ghost predicate BlockIsFree(ranges: seq<Range>) {
    forall r :: r in ranges ==> Free(r, StartAfter(ranges))
  }

  /** None of the 65536 ids from the start on is in a range. */
  lemma BlockFreeMeans(ranges: seq<Range>)
    requires NotNegative(ranges)
    ensures BlockIsFree(ranges)
       <==> forall r, id :: r in ranges && r.Has(id) ==> id < StartAfter(ranges) || id >= StartAfter(ranges) + 65536
  {
    var s := StartAfter(ranges);
    if forall r, id :: r in ranges && r.Has(id) ==> id < s || id >= s + 65536 {
      forall r | r in ranges ensures Free(r, s) {
        if r.length > 0 {
          assert r.Has(r.start) && r.Has(r.End() - 1);
          assert s <= r.start || r.Has(s) || r.End() <= s;
        }
      }
    }
  }

  ghost predicate NoneShorterThan(ranges: seq<Range>, length: nat) {
    forall r :: r in ranges ==> r.length >= length
  }

  /** How long all ranges must be for the block to be free whatever the list: one less than a block. */
  lemma LengthsThatSuffice(length: nat)
    ensures (forall ranges :: WellFormed(ranges) && NoneShorterThan(ranges, length) ==> BlockIsFree(ranges))
       <==> length >= 65535
  {
    if length >= DEFAULT_RANGE_LEN - 1 {
      forall ranges | WellFormed(ranges) && NoneShorterThan(ranges, length) ensures BlockIsFree(ranges) {
        BlockFreeIff(ranges);
      }
    } else {
      ShortRangeMissed(if length == 0 then 1 else length);
    }
  }

  /** A single short range just after the default start is missed. */
  lemma ShortRangeMissed(length: nat)
    requires 0 < length < 65535
    ensures var ranges := [Range(100001, length)];
            && WellFormed(ranges) && NoneShorterThan(ranges, length)
            && StartAfter(ranges) == 100000 && !BlockIsFree(ranges)
  {
    var r := Range(DEFAULT_RANGE_START + 1, length);
    assert r in [r] && [r][..0] == [];
    assert !Free(r, DEFAULT_RANGE_START);
  }

  // ----- the condition on the list alone

  /** Walking the gaps and lengths of the list: a range that fits into the block with a gap on either side
      stays hidden, unless a later one pushes the block on. */
  predicate NothingHidden(ranges: seq<Range>, from: int, hidden: bool)
    decreases |ranges|
  {
    if ranges == [] then !hidden
    else
      var r := ranges[0];
      var gap := r.start - from;
      if r.End() < from || gap > DEFAULT_RANGE_LEN then NothingHidden(ranges[1..], from, hidden)
      else if 0 < gap && gap + r.length < DEFAULT_RANGE_LEN then
        NothingHidden(ranges[1..], from, hidden || r.length > 0)
      else NothingHidden(ranges[1..], r.End(), false)
  }

  ghost predicate HasInside(ranges: seq<Range>, startID: int) {
    exists r :: r in ranges && r.length > 0 && Inside(r, startID)
  }

  lemma {:induction false} NothingHiddenIff(done: seq<Range>, todo: seq<Range>)
    requires NotNegative(done + todo) && SortedByStart(done + todo)
    ensures NothingHidden(todo, StartAfter(done), HasInside(done, StartAfter(done)))
       <==> !HasInside(done + todo, StartAfter(done + todo))
    decreases |todo|
  {
    hide Inside, HasInside, StartAfter, WouldOverlap, NotNegative, SortedByStart;
    if todo == [] {
      assert done + todo == done;
    } else {
      var r, more := todo[0], done + [todo[0]];
      assert done + todo == more + todo[1..];
      NothingHiddenIff(more, todo[1..]);
      NextStart(done, todo);
      OneMoreRange(done, r);
    }
  }

  lemma NextStart(done: seq<Range>, todo: seq<Range>)
    requires NotNegative(done + todo) && SortedByStart(done + todo) && todo != []
    ensures todo[0].length >= 0 && forall q :: q in done ==> q.start <= todo[0].start
  {
    var all := done + todo;
    assert all[|done|] == todo[0] && todo[0] in all;
    forall q | q in done ensures q.start <= todo[0].start {
      var i :| 0 <= i < |done| && done[i] == q;
      assert all[i] == q;
    }
  }

  /** One turn of the search, told by the gap in front of the range. */
  lemma OneMoreRange(done: seq<Range>, r: Range)
    requires r.length >= 0 && forall q :: q in done ==> q.start <= r.start
    ensures var s, t := StartAfter(done), StartAfter(done + [r]);
            var gap := r.start - s;
            if r.End() < s || gap > DEFAULT_RANGE_LEN then
              t == s && (HasInside(done + [r], t) <==> HasInside(done, s))
            else if 0 < gap && gap + r.length < DEFAULT_RANGE_LEN then
              t == s && (HasInside(done + [r], t) <==> HasInside(done, s) || r.length > 0)
            else t == r.End() && !HasInside(done + [r], t)
  {
    var more := done + [r];
    assert more[..|done|] == done && more[|done|] == r;
    assert forall q :: q in more <==> q in done || q == r;
    if HasInside(done, StartAfter(done)) {
      var q :| q in done && q.length > 0 && Inside(q, StartAfter(done));
      assert q in more;
    }
  }

  /** So the block found is free exactly when the walk over the sorted list says so beforehand. */
  lemma BlockFreeBeforehandIff(ranges: seq<Range>)
    requires WellFormed(ranges)
    ensures BlockIsFree(ranges) <==> NothingHidden(ranges, DEFAULT_RANGE_START, false)
  {
    BlockFreeIff(ranges);
    assert [] + ranges == ranges && StartAfter([]) == DEFAULT_RANGE_START && !HasInside([], DEFAULT_RANGE_START);
    hide StartAfter, Inside;
    NothingHiddenIff([], ranges);
  }
}
