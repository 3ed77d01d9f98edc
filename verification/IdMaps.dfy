/** User-namespace id maps, built from subordinate id ranges. */
module IdMaps {
  import opened Wrappers

  /** subIDRange: the ids from `start` on, `length` of them. */
  datatype Range = Range(start: int, length: int) {
    function End(): int {
      start + length
    }

    predicate Has(id: int) {
      start <= id < start + length
    }
  }

  datatype IDMap = IDMap(containerID: int, hostID: int, size: int)

  ghost predicate NotNegative(ranges: seq<Range>) {
    forall r :: r in ranges ==> r.length >= 0
  }

  /** No id is in two of them. */
  ghost predicate Disjoint(ranges: multiset<Range>) {
    && (forall r :: r in ranges && r.length > 0 ==> ranges[r] == 1)
    && (forall r, q :: r in ranges && q in ranges && r != q && r.length > 0 && q.length > 0 ==>
          r.End() <= q.start || q.End() <= r.start)
  }

  function Total(ranges: seq<Range>): int {
    if ranges == [] then 0 else ranges[0].length + Total(ranges[1..])
  }

  // ----- building a map

  ghost predicate SortedByStart(ranges: seq<Range>) {
    forall i, j :: 0 <= i < j < |ranges| ==> ranges[i].start <= ranges[j].start
  }

  /** sort.Sort: by start; its result for equal starts is not fixed. */
  method SortRanges(ranges: seq<Range>) returns (sorted: seq<Range>)
    ensures SortedByStart(sorted) && multiset(sorted) == multiset(ranges)
  {
    sorted := [];
    for i := 0 to |ranges|
      invariant SortedByStart(sorted) && multiset(sorted) == multiset(ranges[..i])
    {
      hide SortedByStart;
      sorted := InsertByStart(sorted, ranges[i]);
      assert ranges[..i + 1] == ranges[..i] + [ranges[i]];
    }
    assert ranges[..|ranges|] == ranges;
  }

  method InsertByStart(sorted: seq<Range>, r: Range) returns (more: seq<Range>)
    requires SortedByStart(sorted)
    ensures SortedByStart(more) && multiset(more) == multiset(sorted) + multiset{r}
  {
    var at := |sorted|;
    while at > 0 && r.start < sorted[at - 1].start
      invariant 0 <= at <= |sorted|
      invariant forall k :: at <= k < |sorted| ==> r.start < sorted[k].start
    {
      at := at - 1;
    }
    more := sorted[..at] + [r] + sorted[at..];
    Inserted(sorted, at, r);
  }

  lemma Inserted(sorted: seq<Range>, at: nat, r: Range)
    requires SortedByStart(sorted) && at <= |sorted|
    requires at > 0 ==> sorted[at - 1].start <= r.start
    requires forall k :: at <= k < |sorted| ==> r.start < sorted[k].start
    ensures SortedByStart(sorted[..at] + [r] + sorted[at..])
    ensures multiset(sorted[..at] + [r] + sorted[at..]) == multiset(sorted) + multiset{r}
  {
    var left, right := sorted[..at], sorted[at..];
    assert sorted == left + right;
    InsertedSame(left, right, r);
    forall x | x in left ensures x.start <= r.start {
      var i :| 0 <= i < at && x == sorted[i];
      assert sorted[i].start <= sorted[at - 1].start;
    }
    Between(left, right, r);
  }

  lemma Between(left: seq<Range>, right: seq<Range>, r: Range)
    requires SortedByStart(left) && SortedByStart(right)
    requires (forall x :: x in left ==> x.start <= r.start) && forall x :: x in right ==> r.start <= x.start
    ensures SortedByStart(left + [r] + right)
  {
    var all := left + [r] + right;
    forall i, j | 0 <= i < j < |all| ensures all[i].start <= all[j].start {
      assert if i < |left| then all[i] in left else i == |left| || all[i] == right[i - |left| - 1];
      assert j > |left| ==> all[j] in right && all[j] == right[j - |left| - 1];
    }
  }

  lemma InsertedSame(a: seq<Range>, b: seq<Range>, r: Range)
    ensures multiset(a + [r] + b) == multiset(a + b) + multiset{r}
  {
  }

  /** One entry per range; the container's ids run on from `containerID` without a gap. */
  function IDMapOf(ranges: seq<Range>, containerID: int): seq<IDMap> {
    if ranges == [] then []
    else [IDMap(containerID, ranges[0].start, ranges[0].length)] + IDMapOf(ranges[1..], containerID + ranges[0].length)
  }

  lemma {:induction false} IDMapOfConcat(a: seq<Range>, b: seq<Range>, containerID: int)
    ensures IDMapOf(a + b, containerID) == IDMapOf(a, containerID) + IDMapOf(b, containerID + Total(a))
  {
    if a == [] {
      assert a + b == b;
    } else {
      assert (a + b)[1..] == a[1..] + b;
      IDMapOfConcat(a[1..], b, containerID + a[0].length);
    }
  }

  lemma {:induction false} TotalConcat(a: seq<Range>, b: seq<Range>)
    ensures Total(a + b) == Total(a) + Total(b)
  {
    if a == [] {
      assert a + b == b;
    } else {
      assert (a + b)[1..] == a[1..] + b;
      TotalConcat(a[1..], b);
    }
  }

  /** The entries are the ranges in the order of their starts. */
  ghost predicate MapFrom(idMap: seq<IDMap>, ranges: seq<Range>) {
    exists sorted :: SortedByStart(sorted) && multiset(sorted) == multiset(ranges) && idMap == IDMapOf(sorted, 0)
  }

  method CreateIDMap(subidRanges: seq<Range>) returns (idMap: seq<IDMap>)
    ensures MapFrom(idMap, subidRanges)
  {
    idMap := [];
    var ranges := SortRanges(subidRanges);
    var containerID := 0;
    for i := 0 to |ranges|
      invariant idMap == IDMapOf(ranges[..i], 0) && containerID == Total(ranges[..i])
    {
      idMap := idMap + [IDMap(containerID, ranges[i].start, ranges[i].length)];
      IDMapOfConcat(ranges[..i], [ranges[i]], 0);
      TotalConcat(ranges[..i], [ranges[i]]);
      assert ranges[..i + 1] == ranges[..i] + [ranges[i]] && [ranges[i]][1..] == [];
      containerID := containerID + ranges[i].length;
    }
    assert ranges[..|ranges|] == ranges;
  }

  // ----- looking ids up

  /** toHost in a map that is there: the first entry that has the id decides. */
  function HostOf(contID: int, idMap: seq<IDMap>): Option<int> {
    if idMap == [] then None
    else
      var m := idMap[0];
      if m.containerID <= contID <= m.containerID + m.size - 1 then Some(m.hostID + (contID - m.containerID))
      else HostOf(contID, idMap[1..])
  }

  function ContainerOf(hostID: int, idMap: seq<IDMap>): Option<int> {
    if idMap == [] then None
    else
      var m := idMap[0];
      if m.hostID <= hostID <= m.hostID + m.size - 1 then Some(m.containerID + (hostID - m.hostID))
      else ContainerOf(hostID, idMap[1..])
  }

  method ToHost(contID: int, idMap: Option<seq<IDMap>>) returns (r: Option<int>)
    ensures r == if idMap.None? then Some(contID) else HostOf(contID, idMap.value)
  {
    if idMap.None? {
      return Some(contID);
    }
    for i := 0 to |idMap.value|
      invariant HostOf(contID, idMap.value) == HostOf(contID, idMap.value[i..])
    {
      var m := idMap.value[i];
      assert idMap.value[i..][1..] == idMap.value[i + 1..];
      if contID >= m.containerID && contID <= m.containerID + m.size - 1 {
        return Some(m.hostID + (contID - m.containerID));
      }
    }
    r := None;
  }

  method ToContainer(hostID: int, idMap: Option<seq<IDMap>>) returns (r: Option<int>)
    ensures r == if idMap.None? then Some(hostID) else ContainerOf(hostID, idMap.value)
  {
    if idMap.None? {
      return Some(hostID);
    }
    for i := 0 to |idMap.value|
      invariant ContainerOf(hostID, idMap.value) == ContainerOf(hostID, idMap.value[i..])
    {
      var m := idMap.value[i];
      assert idMap.value[i..][1..] == idMap.value[i + 1..];
      if hostID >= m.hostID && hostID <= m.hostID + m.size - 1 {
        return Some(m.containerID + (hostID - m.hostID));
      }
    }
    r := None;
  }

  // ----- what a created map does

  lemma {:induction false} TotalNotNegative(ranges: seq<Range>)
    requires NotNegative(ranges)
    ensures Total(ranges) >= 0
  {
    if ranges != [] {
      TotalNotNegative(ranges[1..]);
    }
  }

  lemma {:induction false} HostDomain(ranges: seq<Range>, from: int, id: int)
    requires NotNegative(ranges)
    ensures HostOf(id, IDMapOf(ranges, from)).Some? <==> from <= id < from + Total(ranges)
    decreases |ranges|
  {
    if ranges != [] {
      TotalNotNegative(ranges[1..]);
      HostDomain(ranges[1..], from + ranges[0].length, id);
      assert IDMapOf(ranges, from)[1..] == IDMapOf(ranges[1..], from + ranges[0].length);
    }
  }

  lemma {:induction false} ContainerDomain(ranges: seq<Range>, from: int, host: int)
    ensures ContainerOf(host, IDMapOf(ranges, from)).Some? <==> exists r :: r in ranges && r.Has(host)
    decreases |ranges|
  {
    if ranges != [] {
      ContainerDomain(ranges[1..], from + ranges[0].length, host);
      assert IDMapOf(ranges, from)[1..] == IDMapOf(ranges[1..], from + ranges[0].length);
      FirstOrRest(ranges, host);
    }
  }

  lemma FirstOrRest(ranges: seq<Range>, id: int)
    requires ranges != []
    ensures (exists r :: r in ranges && r.Has(id)) <==> ranges[0].Has(id) || exists r :: r in ranges[1..] && r.Has(id)
  {
    hide Range.Has;
    assert ranges == [ranges[0]] + ranges[1..];
    assert forall r :: r in ranges <==> r == ranges[0] || r in ranges[1..];
  }

  lemma DisjointRest(ranges: seq<Range>)
    requires ranges != [] && NotNegative(ranges) && Disjoint(multiset(ranges))
    ensures NotNegative(ranges[1..]) && Disjoint(multiset(ranges[1..]))
    ensures forall q, id :: q in ranges[1..] && q.Has(id) ==> !ranges[0].Has(id)
  {
    var first, rest := ranges[0], ranges[1..];
    assert ranges == [first] + rest;
    assert multiset(ranges) == multiset{first} + multiset(rest);
    forall q, id | q in rest && q.Has(id) ensures !first.Has(id) {
      assert q in multiset(rest);
      assert multiset(ranges)[q] >= multiset(rest)[q];
    }
  }

  /** Undoing toHost: no two ids of the container share an id of the host. */
  lemma {:induction false} BackFromHost(ranges: seq<Range>, from: int, id: int)
    requires NotNegative(ranges) && Disjoint(multiset(ranges))
    requires HostOf(id, IDMapOf(ranges, from)).Some?
    ensures ContainerOf(HostOf(id, IDMapOf(ranges, from)).value, IDMapOf(ranges, from)) == Some(id)
    decreases |ranges|
  {
    var all, rest := IDMapOf(ranges, from), IDMapOf(ranges[1..], from + ranges[0].length);
    assert all[0] == IDMap(from, ranges[0].start, ranges[0].length) && all[1..] == rest;
    hide IDMapOf, Disjoint, NotNegative;
    if !(from <= id < from + ranges[0].length) {
      RestOk(ranges);
      BackFromHost(ranges[1..], from + ranges[0].length, id);
      ContainerDomain(ranges[1..], from + ranges[0].length, HostOf(id, rest).value);
      NotInFirst(ranges, HostOf(id, rest).value);
    }
  }

  lemma RestOk(ranges: seq<Range>)
    requires ranges != [] && NotNegative(ranges) && Disjoint(multiset(ranges))
    ensures NotNegative(ranges[1..]) && Disjoint(multiset(ranges[1..]))
  {
    DisjointRest(ranges);
  }

  lemma NotInFirst(ranges: seq<Range>, id: int)
    requires ranges != [] && NotNegative(ranges) && Disjoint(multiset(ranges))
    requires exists q :: q in ranges[1..] && q.Has(id)
    ensures !(ranges[0].start <= id < ranges[0].start + ranges[0].length)
  {
    DisjointRest(ranges);
  }

  lemma {:induction false} BackFromContainer(ranges: seq<Range>, from: int, host: int)
    requires NotNegative(ranges)
    requires ContainerOf(host, IDMapOf(ranges, from)).Some?
    ensures HostOf(ContainerOf(host, IDMapOf(ranges, from)).value, IDMapOf(ranges, from)) == Some(host)
    decreases |ranges|
  {
    var rest := IDMapOf(ranges[1..], from + ranges[0].length);
    assert IDMapOf(ranges, from)[1..] == rest;
    if !ranges[0].Has(host) {
      BackFromContainer(ranges[1..], from + ranges[0].length, host);
      HostDomain(ranges[1..], from + ranges[0].length, ContainerOf(host, rest).value);
    }
  }

  lemma {:induction false} TotalOfPermutation(a: seq<Range>, b: seq<Range>)
    requires multiset(a) == multiset(b)
    ensures Total(a) == Total(b)
    decreases |a|
  {
    hide Total;
    if a != [] {
      assert a[0] in multiset(b);
      var restA := WithoutOne(a, a[0]);
      var restB := WithoutOne(b, a[0]);
      TotalOfPermutation(restA, restB);
    } else {
      assert |multiset(b)| == 0 && b == [];
    }
  }

  lemma WithoutOne(b: seq<Range>, r: Range) returns (rest: seq<Range>)
    requires r in b
    ensures |rest| == |b| - 1 && multiset(rest) == multiset(b) - multiset{r}
    ensures Total(b) == r.length + Total(rest)
  {
    hide Total;
    var i :| 0 <= i < |b| && b[i] == r;
    var x, y := b[..i], b[i + 1..];
    rest := x + y;
    assert b == x + [r] + y by {
      assert b[i..] == [r] + y;
    }
    InsertedSame(x, y, r);
    TotalWithout(x, y, r);
    assert x + ([r] + y) == b;
  }

  lemma TotalWithout(a: seq<Range>, b: seq<Range>, r: Range)
    ensures Total(a + ([r] + b)) == r.length + Total(a + b)
  {
    TotalConcat(a, [r] + b);
    TotalConcat(a, b);
    assert ([r] + b)[1..] == b;
  }

  /** A map as createIDMap makes it from disjoint ranges. */
  ghost predicate Created(idMap: seq<IDMap>, ranges: seq<Range>) {
    NotNegative(ranges) && Disjoint(multiset(ranges)) && MapFrom(idMap, ranges)
  }

  /** The container's ids are 0 up to the number of ids in the ranges, the host's are those in the
      ranges, and the two translations are each other's inverse. */
  lemma CreatedMap(idMap: seq<IDMap>, ranges: seq<Range>, id: int)
    requires Created(idMap, ranges)
    ensures HostOf(id, idMap).Some? <==> 0 <= id < Total(ranges)
    ensures ContainerOf(id, idMap).Some? <==> exists r :: r in ranges && r.Has(id)
    ensures HostOf(id, idMap).Some? ==> ContainerOf(HostOf(id, idMap).value, idMap) == Some(id)
    ensures ContainerOf(id, idMap).Some? ==> HostOf(ContainerOf(id, idMap).value, idMap) == Some(id)
  {
    var sorted :| SortedByStart(sorted) && multiset(sorted) == multiset(ranges) && idMap == IDMapOf(sorted, 0);
    assert forall r :: r in sorted <==> r in multiset(sorted);
    assert forall r :: r in ranges <==> r in multiset(ranges);
    TotalOfPermutation(sorted, ranges);
    HostDomain(sorted, 0, id);
    ContainerDomain(sorted, 0, id);
    if HostOf(id, idMap).Some? {
      BackFromHost(sorted, 0, id);
    }
    if ContainerOf(id, idMap).Some? {
      BackFromContainer(sorted, 0, id);
    }
  }

  // ----- pairs of ids

  datatype IDPair = IDPair(uid: int, gid: int)

  /** An absent map is the identity. */
  function Host(id: int, idMap: Option<seq<IDMap>>): Option<int> {
    if idMap.None? then Some(id) else HostOf(id, idMap.value)
  }

  function Container(id: int, idMap: Option<seq<IDMap>>): Option<int> {
    if idMap.None? then Some(id) else ContainerOf(id, idMap.value)
  }

  datatype IDMappings = IDMappings(uids: Option<seq<IDMap>>, gids: Option<seq<IDMap>>) {
    /** Where root is on the host; -1 for both when either has no place. */
    function RootPair(): IDPair {
      match (Host(0, uids), Host(0, gids))
      case (Some(uid), Some(gid)) => IDPair(uid, gid)
      case _ => IDPair(-1, -1)
    }

    /** Ids that are already root's on the host are left alone. */
    function ToHost(pair: IDPair): Option<IDPair> {
      var root := RootPair();
      var uid := if pair.uid != root.uid then Host(pair.uid, uids) else Some(root.uid);
      var gid := if pair.gid != root.gid then Host(pair.gid, gids) else Some(root.gid);
      if uid.Some? && gid.Some? then Some(IDPair(uid.value, gid.value)) else None
    }

    function ToContainer(pair: IDPair): Option<IDPair> {
      match (Container(pair.uid, uids), Container(pair.gid, gids))
      case (Some(uid), Some(gid)) => Some(IDPair(uid, gid))
      case _ => None
    }
  }

  ghost predicate Proper(idMap: Option<seq<IDMap>>) {
    idMap.Some? ==> exists ranges :: Created(idMap.value, ranges)
  }

  lemma OneBack(idMap: Option<seq<IDMap>>, id: int)
    requires Proper(idMap)
    ensures Host(id, idMap).Some? ==> Container(Host(id, idMap).value, idMap) == Some(id)
    ensures idMap.Some? && Container(id, idMap).Some? ==> Container(id, idMap).value >= 0
  {
    if idMap.Some? {
      var ranges :| Created(idMap.value, ranges);
      CreatedMap(idMap.value, ranges, id);
      if Container(id, idMap).Some? {
        CreatedMap(idMap.value, ranges, Container(id, idMap).value);
      }
    }
  }

  /** ToContainer undoes ToHost exactly for pairs whose ids are not root's ids on the host, unless
      those are 0: other ids equal to them are taken for root. */
  lemma ToContainerUndoesToHostIff(m: IDMappings, pair: IDPair)
    requires Proper(m.uids) && Proper(m.gids)
    requires m.ToHost(pair).Some?
    ensures m.ToContainer(m.ToHost(pair).value) == Some(pair)
       <==> (pair.uid == m.RootPair().uid ==> pair.uid == 0) && (pair.gid == m.RootPair().gid ==> pair.gid == 0)
  {
    hide Proper, HostOf, ContainerOf;
    OneBack(m.uids, pair.uid);
    OneBack(m.gids, pair.gid);
    OneBack(m.uids, 0);
    OneBack(m.gids, 0);
    OneBack(m.uids, -1);
    OneBack(m.gids, -1);
    NoRoot(m.uids, pair.uid);
    NoRoot(m.gids, pair.gid);
  }

  /** A map without a place for root has no place for anybody. */
  lemma NoRoot(idMap: Option<seq<IDMap>>, id: int)
    requires Proper(idMap)
    ensures Host(0, idMap).None? ==> Host(id, idMap).None?
  {
    if idMap.Some? {
      var ranges :| Created(idMap.value, ranges);
      CreatedMap(idMap.value, ranges, id);
      CreatedMap(idMap.value, ranges, 0);
    }
  }

  /** With root at 100 on the host, container id 100 is taken for root, and comes back as 0. */
  lemma TakenForRootExample()
    ensures var idMap := [IDMap(0, 100, 1000)];
            var m := IDMappings(Some(idMap), Some(idMap));
            && Proper(Some(idMap)) && m.RootPair() == IDPair(100, 100)
            && Host(100, Some(idMap)) == Some(200)
            && m.ToHost(IDPair(100, 7)) == Some(IDPair(100, 107))
            && m.ToContainer(IDPair(100, 107)) == Some(IDPair(0, 7))
  {
    hide Proper;
    var idMap := [IDMap(0, 100, 1000)];
    OneRange(Range(100, 1000));
    assert idMap[0] == IDMap(0, 100, 1000);
  }

  lemma OneRange(r: Range)
    requires r.length >= 0
    ensures Proper(Some([IDMap(0, r.start, r.length)]))
  {
    var idMap, ranges := [IDMap(0, r.start, r.length)], [r];
    assert ranges[1..] == [] && IDMapOf(ranges, 0) == idMap + [] == idMap;
    OneDisjoint(r);
    assert MapFrom(idMap, ranges);
    hide MapFrom;
    assert Created(idMap, ranges);
  }

  lemma OneDisjoint(r: Range)
    ensures Disjoint(multiset([r])) && SortedByStart([r])
  {
  }
}
