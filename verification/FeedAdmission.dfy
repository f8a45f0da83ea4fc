/**
 The one-pass feed classifier of internal/feed/admission.go and the bounded deduplication of
 internal/feed/parse.go.  The input is the stream of parsed indicators; reading and normalising feed
 text is not part of this model.
 */
module FeedAdmission {
  import opened Text

  // `resource` identifies the URL resource of a path-scoped indicator.
  datatype Indicator = Indicator(domain: string, url: bool, pathScoped: bool, resource: string)

  datatype Mode = Legacy | Shadow | Filter

  const UNBOUNDED := -1

  // A cap that is not positive means none.
  function Cap(limit: int): int {
    if limit <= 0 then UNBOUNDED else limit
  }

  predicate Room(limit: int, n: nat) {
    Cap(limit) < 0 || n < Cap(limit)
  }

  /* ---------- Which domains are tracked ---------- */

  // The distinct domains a set with this cap keeps: those that find room when they first appear.
  function Track(stream: seq<Indicator>, limit: int): set<string> {
    if stream == [] then {}
    else
      var before := Track(stream[..|stream| - 1], limit);
      if Room(limit, |before|) then before + {stream[|stream| - 1].domain} else before
  }

  // How many indicators found the set full.
  function Overflow(stream: seq<Indicator>, limit: int): nat {
    if stream == [] then 0
    else
      var before := Track(stream[..|stream| - 1], limit);
      Overflow(stream[..|stream| - 1], limit)
      + if stream[|stream| - 1].domain !in before && !Room(limit, |before|) then 1 else 0
  }

  predicate Occurs(stream: seq<Indicator>, d: string) {
    exists i :: 0 <= i < |stream| && stream[i].domain == d
  }

  // The occurrences of domains outside a set.
  function Missing(stream: seq<Indicator>, kept: set<string>): nat {
    if stream == [] then 0
    else Missing(stream[..|stream| - 1], kept) + if stream[|stream| - 1].domain in kept then 0 else 1
  }

  lemma TrackStep(stream: seq<Indicator>, i: nat, limit: int)
    requires i < |stream|
    ensures var (before, d) := (Track(stream[..i], limit), stream[i].domain);
            && Track(stream[..i + 1], limit) == (if Room(limit, |before|) then before + {d} else before)
            && Overflow(stream[..i + 1], limit)
               == Overflow(stream[..i], limit) + if d !in before && !Room(limit, |before|) then 1 else 0
  {
    assert stream[..i + 1][..i] == stream[..i];
  }

  lemma {:induction false} TrackGrows(stream: seq<Indicator>, i: nat, j: nat, limit: int)
    requires i <= j <= |stream|
    ensures Track(stream[..i], limit) <= Track(stream[..j], limit)
    ensures !Room(limit, |Track(stream[..i], limit)|) ==> Track(stream[..j], limit) == Track(stream[..i], limit)
    decreases j
  {
    hide Track, Overflow, Room;
    if i < j {
      TrackGrows(stream, i, j - 1, limit);
      TrackStep(stream, j - 1, limit);
    }
  }

  lemma {:induction false} TrackedOccur(stream: seq<Indicator>, limit: int)
    ensures forall d :: d in Track(stream, limit) ==> Occurs(stream, d)
    ensures Cap(limit) >= 0 ==> |Track(stream, limit)| <= Cap(limit)
  {
    if stream != [] {
      var n := |stream| - 1;
      TrackedOccur(stream[..n], limit);
      forall d | d in Track(stream, limit)
        ensures Occurs(stream, d)
      {
        if d in Track(stream[..n], limit) {
          assert Occurs(stream[..n], d);
        } else {
          assert stream[n].domain == d;
        }
      }
    }
  }

  // A domain is tracked exactly when the set still has room at its first appearance; an unbounded
  // set tracks every domain.
  lemma TrackedExactly(stream: seq<Indicator>, limit: int, i: nat)
    requires i < |stream| && !Occurs(stream[..i], stream[i].domain)
    ensures stream[i].domain in Track(stream, limit) <==> Room(limit, |Track(stream[..i], limit)|)
  {
    hide Track, Room, Overflow;
    assert stream[..|stream|] == stream;
    TrackStep(stream, i, limit);
    TrackedOccur(stream[..i], limit);
    TrackGrows(stream, i + 1, |stream|, limit);
    TrackGrows(stream, i, |stream|, limit);
  }

  lemma {:induction false} FirstOccurrence(stream: seq<Indicator>, d: string) returns (i: nat)
    requires Occurs(stream, d)
    ensures i < |stream| && stream[i].domain == d && !Occurs(stream[..i], d)
  {
    var n := |stream| - 1;
    if Occurs(stream[..n], d) {
      i := FirstOccurrence(stream[..n], d);
      assert stream[..n][..i] == stream[..i];
    } else {
      i := n;
    }
  }

  lemma UnboundedTracksAll(stream: seq<Indicator>, limit: int)
    requires limit <= 0
    ensures forall d :: d in Track(stream, limit) <==> Occurs(stream, d)
  {
    hide Track;
    TrackedOccur(stream, limit);
    forall d | Occurs(stream, d)
      ensures d in Track(stream, limit)
    {
      var i := FirstOccurrence(stream, d);
      TrackedExactly(stream, limit, i);
    }
  }

  // The overflow counter counts occurrences, not distinct domains.
  lemma OverflowCountsOccurrences(stream: seq<Indicator>, limit: int)
    ensures Overflow(stream, limit) == Missing(stream, Track(stream, limit))
  {
    assert stream[..|stream|] == stream;
    OverflowUpTo(stream, limit, |stream|);
  }

  lemma {:induction false} OverflowUpTo(stream: seq<Indicator>, limit: int, n: nat)
    requires n <= |stream|
    ensures Overflow(stream[..n], limit) == Missing(stream[..n], Track(stream, limit))
  {
    hide Track, Room;
    if n > 0 {
      var i := n - 1;
      OverflowUpTo(stream, limit, i);
      TrackStep(stream, i, limit);
      assert stream[..n][..i] == stream[..i];
      assert stream[..|stream|] == stream;
      TrackGrows(stream, n, |stream|, limit);
      TrackGrows(stream, i, |stream|, limit);
    }
  }

  /* ---------- What one pass remembers of a host ---------- */

  datatype HostState = HostState(authoritative: bool, urlSeen: bool, pathScoped: bool, first: Option<string>,
                                 corroborated: bool)

  const FRESH := HostState(false, false, false, None, false)

  // Whether an address is an IP literal is a parameter.
  predicate Whole(ip: string -> bool, mode: Mode, x: Indicator) {
    mode == Legacy || !x.url || !x.pathScoped || ip(x.domain)
  }

  // The handler's update of a tracked host.
  function Update(ip: string -> bool, mode: Mode, h: HostState, x: Indicator): HostState {
    var h1 := if x.url then h.(urlSeen := true, pathScoped := h.pathScoped || x.pathScoped) else h;
    if Whole(ip, mode, x) then h1.(authoritative := true)
    else if h1.first == None then h1.(first := Some(x.resource))
    else if Some(x.resource) != h1.first then h1.(authoritative := true, corroborated := true)
    else h1
  }

  function Summary(ip: string -> bool, mode: Mode, stream: seq<Indicator>, d: string): HostState {
    if stream == [] then FRESH
    else
      var (h, x) := (Summary(ip, mode, stream[..|stream| - 1], d), stream[|stream| - 1]);
      if x.domain == d then Update(ip, mode, h, x) else h
  }

  /* ---------- What it means ---------- */

  // A URL resource below the host.
  predicate Scoped(ip: string -> bool, mode: Mode, x: Indicator, d: string) {
    x.domain == d && !Whole(ip, mode, x)
  }

  predicate WholeSeen(ip: string -> bool, mode: Mode, stream: seq<Indicator>, d: string) {
    exists x :: x in stream && x.domain == d && Whole(ip, mode, x)
  }

  ghost predicate TwoResources(ip: string -> bool, mode: Mode, stream: seq<Indicator>, d: string) {
    exists x, y :: x in stream && y in stream && Scoped(ip, mode, x, d) && Scoped(ip, mode, y, d)
                && x.resource != y.resource
  }

  // Authoritative: whole-domain evidence, or two different resources of the host.
  ghost predicate Trusted(ip: string -> bool, mode: Mode, stream: seq<Indicator>, d: string) {
    WholeSeen(ip, mode, stream, d) || TwoResources(ip, mode, stream, d)
  }

  predicate UrlSeen(stream: seq<Indicator>, d: string) {
    exists x :: x in stream && x.domain == d && x.url
  }

  predicate PathSeen(stream: seq<Indicator>, d: string) {
    exists x :: x in stream && x.domain == d && x.url && x.pathScoped
  }

  // Some other resource of the host was seen.
  ghost predicate Other(ip: string -> bool, mode: Mode, stream: seq<Indicator>, d: string, resource: string) {
    exists y :: y in stream && Scoped(ip, mode, y, d) && y.resource != resource
  }

  ghost predicate Remembers(ip: string -> bool, mode: Mode, stream: seq<Indicator>, d: string, first: Option<string>) {
    match first
    case None => forall x :: x in stream ==> !Scoped(ip, mode, x, d)
    case Some(r) => exists x :: x in stream && Scoped(ip, mode, x, d) && x.resource == r
  }

  lemma SeenStep(ip: string -> bool, mode: Mode, stream: seq<Indicator>, x: Indicator, d: string)
    ensures WholeSeen(ip, mode, stream + [x], d)
       <==> WholeSeen(ip, mode, stream, d) || (x.domain == d && Whole(ip, mode, x))
    ensures UrlSeen(stream + [x], d) <==> UrlSeen(stream, d) || (x.domain == d && x.url)
    ensures PathSeen(stream + [x], d) <==> PathSeen(stream, d) || (x.domain == d && x.url && x.pathScoped)
  {
    hide Whole;
    assert forall y :: y in stream + [x] <==> y in stream || y == x;
  }

  lemma TwoStep(ip: string -> bool, mode: Mode, stream: seq<Indicator>, x: Indicator, d: string)
    ensures TwoResources(ip, mode, stream + [x], d)
       <==> TwoResources(ip, mode, stream, d) || (Scoped(ip, mode, x, d) && Other(ip, mode, stream, d, x.resource))
  {
    hide Scoped;
    assert forall y :: y in stream + [x] <==> y in stream || y == x;
  }

  // The remembered resource tells whether there is another one.
  lemma RememberedDecides(ip: string -> bool, mode: Mode, stream: seq<Indicator>, d: string, first: Option<string>,
                          resource: string)
    requires Remembers(ip, mode, stream, d, first)
    ensures first == None ==> !Other(ip, mode, stream, d, resource) && !TwoResources(ip, mode, stream, d)
    ensures first.Some? && first.value != resource ==> Other(ip, mode, stream, d, resource)
    ensures first == Some(resource) ==> (Other(ip, mode, stream, d, resource) <==> TwoResources(ip, mode, stream, d))
  {
    hide Scoped;
  }

  lemma RememberStep(ip: string -> bool, mode: Mode, stream: seq<Indicator>, x: Indicator, d: string, first: Option<string>)
    requires Remembers(ip, mode, stream, d, first)
    ensures !Scoped(ip, mode, x, d) || first.Some? ==> Remembers(ip, mode, stream + [x], d, first)
    ensures Scoped(ip, mode, x, d) && first == None ==> Remembers(ip, mode, stream + [x], d, Some(x.resource))
  {
    hide Scoped;
    assert forall y :: y in stream + [x] <==> y in stream || y == x;
  }

  // One remembered resource is enough to tell whether there are two.
  lemma {:induction false} SummaryMeans(ip: string -> bool, mode: Mode, stream: seq<Indicator>, d: string)
    ensures var h := Summary(ip, mode, stream, d);
            && (h.authoritative <==> Trusted(ip, mode, stream, d))
            && (h.corroborated <==> TwoResources(ip, mode, stream, d))
            && (h.urlSeen <==> UrlSeen(stream, d)) && (h.pathScoped <==> PathSeen(stream, d))
            && Remembers(ip, mode, stream, d, h.first)
  {
    hide Whole, WholeSeen, TwoResources, UrlSeen, PathSeen, Other;
    if stream != [] {
      var (s, x) := (stream[..|stream| - 1], stream[|stream| - 1]);
      SummaryMeans(ip, mode, s, d);
      assert stream == s + [x];
      var h := Summary(ip, mode, s, d);
      SeenStep(ip, mode, s, x, d);
      TwoStep(ip, mode, s, x, d);
      RememberedDecides(ip, mode, s, d, h.first, x.resource);
      RememberStep(ip, mode, s, x, d, h.first);
    } else {
      NothingSeen(ip, mode, d);
    }
  }

  lemma NothingSeen(ip: string -> bool, mode: Mode, d: string)
    ensures !WholeSeen(ip, mode, [], d) && !TwoResources(ip, mode, [], d) && !UrlSeen([], d) && !PathSeen([], d)
  {
  }

  lemma {:induction false} UnseenIsFresh(ip: string -> bool, mode: Mode, stream: seq<Indicator>, d: string)
    requires !Occurs(stream, d)
    ensures Summary(ip, mode, stream, d) == FRESH
  {
    if stream != [] {
      assert stream[|stream| - 1].domain != d;
      assert forall i :: 0 <= i < |stream| - 1 ==> stream[..|stream| - 1][i] == stream[i];
      UnseenIsFresh(ip, mode, stream[..|stream| - 1], d);
    }
  }

  // A domain that occurred without being tracked found the set full, and it stays full.
  lemma UntrackedMeansFull(stream: seq<Indicator>, limit: int, d: string)
    requires Occurs(stream, d) && d !in Track(stream, limit)
    ensures !Room(limit, |Track(stream, limit)|)
  {
    hide Track, Room;
    var i := FirstOccurrence(stream, d);
    TrackedExactly(stream, limit, i);
    assert stream[..|stream|] == stream;
    TrackGrows(stream, i, |stream|, limit);
  }

  /* ---------- Bounded deduplication ---------- */

  // boundedSeenSet
  class BoundedSeenSet {
    var entries: set<string>
    const limit: int
    var overflowed: nat

    // The configured cap, and the indicators marked so far.
    ghost const max: int
    ghost var marked: seq<Indicator>

    ghost predicate Valid()
      reads this
    {
      limit == Cap(max) && entries == Track(marked, max) && overflowed == Overflow(marked, max)
    }

    constructor (max: int)
      ensures Valid() && marked == [] && this.max == max
    {
      this.max, entries, overflowed, marked := max, {}, 0, [];
      limit := if max <= 0 then UNBOUNDED else max;
    }

    // mark, for the domain of an indicator.
    method Mark(x: Indicator) returns (duplicate: bool)
      requires Valid()
      modifies this
      ensures Valid() && marked == old(marked) + [x]
      ensures !duplicate <==> x.domain !in old(entries) && Room(max, |old(entries)|)
      ensures entries == if duplicate then old(entries) else old(entries) + {x.domain}
      ensures overflowed == old(overflowed) + if duplicate && x.domain !in old(entries) then 1 else 0
    {
      ghost var before := marked;
      marked := marked + [x];
      assert marked[..|before|] == before;
      if x.domain in entries {
        return true;
      }
      if limit >= 0 && |entries| >= limit {
        overflowed := overflowed + 1;
        return true;
      }
      entries := entries + {x.domain};
      return false;
    }
  }

  datatype ParseStats = ParseStats(valid: nat, duplicates: nat, truncated: nat)

  // What the counters say after a stream.
  ghost predicate Counts(stats: ParseStats, stream: seq<Indicator>, limit: int) {
    && stats.valid == |Track(stream, limit)| && stats.valid + stats.duplicates == |stream|
    && stats.truncated == Missing(stream, Track(stream, limit))
  }

  // The domains ParseEach hands on, in order of first appearance.
  function Delivered(stream: seq<Indicator>, limit: int): seq<string> {
    if stream == [] then []
    else
      var (s, d) := (stream[..|stream| - 1], stream[|stream| - 1].domain);
      Delivered(s, limit) + if d !in Track(s, limit) && Room(limit, |Track(s, limit)|) then [d] else []
  }

  // Each tracked domain once; a domain past the cap is dropped.
  lemma {:induction false} DeliveredAre(stream: seq<Indicator>, limit: int)
    ensures forall d :: d in Delivered(stream, limit) <==> d in Track(stream, limit)
    ensures |Delivered(stream, limit)| == |Track(stream, limit)|
  {
    if stream != [] {
      var (before, d) := (Track(stream[..|stream| - 1], limit), stream[|stream| - 1].domain);
      DeliveredAre(stream[..|stream| - 1], limit);
      assert d in before ==> before + {d} == before;
    }
  }

  // Where a domain occurs for the first time.
  ghost predicate FirstAt(stream: seq<Indicator>, d: string, i: nat) {
    i < |stream| && stream[i].domain == d && forall j :: 0 <= j < i ==> stream[j].domain != d
  }

  // The kept domains come in the order in which they first appear in the feed.
  lemma {:induction false} DeliveredInOrder(stream: seq<Indicator>, limit: int, a: nat, b: nat) returns (i: nat, j: nat)
    requires a < b < |Delivered(stream, limit)|
    ensures FirstAt(stream, Delivered(stream, limit)[a], i) && FirstAt(stream, Delivered(stream, limit)[b], j) && i < j
  {
    hide Track, Room;
    var s := stream[..|stream| - 1];
    if b < |Delivered(s, limit)| {
      i, j := DeliveredInOrder(s, limit, a, b);
    } else {
      var d := stream[|stream| - 1].domain;
      i := DeliveredOccurs(s, limit, a);
      if Occurs(s, d) {
        UntrackedMeansFull(s, limit, d);
      }
      j := |stream| - 1;
      assert forall k :: 0 <= k < j ==> s[k] == stream[k];
    }
  }

  lemma DeliveredOccurs(stream: seq<Indicator>, limit: int, a: nat) returns (i: nat)
    requires a < |Delivered(stream, limit)|
    ensures FirstAt(stream, Delivered(stream, limit)[a], i)
  {
    hide Track, Room;
    var d := Delivered(stream, limit)[a];
    DeliveredAre(stream, limit);
    assert d in Delivered(stream, limit);
    TrackedOccur(stream, limit);
    i := FirstOccurrence(stream, d);
  }

  lemma NothingTracked(limit: int)
    ensures Track([], limit) == {} && Overflow([], limit) == 0
  {
  }

  // ParseEach over addIndicator
  method ParseEach(stream: seq<Indicator>, limit: int) returns (delivered: seq<string>, stats: ParseStats)
    ensures delivered == Delivered(stream, limit) && Counts(stats, stream, limit)
  {
    hide Track, Overflow, Missing, Room;
    var seen := new BoundedSeenSet(limit);
    delivered := [];
    var valid: nat, duplicates: nat := 0, 0;
    assert stream[..0] == [];
    NothingTracked(limit);
    for i := 0 to |stream|
      invariant seen.Valid() && seen.max == limit && seen.marked == stream[..i] && fresh(seen)
      invariant delivered == Delivered(stream[..i], limit) && valid == |seen.entries| && valid + duplicates == i
    {
      assert stream[..i + 1] == stream[..i] + [stream[i]];
      var duplicate := seen.Mark(stream[i]);
      if duplicate {
        duplicates := duplicates + 1;
      } else {
        valid := valid + 1;
        delivered := delivered + [stream[i].domain];
      }
    }
    assert stream[..|stream|] == stream;
    OverflowCountsOccurrences(stream, limit);
    stats := ParseStats(valid, duplicates, seen.overflowed);
  }

  /* ---------- The plan ---------- */

  datatype AdmissionPlan = AdmissionPlan(authoritative: seq<string>, contextual: seq<string>, stats: ParseStats,
                                         unclassifiable: nat, urlHosts: nat, pathScopedHosts: nat, corroboratedHosts: nat)

  // What a plan says about a stream: `limit` caps the host states, `seenLimit` the parser's set.
  ghost predicate Describes(p: AdmissionPlan, ip: string -> bool, mode: Mode, stream: seq<Indicator>, limit: int,
                            seenLimit: int) {
    var hosts := Track(stream, limit);
    && Ascending(p.authoritative) && Ascending(p.contextual)
    && (forall d :: d in p.authoritative <==> d in hosts && Trusted(ip, mode, stream, d))
    && (forall d :: d in p.contextual <==> d in hosts && !Trusted(ip, mode, stream, d))
    && Counts(p.stats, stream, seenLimit) && p.unclassifiable == Missing(stream, hosts)
    && p.urlHosts == |set d | d in hosts && UrlSeen(stream, d)|
    && p.pathScopedHosts == |set d | d in hosts && PathSeen(stream, d)|
    && p.corroboratedHosts == |set d | d in hosts && TwoResources(ip, mode, stream, d)|
  }

  type States = map<string, HostState>

  // The states of the tracked hosts after a stream.
  ghost predicate Holds(states: States, ip: string -> bool, mode: Mode, stream: seq<Indicator>, limit: int) {
    states.Keys == Track(stream, limit) && forall d :: d in states ==> states[d] == Summary(ip, mode, stream, d)
  }

  lemma SummaryStep(ip: string -> bool, mode: Mode, stream: seq<Indicator>, x: Indicator, d: string)
    ensures Summary(ip, mode, stream + [x], d)
         == if x.domain == d then Update(ip, mode, Summary(ip, mode, stream, d), x) else Summary(ip, mode, stream, d)
  {
    hide Update;
    assert (stream + [x])[..|stream|] == stream;
  }

  // One run of the handler; `over` tells whether the host found no room.
  method Observe(states: States, ip: string -> bool, mode: Mode, limit: int, x: Indicator, ghost before: seq<Indicator>)
    returns (after: States, over: bool)
    requires Holds(states, ip, mode, before, limit)
    ensures Holds(after, ip, mode, before + [x], limit)
    ensures over <==> x.domain !in states && !Room(limit, |states.Keys|)
  {
    hide Holds, Update;
    var state := FRESH;
    if x.domain !in states {
      if Cap(limit) >= 0 && |states| >= Cap(limit) {
        HostRefused(states, ip, mode, before, limit, x);
        return states, true;
      }
    } else {
      state := states[x.domain];
    }
    HostUpdated(states, ip, mode, before, limit, x);
    after, over := states[x.domain := Update(ip, mode, state, x)], false;
  }

  lemma HostRefused(states: States, ip: string -> bool, mode: Mode, before: seq<Indicator>, limit: int, x: Indicator)
    requires Holds(states, ip, mode, before, limit) && x.domain !in states && !Room(limit, |states.Keys|)
    ensures Holds(states, ip, mode, before + [x], limit)
  {
    hide Track, Summary, Update, Room;
    SeenSoFar(before, x, limit);
    forall d | d in states
      ensures Summary(ip, mode, before + [x], d) == states[d]
    {
      SummaryStep(ip, mode, before, x, d);
    }
  }

  lemma HostUpdated(states: States, ip: string -> bool, mode: Mode, before: seq<Indicator>, limit: int, x: Indicator)
    requires Holds(states, ip, mode, before, limit) && (x.domain in states || Room(limit, |states.Keys|))
    ensures var state := if x.domain in states then states[x.domain] else FRESH;
            Holds(states[x.domain := Update(ip, mode, state, x)], ip, mode, before + [x], limit)
  {
    hide Track, Summary, Update, Room;
    SeenSoFar(before, x, limit);
    if x.domain !in states {
      NewIsFresh(ip, mode, before, limit, x.domain);
    }
    forall d | d in states || d == x.domain
      ensures Summary(ip, mode, before + [x], d)
           == if x.domain == d then Update(ip, mode, Summary(ip, mode, before, d), x) else Summary(ip, mode, before, d)
    {
      SummaryStep(ip, mode, before, x, d);
    }
  }

  lemma SeenSoFar(before: seq<Indicator>, x: Indicator, limit: int)
    ensures Track(before + [x], limit)
         == if Room(limit, |Track(before, limit)|) then Track(before, limit) + {x.domain} else Track(before, limit)
  {
    assert (before + [x])[..|before|] == before;
  }

  lemma NewIsFresh(ip: string -> bool, mode: Mode, before: seq<Indicator>, limit: int, d: string)
    requires d !in Track(before, limit) && Room(limit, |Track(before, limit)|)
    ensures Summary(ip, mode, before, d) == FRESH
  {
    hide Track, Room, Summary;
    if Occurs(before, d) {
      UntrackedMeansFull(before, limit, d);
    } else {
      UnseenIsFresh(ip, mode, before, d);
    }
  }

  /* ---------- planAdmissionWithLimit ---------- */

  predicate IsUrl(h: HostState) {
    h.urlSeen
  }

  predicate IsPathScoped(h: HostState) {
    h.pathScoped
  }

  predicate IsCorroborated(h: HostState) {
    h.corroborated
  }

  // The hosts among some with a property of their state.
  function Those(states: States, hosts: set<string>, p: HostState -> bool): set<string>
    requires hosts <= states.Keys
  {
    set d | d in hosts && p(states[d])
  }

  lemma OneMoreHost(states: States, hosts: set<string>, d: string, p: HostState -> bool)
    requires hosts <= states.Keys && d in states && d !in hosts
    ensures |Those(states, hosts + {d}, p)| == |Those(states, hosts, p)| + if p(states[d]) then 1 else 0
  {
    var (a, b) := (Those(states, hosts, p), Those(states, hosts + {d}, p));
    assert b == if p(states[d]) then a + {d} else a;
  }

  // The loops over the states that build the plan; appending and sorting is insertion here.
  method Classify(states: States) returns (authoritative: seq<string>, contextual: seq<string>,
                                           urlHosts: nat, pathScopedHosts: nat, corroboratedHosts: nat)
    ensures Ascending(authoritative) && forall d :: d in authoritative <==> d in states && states[d].authoritative
    ensures Ascending(contextual) && forall d :: d in contextual <==> d in states && !states[d].authoritative
    ensures urlHosts == |Those(states, states.Keys, IsUrl)|
    ensures pathScopedHosts == |Those(states, states.Keys, IsPathScoped)|
    ensures corroboratedHosts == |Those(states, states.Keys, IsCorroborated)|
  {
    hide Sorted, Insert, Those, IsUrl, IsPathScoped, IsCorroborated;
    NothingSorted(states);
    NoHosts(states);
    authoritative, contextual, urlHosts, pathScopedHosts, corroboratedHosts := [], [], 0, 0, 0;
    var todo := states.Keys;
    ghost var done: set<string> := {};
    while todo != {}
      invariant done <= states.Keys && todo == states.Keys - done
      invariant Sorted(authoritative, states, done, true) && Sorted(contextual, states, done, false)
      invariant urlHosts == |Those(states, done, IsUrl)| && pathScopedHosts == |Those(states, done, IsPathScoped)|
      invariant corroboratedHosts == |Those(states, done, IsCorroborated)|
      decreases |todo|
    {
      var d :| d in todo;
      var state := states[d];
      OneMoreHost(states, done, d, IsUrl);
      OneMoreHost(states, done, d, IsPathScoped);
      OneMoreHost(states, done, d, IsCorroborated);
      urlHosts := urlHosts + if IsUrl(state) then 1 else 0;
      pathScopedHosts := pathScopedHosts + if IsPathScoped(state) then 1 else 0;
      corroboratedHosts := corroboratedHosts + if IsCorroborated(state) then 1 else 0;
      SortedStep(authoritative, states, done, true, d);
      SortedStep(contextual, states, done, false, d);
      if state.authoritative {
        authoritative := Insert(authoritative, d);
      } else {
        contextual := Insert(contextual, d);
      }
      todo, done := todo - {d}, done + {d};
    }
    assert done == states.Keys;
    AllSorted(authoritative, states, true);
    AllSorted(contextual, states, false);
  }

  // The hosts among some that are authoritative, or that are not, in order.
  ghost predicate Sorted(l: seq<string>, states: States, hosts: set<string>, authoritative: bool)
    requires hosts <= states.Keys
  {
    Ascending(l) && forall d :: d in l <==> d in hosts && states[d].authoritative == authoritative
  }

  lemma NothingSorted(states: States)
    ensures Sorted([], states, {}, true) && Sorted([], states, {}, false)
  {
    EmptyAscends();
  }

  lemma SortedStep(l: seq<string>, states: States, hosts: set<string>, authoritative: bool, d: string)
    requires hosts <= states.Keys && d in states && d !in hosts && Sorted(l, states, hosts, authoritative)
    ensures Sorted(if states[d].authoritative == authoritative then Insert(l, d) else l, states, hosts + {d}, authoritative)
  {
    hide Ascending, Insert;
    InsertIs(l, d);
  }

  lemma AllSorted(l: seq<string>, states: States, authoritative: bool)
    requires Sorted(l, states, states.Keys, authoritative)
    ensures Ascending(l) && forall d :: d in l <==> d in states && states[d].authoritative == authoritative
  {
    hide Ascending;
  }

  lemma NoHosts(states: States)
    ensures Those(states, {}, IsUrl) == Those(states, {}, IsPathScoped) == Those(states, {}, IsCorroborated) == {}
  {
  }

  lemma EmptyAscends()
    ensures Ascending([])
  {
  }

  method PlanAdmission(ip: string -> bool, mode: Mode, stream: seq<Indicator>, limit: int, seenLimit: int)
    returns (plan: AdmissionPlan)
    ensures Describes(plan, ip, mode, stream, limit, seenLimit)
  {
    hide Track, Overflow, Missing, Room, Holds, Summary, Describes;
    var seen := new BoundedSeenSet(seenLimit);
    var states: States := map[];
    var valid: nat, duplicates: nat, overCapacity: nat := 0, 0, 0;
    assert stream[..0] == [];
    NothingTracked(limit);
    NothingTracked(seenLimit);
    NothingHeld(ip, mode, limit);
    for i := 0 to |stream|
      invariant seen.Valid() && seen.max == seenLimit && seen.marked == stream[..i] && fresh(seen)
      invariant valid == |seen.entries| && valid + duplicates == i
      invariant Holds(states, ip, mode, stream[..i], limit) && overCapacity == Overflow(stream[..i], limit)
    {
      assert stream[..i + 1] == stream[..i] + [stream[i]];
      var duplicate := seen.Mark(stream[i]);
      if duplicate {
        duplicates := duplicates + 1;
      } else {
        valid := valid + 1;
      }
      HeldKeys(states, ip, mode, stream[..i], limit);
      TrackStep(stream, i, limit);
      var over;
      states, over := Observe(states, ip, mode, limit, stream[i], stream[..i]);
      if over {
        overCapacity := overCapacity + 1;
      }
    }
    assert stream[..|stream|] == stream;
    var authoritative, contextual, urlHosts, pathScopedHosts, corroboratedHosts := Classify(states);
    OverflowCountsOccurrences(stream, limit);
    OverflowCountsOccurrences(stream, seenLimit);
    var stats := ParseStats(valid, duplicates, seen.overflowed);
    plan := AdmissionPlan(authoritative, contextual, stats, overCapacity, urlHosts, pathScopedHosts, corroboratedHosts);
    PlanDescribes(plan, states, ip, mode, stream, limit, seenLimit);
  }

  lemma NothingHeld(ip: string -> bool, mode: Mode, limit: int)
    ensures Holds(map[], ip, mode, [], limit)
  {
  }

  lemma HeldKeys(states: States, ip: string -> bool, mode: Mode, stream: seq<Indicator>, limit: int)
    requires Holds(states, ip, mode, stream, limit)
    ensures states.Keys == Track(stream, limit)
  {
  }

  lemma PlanDescribes(p: AdmissionPlan, states: States, ip: string -> bool, mode: Mode, stream: seq<Indicator>,
                      limit: int, seenLimit: int)
    requires Holds(states, ip, mode, stream, limit)
    requires Ascending(p.authoritative) && forall d :: d in p.authoritative <==> d in states && states[d].authoritative
    requires Ascending(p.contextual) && forall d :: d in p.contextual <==> d in states && !states[d].authoritative
    requires Counts(p.stats, stream, seenLimit) && p.unclassifiable == Missing(stream, Track(stream, limit))
    requires p.urlHosts == |Those(states, states.Keys, IsUrl)|
    requires p.pathScopedHosts == |Those(states, states.Keys, IsPathScoped)|
    requires p.corroboratedHosts == |Those(states, states.Keys, IsCorroborated)|
    ensures Describes(p, ip, mode, stream, limit, seenLimit)
  {
    hide Track, Missing, Counts, Trusted, UrlSeen, PathSeen, TwoResources, Summary, Ascending, Remembers;
    forall d
      ensures Summary(ip, mode, stream, d).authoritative <==> Trusted(ip, mode, stream, d)
      ensures Summary(ip, mode, stream, d).corroborated <==> TwoResources(ip, mode, stream, d)
      ensures Summary(ip, mode, stream, d).urlSeen <==> UrlSeen(stream, d)
      ensures Summary(ip, mode, stream, d).pathScoped <==> PathSeen(stream, d)
    {
      SummaryMeans(ip, mode, stream, d);
    }
    var hosts := Track(stream, limit);
    assert Those(states, states.Keys, IsUrl) == set d | d in hosts && UrlSeen(stream, d);
    assert Those(states, states.Keys, IsPathScoped) == set d | d in hosts && PathSeen(stream, d);
    assert Those(states, states.Keys, IsCorroborated) == set d | d in hosts && TwoResources(ip, mode, stream, d);
  }

  /* ---------- Theorems ---------- */

  lemma {:induction false} AscendingSize(a: seq<string>)
    requires Ascending(a)
    ensures |set x | x in a| == |a|
  {
    hide Less;
    if a != [] {
      TailElements(a);
      AscendingSize(a[1..]);
      assert (set x | x in a) == (set x | x in a[1..]) + {a[0]};
    } else {
      assert (set x | x in a) == {};
    }
  }

  // Under one shared cap nothing is lost between the two counts: every valid domain is classified
  // once, the overflow counters agree, and the two classes together are what ParseEach delivers.
  lemma SharedCapBalances(p: AdmissionPlan, ip: string -> bool, mode: Mode, stream: seq<Indicator>, limit: int)
    requires Describes(p, ip, mode, stream, limit, limit)
    ensures p.stats.valid == |p.authoritative| + |p.contextual|
    ensures forall d :: d !in p.authoritative || d !in p.contextual
    ensures p.unclassifiable == p.stats.truncated
    ensures forall d :: d in p.authoritative || d in p.contextual <==> d in Delivered(stream, limit)
  {
    hide Track, Missing, Trusted, Ascending;
    DeliveredAre(stream, limit);
    AscendingSize(p.authoritative);
    AscendingSize(p.contextual);
    var (a, c) := (set x | x in p.authoritative, set x | x in p.contextual);
    assert a !! c && a + c == Track(stream, limit);
  }

  lemma SameElements(a: seq<Indicator>, b: seq<Indicator>)
    requires multiset(a) == multiset(b)
    ensures |a| == |b| && forall x :: x in a <==> x in b
  {
    assert |a| == |multiset(a)| == |multiset(b)| == |b|;
    forall x
      ensures x in a <==> x in b
    {
      assert x in a <==> x in multiset(a);
      assert x in b <==> x in multiset(b);
    }
  }

  lemma SameHosts(a: seq<Indicator>, b: seq<Indicator>)
    requires forall x :: x in a <==> x in b
    ensures forall d :: Occurs(a, d) <==> Occurs(b, d)
  {
    forall s: seq<Indicator>, d
      ensures Occurs(s, d) <==> exists x :: x in s && x.domain == d
    {
      if Occurs(s, d) {
        var i :| 0 <= i < |s| && s[i].domain == d;
        assert s[i] in s;
      }
    }
  }

  lemma {:induction false} NoneMissing(stream: seq<Indicator>, kept: set<string>)
    requires forall x :: x in stream ==> x.domain in kept
    ensures Missing(stream, kept) == 0
  {
    if stream != [] {
      assert stream[|stream| - 1] in stream;
      NoneMissing(stream[..|stream| - 1], kept);
    }
  }

  lemma UnboundedCounts(stream: seq<Indicator>, limit: int)
    requires limit <= 0
    ensures Missing(stream, Track(stream, limit)) == 0
    ensures forall d :: d in Track(stream, limit) <==> Occurs(stream, d)
  {
    hide Track, Missing;
    UnboundedTracksAll(stream, limit);
    forall x | x in stream
      ensures x.domain in Track(stream, limit)
    {
      var i :| 0 <= i < |stream| && stream[i] == x;
      assert stream[i].domain == x.domain;
    }
    NoneMissing(stream, Track(stream, limit));
  }

  // Without a cap the plan does not depend on the order of the feed.
  lemma OrderDoesNotMatter(p: AdmissionPlan, q: AdmissionPlan, ip: string -> bool, mode: Mode,
                           a: seq<Indicator>, b: seq<Indicator>, limit: int, seenLimit: int)
    requires limit <= 0 && seenLimit <= 0 && multiset(a) == multiset(b)
    requires Describes(p, ip, mode, a, limit, seenLimit) && Describes(q, ip, mode, b, limit, seenLimit)
    ensures p == q
  {
    hide Track, Missing, WholeSeen, TwoResources, UrlSeen, PathSeen, Ascending, Occurs;
    SameElements(a, b);
    SameHosts(a, b);
    UnboundedCounts(a, limit);
    UnboundedCounts(b, limit);
    UnboundedCounts(a, seenLimit);
    UnboundedCounts(b, seenLimit);
    assert Track(a, limit) == Track(b, limit) && Track(a, seenLimit) == Track(b, seenLimit);
    SameEvidence(ip, mode, a, b);
    AscendingIsUnique(p.authoritative, q.authoritative);
    AscendingIsUnique(p.contextual, q.contextual);
    var hosts := Track(a, limit);
    assert (set d | d in hosts && UrlSeen(a, d)) == set d | d in hosts && UrlSeen(b, d);
    assert (set d | d in hosts && PathSeen(a, d)) == set d | d in hosts && PathSeen(b, d);
    assert (set d | d in hosts && TwoResources(ip, mode, a, d)) == set d | d in hosts && TwoResources(ip, mode, b, d);
  }

  lemma SameEvidence(ip: string -> bool, mode: Mode, a: seq<Indicator>, b: seq<Indicator>)
    requires forall x :: x in a <==> x in b
    ensures forall d :: WholeSeen(ip, mode, a, d) == WholeSeen(ip, mode, b, d)
    ensures forall d :: TwoResources(ip, mode, a, d) == TwoResources(ip, mode, b, d)
    ensures forall d :: UrlSeen(a, d) == UrlSeen(b, d) && PathSeen(a, d) == PathSeen(b, d)
  {
    hide Whole;
  }

  /* ---------- The plan in terms of the feed ---------- */

  // Evidence for a host as a whole: an entry that is not a URL below it, or two that name different
  // resources; every host counts in legacy mode, and every address.
  ghost predicate Evidence(ip: string -> bool, mode: Mode, stream: seq<Indicator>, d: string) {
    || mode == Legacy || ip(d)
    || (exists x :: x in stream && x.domain == d && !(x.url && x.pathScoped))
    || (exists x, y :: x in stream && y in stream && x.domain == d && y.domain == d && x.resource != y.resource)
  }

  lemma TrustedIsEvidence(ip: string -> bool, mode: Mode, stream: seq<Indicator>, d: string)
    requires Occurs(stream, d)
    ensures Trusted(ip, mode, stream, d) <==> Evidence(ip, mode, stream, d)
  {
    var i :| 0 <= i < |stream| && stream[i].domain == d;
    assert stream[i] in stream;
    if Trusted(ip, mode, stream, d) {
      if TwoResources(ip, mode, stream, d) {
        var x, y :| x in stream && y in stream && Scoped(ip, mode, x, d) && Scoped(ip, mode, y, d)
                 && x.resource != y.resource;
        assert x.domain == d && y.domain == d;
      }
    } else {
      assert !Whole(ip, mode, stream[i]);
    }
  }

  // Two URLs below the host that name different resources.
  ghost predicate DifferentPaths(stream: seq<Indicator>, d: string) {
    exists x, y :: x in stream && y in stream && x.domain == d && y.domain == d && x.url && y.url
                && x.pathScoped && y.pathScoped && x.resource != y.resource
  }

  lemma CorroboratedByPaths(ip: string -> bool, mode: Mode, stream: seq<Indicator>, d: string)
    ensures TwoResources(ip, mode, stream, d) <==> mode != Legacy && !ip(d) && DifferentPaths(stream, d)
  {
    if mode != Legacy && !ip(d) && DifferentPaths(stream, d) {
      var x, y :| x in stream && y in stream && x.domain == d && y.domain == d && x.url && y.url
               && x.pathScoped && y.pathScoped && x.resource != y.resource;
      assert Scoped(ip, mode, x, d) && Scoped(ip, mode, y, d);
    }
  }

  // A tracked host is authoritative exactly when there is evidence for it as a whole, and contextual
  // otherwise: an address never is, and in legacy mode nothing is.
  lemma PlanMeans(p: AdmissionPlan, ip: string -> bool, mode: Mode, stream: seq<Indicator>, limit: int, seenLimit: int)
    requires Describes(p, ip, mode, stream, limit, seenLimit)
    ensures forall d :: d in p.authoritative <==> d in Track(stream, limit) && Evidence(ip, mode, stream, d)
    ensures forall d :: d in p.contextual <==> d in Track(stream, limit) && !Evidence(ip, mode, stream, d)
    ensures mode == Legacy ==> p.contextual == []
    ensures forall d :: d in p.contextual ==> !ip(d)
  {
    hide Track, Trusted, Ascending, Counts, Missing, UrlSeen, PathSeen, TwoResources, Occurs;
    TrackedOccur(stream, limit);
    forall d | d in Track(stream, limit)
      ensures Trusted(ip, mode, stream, d) <==> Evidence(ip, mode, stream, d)
    {
      TrustedIsEvidence(ip, mode, stream, d);
    }
    if p.contextual != [] {
      assert p.contextual[0] in p.contextual;
    }
  }

  // What the host counters of a plan count.
  lemma PlanCounts(p: AdmissionPlan, ip: string -> bool, mode: Mode, stream: seq<Indicator>, limit: int, seenLimit: int)
    requires Describes(p, ip, mode, stream, limit, seenLimit)
    ensures var hosts := Track(stream, limit);
            && p.urlHosts == |(set d | d in hosts && exists x :: x in stream && x.domain == d && x.url)|
            && p.pathScopedHosts
               == |(set d | d in hosts && exists x :: x in stream && x.domain == d && x.url && x.pathScoped)|
            && p.corroboratedHosts == |(set d | d in hosts && mode != Legacy && !ip(d) && DifferentPaths(stream, d))|
  {
    hide Track, Trusted, Ascending, Counts, Missing, TwoResources, DifferentPaths, Whole;
    var hosts := Track(stream, limit);
    forall d | d in hosts
      ensures TwoResources(ip, mode, stream, d) <==> mode != Legacy && !ip(d) && DifferentPaths(stream, d)
    {
      CorroboratedByPaths(ip, mode, stream, d);
    }
    assert (set d | d in hosts && TwoResources(ip, mode, stream, d))
        == (set d | d in hosts && mode != Legacy && !ip(d) && DifferentPaths(stream, d));
    assert (set d | d in hosts && UrlSeen(stream, d))
        == (set d | d in hosts && exists x :: x in stream && x.domain == d && x.url);
    assert (set d | d in hosts && PathSeen(stream, d))
        == (set d | d in hosts && exists x :: x in stream && x.domain == d && x.url && x.pathScoped);
  }
}
