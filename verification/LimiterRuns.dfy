/**
 What the limiter of internal/ratelimit/limiter.go guarantees over whole runs: bookkeeping and
 eviction order in every reachable state, exact idle sweeps, invisible sweeps, and the token
 bucket's rate bound.
 */
module LimiterRuns {
  import opened LimiterState

  // A request reads its clock under the lock.  A sweep read its clock `late` before it got the lock, so
  // that requests in between are later than its clock.
  datatype Event = Request(key: string, at: real) | Cleanup(at: real, late: real)

  ghost function Step(c: Config, s: State, e: Event): (r: State)
    requires Tidy(s)
    ensures Tidy(r)
  {
    match e
    case Request(key, at) => AllowKeepsTidy(c, s, key, at); Allow(c, s, key, at).0
    case Cleanup(at, late) => var now := at - late; SweepKeepsTidy(s, now); Sweep(s, now)
  }

  ghost function Run(c: Config, s: State, events: seq<Event>): (r: State)
    requires Tidy(s)
    ensures Tidy(r)
    decreases |events|
  {
    if events == [] then s else Run(c, Step(c, s, events[0]), events[1..])
  }

  // The answer to an event that is a request.
  ghost function Answer(c: Config, s: State, e: Event): seq<bool>
    requires Tidy(s)
  {
    if e.Request? then [Allow(c, s, e.key, e.at).1] else []
  }

  // The answers to the requests of a run, in order.
  ghost function Answers(c: Config, s: State, events: seq<Event>): seq<bool>
    requires Tidy(s)
    decreases |events|
  {
    if events == [] then [] else Answer(c, s, events[0]) + Answers(c, Step(c, s, events[0]), events[1..])
  }

  // Events happen at or after `clock`, in the order in which they get the lock.
  predicate InOrder(events: seq<Event>, clock: real) {
    events == [] || (
      && events[0].at >= clock && (events[0].Cleanup? ==> events[0].late >= 0.0)
      && InOrder(events[1..], events[0].at))
  }

  /* ---------- Every victim list is the tracked keys in eviction order ---------- */

  // x lies behind y: it was used less recently.
  ghost predicate Behind(l: seq<string>, x: string, y: string) {
    exists p, q :: 0 <= q < p < |l| && l[p] == x && l[q] == y
  }

  lemma BehindExtends(front: seq<string>, last: string, x: string, y: string)
    requires Behind(front, x, y)
    ensures Behind(front + [last], x, y)
  {
    var p, q :| 0 <= q < p < |front| && front[p] == x && front[q] == y;
    var l := front + [last];
    assert l[p] == x && l[q] == y;
  }

  lemma LastIsBehind(front: seq<string>, last: string, y: string)
    requires y in front
    ensures Behind(front + [last], last, y)
  {
    var q :| 0 <= q < |front| && front[q] == y;
    var l := front + [last];
    assert l[|front|] == last && l[q] == y;
  }

  lemma {:induction false} ScanOrder(entries: map<string, Entry>, l: seq<string>, once: bool, i: nat, j: nat)
    requires Tracked(entries, l) && i < j < |Scan(entries, l, once)|
    ensures var r := Scan(entries, l, once); Behind(l, r[i], r[j])
    decreases |l|
  {
    hide Behind;
    var front, last := l[..|l| - 1], l[|l| - 1];
    assert l == front + [last];
    var r, rest := Scan(entries, l, once), Scan(entries, front, once);
    if (entries[last].hits <= 1) == once {
      assert r[j] == rest[j - 1];
      if i == 0 {
        LastIsBehind(front, last, r[j]);
      } else {
        ScanOrder(entries, front, once, i - 1, j - 1);
        BehindExtends(front, last, r[i], r[j]);
      }
    } else {
      assert r == rest;
      ScanOrder(entries, front, once, i, j);
      BehindExtends(front, last, r[i], r[j]);
    }
  }

  lemma RevOrder(l: seq<string>, i: nat, j: nat)
    requires i < j < |l|
    ensures Behind(l, Rev(l)[i], Rev(l)[j])
  {
    assert l[|l| - 1 - i] == Rev(l)[i] && l[|l| - 1 - j] == Rev(l)[j];
  }

  lemma {:induction false} ScanDistinct(entries: map<string, Entry>, l: seq<string>, once: bool)
    requires Tracked(entries, l) && Distinct(l)
    ensures Distinct(Scan(entries, l, once))
    decreases |l|
  {
    if l != [] {
      var front, last := l[..|l| - 1], l[|l| - 1];
      ScanDistinct(entries, front, once);
      var rest := Scan(entries, front, once);
      assert last !in front;
      assert last !in rest;
    }
  }

  lemma {:induction false} DistinctSize(l: seq<string>)
    requires Distinct(l)
    ensures |Elements(l)| == |l|
    decreases |l|
  {
    if l != [] {
      var front, last := l[..|l| - 1], l[|l| - 1];
      DistinctSize(front);
      assert last !in front && l == front + [last];
      assert Elements(l) == Elements(front) + {last};
    }
  }

  lemma ConcatDistinct(a: seq<string>, b: seq<string>)
    requires Distinct(a) && Distinct(b) && forall k :: k in b ==> k !in a
    ensures Distinct(a + b)
  {
    forall i, j | 0 <= i < j < |a + b|
      ensures (a + b)[i] != (a + b)[j]
    {
      if i < |a| <= j {
        assert (a + b)[j] == b[j - |a|] && b[j - |a|] in b;
        assert (a + b)[i] == a[i] && a[i] in a;
      }
    }
  }

  lemma VictimsCover(s: State)
    requires Tidy(s)
    ensures Distinct(Victims(s)) && Elements(Victims(s)) == s.entries.Keys && |Victims(s)| == |s.entries|
  {
    var c1, c2, c3 := Scan(s.entries, s.active, true), Scan(s.entries, s.active, false), Rev(s.blocked);
    ScanDistinct(s.entries, s.active, true);
    ScanDistinct(s.entries, s.active, false);
    ConcatDistinct(c1, c2);
    assert Distinct(c3);
    assert forall k :: k in c3 ==> k !in c1 + c2;
    ConcatDistinct(c1 + c2, c3);
    assert Elements(Victims(s)) == s.entries.Keys;
    DistinctSize(Victims(s));
  }

  // Cost class of a key: one-shot and active, active, blocked.
  function Class(s: State, k: string): nat
    requires k in s.entries
  {
    if k in s.blocked then 2 else if s.entries[k].hits > 1 then 1 else 0
  }

  // u should outlive v: it is in a costlier class, or in the same one and used more recently.
  ghost predicate Outlives(s: State, u: string, v: string)
    requires u in s.entries && v in s.entries
  {
    Class(s, v) < Class(s, u)
    || (Class(s, v) == Class(s, u) && Behind(if u in s.blocked then s.blocked else s.active, v, u))
  }

  lemma VictimClass(s: State, i: nat)
    requires Tidy(s) && i < |Victims(s)|
    ensures var c1, c2, v := Scan(s.entries, s.active, true), Scan(s.entries, s.active, false), Victims(s)[i];
            && v in s.entries
            && if i < |c1| then v == c1[i] && Class(s, v) == 0 && v in s.active
               else if i < |c1| + |c2| then v == c2[i - |c1|] && Class(s, v) == 1 && v in s.active
               else v == Rev(s.blocked)[i - |c1| - |c2|] && Class(s, v) == 2
  {
    hide Scan, Rev;
    var c1, c2, v := Scan(s.entries, s.active, true), Scan(s.entries, s.active, false), Victims(s)[i];
    if i < |c1| {
      assert v == c1[i] && v in c1;
    } else if i < |c1| + |c2| {
      assert v == c2[i - |c1|] && v in c2;
    } else {
      assert v == Rev(s.blocked)[i - |c1| - |c2|] && v in Rev(s.blocked);
    }
  }

  lemma VictimsInOrder(s: State, i: nat, j: nat)
    requires Tidy(s) && i < j < |Victims(s)|
    requires Victims(s)[i] in s.entries && Victims(s)[j] in s.entries
    ensures Outlives(s, Victims(s)[j], Victims(s)[i])
  {
    hide Scan, Rev, Behind, Class;
    var c1, c2 := Scan(s.entries, s.active, true), Scan(s.entries, s.active, false);
    VictimClass(s, i);
    VictimClass(s, j);
    if j < |c1| {
      ScanOrder(s.entries, s.active, true, i, j);
    } else if |c1| <= i && j < |c1| + |c2| {
      ScanOrder(s.entries, s.active, false, i - |c1|, j - |c1|);
    } else if |c1| + |c2| <= i {
      RevOrder(s.blocked, i - |c1| - |c2|, j - |c1| - |c2|);
    }
  }

  lemma EvictCount(s: State, n: nat)
    requires Tidy(s) && n <= |s.entries|
    ensures Evict(s, n).entries == s.entries - Elements(Take(Victims(s), n))
    ensures Tidy(Evict(s, n)) && |Evict(s, n).entries| == |s.entries| - n
  {
    hide Victims, Without, Once;
    VictimsCover(s);
    var v := Victims(s);
    var gone := Take(v, n);
    assert gone == v[..n];
    DistinctSize(gone);
    RemoveKeepsTidy(s, Elements(gone));
    assert Elements(gone) <= s.entries.Keys by { assert forall k :: k in gone ==> k in v; }
    assert (s.entries - Elements(gone)).Keys == s.entries.Keys - Elements(gone);
  }

  // Eviction removes exactly n keys, and every survivor outlives every victim.
  lemma EvictExactly(s: State, n: nat)
    requires Tidy(s) && n <= |s.entries|
    ensures var r := Evict(s, n);
            && Tidy(r) && |r.entries| == |s.entries| - n
            && (forall k :: k in r.entries ==> k in s.entries && r.entries[k] == s.entries[k])
            && forall u, v :: u in r.entries && v in s.entries && v !in r.entries ==> Outlives(s, u, v)
  {
    hide Victims, Evict, Outlives, Tidy;
    Listed(s);
    VictimsCover(s);
    EvictCount(s, n);
    var v, r := Victims(s), Evict(s, n);
    var gone := Take(v, n);
    assert forall p :: 0 <= p < n ==> v[p] == gone[p] && v[p] in gone;
    forall x, y | x in r.entries && y in s.entries && y !in r.entries
      ensures Outlives(s, x, y)
    {
      assert x in Elements(v) && y in Elements(gone);
      var j :| 0 <= j < |v| && v[j] == x;
      var i :| 0 <= i < n && gone[i] == y;
      VictimsInOrder(s, i, j);
    }
  }

  /* ---------- Safety of every reachable state, whatever the clock does ---------- */

  // The blocked list holds exactly the keys that would be denied, and the cap holds.
  ghost predicate Safe(c: Config, s: State) {
    && Tidy(s)
    && (forall k :: k in s.entries ==> (k in s.blocked <==> s.entries[k].tokens < 1.0))
    && (c.maxKeys > 0 ==> |s.entries| <= c.maxKeys)
  }

  lemma RemoveKeepsSafe(c: Config, s: State, gone: set<string>)
    requires Safe(c, s)
    ensures Safe(c, Remove(s, gone)) && |Remove(s, gone).entries| <= |s.entries|
  {
    RemoveKeepsTidy(s, gone);
    RemoveLists(s, gone);
    hide Remove, Without;
    FewerKeys(s.entries, gone);
  }

  lemma FewerKeys(entries: map<string, Entry>, gone: set<string>)
    ensures |entries - gone| <= |entries|
  {
    assert (entries - gone).Keys == entries.Keys - gone;
    assert |entries.Keys - gone| <= |entries.Keys| by { SubsetSize(entries.Keys - gone, entries.Keys); }
  }

  lemma {:induction false} SubsetSize(a: set<string>, b: set<string>)
    requires a <= b
    ensures |a| <= |b|
  {
    if a != {} {
      var x :| x in a;
      SubsetSize(a - {x}, b - {x});
    }
  }

  lemma ReadyIsSafe(c: Config, s: State, key: string)
    requires Safe(c, s)
    ensures var m := Ready(c, s, key);
            Safe(c, m) && (c.maxKeys > 0 && key !in m.entries ==> |m.entries| < c.maxKeys)
  {
    hide Evict;
    if key !in s.entries && c.maxKeys > 0 && |s.entries| >= c.maxKeys {
      var n := TrimCount(c.maxKeys, |s.entries|);
      EvictExactly(s, n);
      EvictIsRemove(s, n);
      RemoveKeepsSafe(c, s, Elements(Take(Victims(s), n)));
    }
  }

  lemma EvictIsRemove(s: State, n: int)
    requires Tidy(s)
    ensures Evict(s, n) == Remove(s, Elements(Take(Victims(s), n)))
  {
  }

  lemma SettleKeepsSafe(c: Config, m: State, key: string, e: Entry)
    requires Safe(c, m) && e.hits == 1 + if key in m.entries then m.entries[key].hits else 0
    requires c.maxKeys > 0 && key !in m.entries ==> |m.entries| < c.maxKeys
    ensures Safe(c, Settle(m, key, e))
  {
    hide Without, Once;
    SettleKeepsTidy(m, key, e);
    PlaceKeepsLists(m, key, e.tokens < 1.0);
    assert m.entries[key := e].Keys == m.entries.Keys + {key};
    assert |m.entries.Keys + {key}| == |m.entries.Keys| + if key in m.entries then 0 else 1;
    PlaceOthers(m, key, e.tokens < 1.0);
  }

  lemma PlaceOthers(s: State, key: string, isBlocked: bool)
    ensures forall k :: k != key ==> (k in Place(s, key, isBlocked).blocked <==> k in s.blocked)
    ensures forall k :: k != key ==> (k in Place(s, key, isBlocked).active <==> k in s.active)
  {
  }

  lemma AllowKeepsSafe(c: Config, s: State, key: string, at: real)
    requires Safe(c, s)
    ensures Safe(c, Allow(c, s, key, at).0)
  {
    SafeIsTidy(c, s);
    Listed(s);
    hide Safe, Tidy, Settle, Ready, Charge, Refill;
    if c.rate > 0.0 {
      ReadyIsSafe(c, s, key);
      var m := Ready(c, s, key);
      var e := Charge(c, Found(c, m, key, at), at);
      assert e.hits == 1 + if key in m.entries then m.entries[key].hits else 0 by { ChargeCounts(c, m, key, at); }
      SettleKeepsSafe(c, m, key, e);
    }
  }

  lemma ChargeCounts(c: Config, m: State, key: string, at: real)
    ensures Charge(c, Found(c, m, key, at), at).hits == 1 + if key in m.entries then m.entries[key].hits else 0
  {
  }

  lemma SweepKeepsSafe(c: Config, s: State, at: real)
    requires Safe(c, s)
    ensures Safe(c, Sweep(s, at))
  {
    hide Remove, StaleTail;
    RemoveKeepsSafe(c, s, StaleTail(s.entries, s.active, at - IDLE) + StaleTail(s.entries, s.blocked, at - IDLE));
  }

  lemma StepKeepsSafe(c: Config, s: State, e: Event)
    requires Safe(c, s)
    ensures Tidy(s) && Safe(c, Step(c, s, e))
  {
    hide Safe, Allow, Sweep;
    SafeIsTidy(c, s);
    match e
    case Request(key, at) => AllowKeepsSafe(c, s, key, at);
    case Cleanup(at, late) => SweepKeepsSafe(c, s, at - late);
  }

  lemma SafeIsTidy(c: Config, s: State)
    requires Safe(c, s)
    ensures Tidy(s)
  {
  }

  // In every reachable state, for any event times at all.
  lemma {:induction false} RunIsSafe(c: Config, s: State, events: seq<Event>)
    requires Safe(c, s)
    ensures Safe(c, Run(c, s, events))
    decreases |events|
  {
    hide Safe;
    SafeIsTidy(c, s);
    if events != [] {
      StepKeepsSafe(c, s, events[0]);
      RunIsSafe(c, Step(c, s, events[0]), events[1..]);
    }
  }

  lemma ReachableStatesAreSafe(c: Config, events: seq<Event>)
    ensures Tidy(EMPTY) && Safe(c, Run(c, EMPTY, events))
  {
    assert Once(map[]) == {};
    RunIsSafe(c, EMPTY, events);
  }

  /* ---------- With a clock that does not run backwards ---------- */

  // Tokens never exceed the burst, and only a limiter built with a negative burst goes below zero.
  predicate Sane(c: Config, e: Entry) {
    e.tokens <= c.burst as real && (e.tokens >= 0.0 || e.tokens == c.burst as real)
  }

  // Most recently used first.
  ghost predicate NewestFirst(entries: map<string, Entry>, l: seq<string>)
    requires Tracked(entries, l)
  {
    forall p, q :: 0 <= p < q < |l| ==> entries[l[q]].lastCheck <= entries[l[p]].lastCheck
  }

  ghost predicate Timed(c: Config, s: State, clock: real) {
    && Tidy(s)
    && (forall k :: k in s.entries ==> Sane(c, s.entries[k]) && s.entries[k].lastCheck <= clock)
    && NewestFirst(s.entries, s.active) && NewestFirst(s.entries, s.blocked)
  }

  lemma AppendOldest(entries: map<string, Entry>, front: seq<string>, last: string, r: seq<string>)
    requires Tracked(entries, front + [last]) && NewestFirst(entries, front + [last])
    requires (forall k :: k in r ==> k in front) && NewestFirst(entries, r)
    ensures NewestFirst(entries, r + [last])
  {
    forall p | 0 <= p < |r|
      ensures entries[last].lastCheck <= entries[r[p]].lastCheck
    {
      assert r[p] in front;
      var i :| 0 <= i < |front| && front[i] == r[p];
      assert (front + [last])[i] == r[p] && (front + [last])[|front|] == last;
    }
  }

  lemma {:induction false} WithoutNewestFirst(entries: map<string, Entry>, l: seq<string>, gone: set<string>)
    requires Tracked(entries, l) && NewestFirst(entries, l)
    ensures NewestFirst(entries, Without(l, gone))
    decreases |l|
  {
    if l != [] {
      var front, last := l[..|l| - 1], l[|l| - 1];
      assert l == front + [last];
      WithoutNewestFirst(entries, front, gone);
      AppendOldest(entries, front, last, Without(front, gone));
    }
  }

  lemma NewestFirstFrom(a: map<string, Entry>, b: map<string, Entry>, l: seq<string>)
    requires Tracked(a, l) && NewestFirst(a, l) && forall k :: k in l ==> k in b && b[k] == a[k]
    ensures NewestFirst(b, l)
  {
  }

  lemma RemoveKeepsTimed(c: Config, s: State, gone: set<string>, clock: real)
    requires Timed(c, s, clock)
    ensures Timed(c, Remove(s, gone), clock)
  {
    RemoveKeepsTidy(s, gone);
    WithoutNewestFirst(s.entries, s.active, gone);
    WithoutNewestFirst(s.entries, s.blocked, gone);
    hide Without, Once;
    NewestFirstFrom(s.entries, s.entries - gone, Without(s.active, gone));
    NewestFirstFrom(s.entries, s.entries - gone, Without(s.blocked, gone));
  }

  lemma PlacedFirst(entries: map<string, Entry>, l: seq<string>, key: string, e: Entry)
    requires Tracked(entries, l) && NewestFirst(entries, l)
    requires forall k :: k in l ==> entries[k].lastCheck <= e.lastCheck
    ensures NewestFirst(entries[key := e], Without(l, {key}))
    ensures NewestFirst(entries[key := e], [key] + Without(l, {key}))
  {
    WithoutNewestFirst(entries, l, {key});
    hide Without;
    var r := Without(l, {key});
    NewestFirstFrom(entries, entries[key := e], r);
    assert forall q :: 0 <= q < |r| ==> r[q] in r;
  }

  lemma SettleKeepsTimed(c: Config, m: State, key: string, e: Entry, clock: real)
    requires Timed(c, m, clock) && Sane(c, e) && clock <= e.lastCheck
    requires e.hits == 1 + if key in m.entries then m.entries[key].hits else 0
    ensures Timed(c, Settle(m, key, e), e.lastCheck)
  {
    hide Without, Once;
    SettleKeepsTidy(m, key, e);
    PlacedFirst(m.entries, m.active, key, e);
    PlacedFirst(m.entries, m.blocked, key, e);
  }

  // Refilling is monotone and additive in the duration.
  lemma GainSign(c: Config, d: real)
    requires c.rate > 0.0
    ensures d > 0.0 ==> Gain(c, d) > 0.0
    ensures d == 0.0 ==> Gain(c, d) == 0.0
    ensures d < 0.0 ==> Gain(c, d) < 0.0
  {
  }

  lemma GainSplits(c: Config, a: real, b: real)
    ensures Gain(c, a + b) == Gain(c, a) + Gain(c, b)
  {
  }

  lemma ChargeIsSane(c: Config, e: Entry, at: real)
    requires Sane(c, e) && e.lastCheck <= at && c.rate > 0.0
    ensures Sane(c, Charge(c, e, at)) && Charge(c, e, at).lastCheck == at
  {
    GainSign(c, at - e.lastCheck);
  }

  lemma TimedIsTidy(c: Config, s: State, clock: real)
    requires Timed(c, s, clock)
    ensures Tidy(s)
    ensures forall k :: k in s.entries ==> Sane(c, s.entries[k]) && s.entries[k].lastCheck <= clock
  {
  }

  lemma AllowKeepsTimed(c: Config, s: State, key: string, at: real, clock: real)
    requires Timed(c, s, clock) && clock <= at
    ensures Timed(c, Allow(c, s, key, at).0, at)
  {
    if c.rate > 0.0 {
      ReadyIsTimed(c, s, key, clock);
      var m := Ready(c, s, key);
      TimedIsTidy(c, m, clock);
      hide Timed, Tidy, Settle, Ready, Charge, Refill;
      var found := Found(c, m, key, at);
      ChargeIsSane(c, found, at);
      ChargeCounts(c, m, key, at);
      SettleKeepsTimed(c, m, key, Charge(c, found, at), clock);
    }
  }

  lemma ReadyIsTimed(c: Config, s: State, key: string, clock: real)
    requires Timed(c, s, clock)
    ensures Timed(c, Ready(c, s, key), clock)
  {
    hide Remove, Timed, Victims;
    TimedIsTidy(c, s, clock);
    if key !in s.entries && c.maxKeys > 0 && |s.entries| >= c.maxKeys {
      var n := TrimCount(c.maxKeys, |s.entries|);
      EvictIsRemove(s, n);
      RemoveKeepsTimed(c, s, Elements(Take(Victims(s), n)), clock);
    }
  }

  lemma StepKeepsTimed(c: Config, s: State, e: Event, clock: real)
    requires Timed(c, s, clock) && clock <= e.at
    ensures Tidy(s) && Timed(c, Step(c, s, e), e.at)
  {
    hide Allow, Remove, StaleTail;
    TimedIsTidy(c, s, clock);
    match e
    case Request(key, at) => AllowKeepsTimed(c, s, key, at, clock);
    case Cleanup(at, late) =>
      var cutoff := at - late - IDLE;
      RemoveKeepsTimed(c, s, StaleTail(s.entries, s.active, cutoff) + StaleTail(s.entries, s.blocked, cutoff), clock);
  }

  // The time of the last event.
  function LastTime(events: seq<Event>, clock: real): real {
    if events == [] then clock else LastTime(events[1..], events[0].at)
  }

  lemma {:induction false} RunIsTimed(c: Config, s: State, events: seq<Event>, clock: real)
    requires Timed(c, s, clock) && InOrder(events, clock)
    ensures Tidy(s) && Timed(c, Run(c, s, events), LastTime(events, clock))
    decreases |events|
  {
    TimedIsTidy(c, s, clock);
    hide Timed;
    if events != [] {
      StepKeepsTimed(c, s, events[0], clock);
      RunIsTimed(c, Step(c, s, events[0]), events[1..], events[0].at);
    }
  }

  lemma ReachableStatesAreTimed(c: Config, events: seq<Event>, clock: real)
    requires InOrder(events, clock)
    ensures Tidy(EMPTY) && Timed(c, Run(c, EMPTY, events), LastTime(events, clock))
  {
    assert Once(map[]) == {};
    RunIsTimed(c, EMPTY, events, clock);
  }

  // What the eviction order means to clients: a throttled key goes only when no other is left, a
  // repeat visitor only when no active one-shot key is left, and among equals the one idle longest.
  lemma EvictionPreference(c: Config, s: State, n: nat, clock: real, u: string, v: string)
    requires Timed(c, s, clock) && n <= |s.entries|
    requires u in Evict(s, n).entries && v in s.entries && v !in Evict(s, n).entries
    ensures u in s.entries
    ensures v in s.blocked ==> u in s.blocked
    ensures v in s.active && s.entries[v].hits > 1 ==> u in s.blocked || s.entries[u].hits > 1
    ensures Class(s, u) == Class(s, v) ==> s.entries[v].lastCheck <= s.entries[u].lastCheck
  {
    hide Evict;
    EvictExactly(s, n);
    var r := Evict(s, n);
    assert u in r.entries && v !in r.entries;
    assert Outlives(s, u, v);
  }

  /* ---------- The sweep removes exactly the idle keys ---------- */

  lemma {:induction false} StaleTailIsAllStale(entries: map<string, Entry>, l: seq<string>, cutoff: real)
    requires Tracked(entries, l) && NewestFirst(entries, l)
    ensures forall k :: k in l && entries[k].lastCheck < cutoff ==> k in StaleTail(entries, l, cutoff)
    decreases |l|
  {
    if l != [] {
      var front, last := l[..|l| - 1], l[|l| - 1];
      assert l == front + [last];
      StaleTailIsAllStale(entries, front, cutoff);
    }
  }

  // Although it stops at the first fresh key of each list.
  lemma SweepIsExact(c: Config, s: State, clock: real, now: real)
    requires Timed(c, s, clock)
    ensures Sweep(s, now).entries == map k | k in s.entries && s.entries[k].lastCheck >= now - 600.0 :: s.entries[k]
  {
    StaleTailIsAllStale(s.entries, s.active, now - IDLE);
    StaleTailIsAllStale(s.entries, s.blocked, now - IDLE);
  }

  /* ---------- Sweeps are invisible when an idle bucket is a full one ---------- */

  // The requests of a run, without its sweeps.
  function Requests(events: seq<Event>): seq<Event> {
    if events == [] then []
    else (if events[0].Request? then [events[0]] else []) + Requests(events[1..])
  }

  // s has forgotten only keys of full that have been idle since before clock - IDLE.
  ghost predicate Forgot(s: State, full: State, clock: real) {
    forall k :: k in full.entries ==>
      if k in s.entries then s.entries[k].(hits := 0) == full.entries[k].(hits := 0)
      else full.entries[k].lastCheck < clock - IDLE
  }

  lemma IdleBucketIsFull(c: Config, e: Entry, clock: real, at: real)
    requires Sane(c, e) && c.rate > 0.0 && Gain(c, IDLE) >= c.burst as real
    requires e.lastCheck < clock - IDLE && clock <= at
    ensures Refill(c, e, at) == c.burst as real
  {
    hide Gain;
    var elapsed := at - e.lastCheck;
    GainSign(c, elapsed);
    GainSign(c, elapsed - IDLE);
    GainSplits(c, elapsed - IDLE, IDLE);
    assert (elapsed - IDLE) + IDLE == elapsed;
  }

  lemma FreshBucketIsFull(c: Config, at: real)
    requires c.rate > 0.0
    ensures Refill(c, Entry(c.burst as real, at, 0), at) == c.burst as real
  {
    hide Gain;
    GainSign(c, at - at);
  }

  lemma RefillIgnoresHits(c: Config, e: Entry, f: Entry, at: real)
    requires e.(hits := 0) == f.(hits := 0)
    ensures Refill(c, e, at) == Refill(c, f, at)
  {
  }

  // Both limiters find buckets that refill to the same level.
  lemma SameLevel(c: Config, s: State, full: State, key: string, at: real, clock: real)
    requires Timed(c, s, clock) && Timed(c, full, clock) && Forgot(s, full, clock) && clock <= at
    requires s.entries.Keys <= full.entries.Keys
    requires c.rate > 0.0 && Gain(c, IDLE) >= c.burst as real
    ensures Refill(c, Found(c, s, key, at), at) == Refill(c, Found(c, full, key, at), at)
  {
    hide Refill;
    FreshBucketIsFull(c, at);
    if key in full.entries {
      if key in s.entries {
        RefillIgnoresHits(c, s.entries[key], full.entries[key], at);
      } else {
        IdleBucketIsFull(c, full.entries[key], clock, at);
      }
    }
  }

  // One request to both.
  lemma SameAnswer(c: Config, s: State, full: State, key: string, at: real, clock: real)
    requires Timed(c, s, clock) && Timed(c, full, clock) && Forgot(s, full, clock) && clock <= at
    requires s.entries.Keys <= full.entries.Keys
    requires c.rate > 0.0 && c.maxKeys <= 0 && Gain(c, IDLE) >= c.burst as real
    ensures Allow(c, s, key, at).1 == Allow(c, full, key, at).1
    ensures Forgot(Allow(c, s, key, at).0, Allow(c, full, key, at).0, at)
    ensures Allow(c, s, key, at).0.entries.Keys <= Allow(c, full, key, at).0.entries.Keys
  {
    SameLevel(c, s, full, key, at, clock);
    hide Refill, Timed, Without;
  }

  lemma SweepForgetsIdle(c: Config, s: State, full: State, at: real, late: real, clock: real)
    requires Tidy(s) && Forgot(s, full, clock) && clock <= at && late >= 0.0 && s.entries.Keys <= full.entries.Keys
    ensures Forgot(Sweep(s, at - late), full, at) && Sweep(s, at - late).entries.Keys <= full.entries.Keys
  {
    hide Without;
  }

  lemma {:induction false} SweepsChangeNoAnswerFrom(c: Config, s: State, full: State, events: seq<Event>, clock: real)
    requires Timed(c, s, clock) && Timed(c, full, clock) && Forgot(s, full, clock)
    requires s.entries.Keys <= full.entries.Keys && InOrder(events, clock)
    requires c.rate > 0.0 && c.maxKeys <= 0 && Gain(c, IDLE) >= c.burst as real
    ensures Tidy(s) && Tidy(full) && Answers(c, s, events) == Answers(c, full, Requests(events))
    decreases |events|
  {
    TimedIsTidy(c, s, clock);
    TimedIsTidy(c, full, clock);
    if events != [] {
      var e, rest := events[0], events[1..];
      hide Timed, Allow, Sweep, Forgot, Tidy;
      StepKeepsTimed(c, s, e, clock);
      match e
      case Request(key, at) =>
        SameAnswer(c, s, full, key, at, clock);
        StepKeepsTimed(c, full, e, clock);
        SweepsChangeNoAnswerFrom(c, Step(c, s, e), Step(c, full, e), rest, at);
        assert Requests(events)[1..] == Requests(rest);
      case Cleanup(at, late) =>
        SweepForgetsIdle(c, s, full, at, late, clock);
        Later(c, full, clock, at);
        SweepsChangeNoAnswerFrom(c, Step(c, s, e), full, rest, at);
        assert Requests(events) == Requests(rest);
    }
  }

  lemma Later(c: Config, s: State, clock: real, at: real)
    requires Timed(c, s, clock) && clock <= at
    ensures Timed(c, s, at)
  {
  }

  // Without a key cap, background sweeps never change an answer, provided IDLE seconds refill a bucket.
  lemma SweepsChangeNoAnswer(c: Config, events: seq<Event>, clock: real)
    requires InOrder(events, clock)
    requires c.rate > 0.0 && c.maxKeys <= 0 && Gain(c, IDLE) >= c.burst as real
    ensures Tidy(EMPTY) && Answers(c, EMPTY, events) == Answers(c, EMPTY, Requests(events))
  {
    assert Once(map[]) == {};
    SweepsChangeNoAnswerFrom(c, EMPTY, EMPTY, events, clock);
  }

  /* ---------- The rate bound ---------- */

  // Tokens the key could spend at time t; an untracked key would get a full bucket.
  function Level(c: Config, s: State, key: string, t: real): real {
    if key in s.entries then Refill(c, s.entries[key], t) else c.burst as real
  }

  // Requests of key that a run allows.
  ghost function Allowed(c: Config, s: State, events: seq<Event>, key: string): nat
    requires Tidy(s)
    decreases |events|
  {
    if events == [] then 0
    else (if events[0].Request? && events[0].key == key && Allow(c, s, key, events[0].at).1 then 1 else 0)
         + Allowed(c, Step(c, s, events[0]), events[1..], key)
  }

  // No step of the run evicts or sweeps the key.
  ghost predicate StaysTracked(c: Config, s: State, events: seq<Event>, key: string)
    requires Tidy(s)
    decreases |events|
  {
    events == [] || (
      (key in s.entries ==> key in Step(c, s, events[0]).entries)
      && StaysTracked(c, Step(c, s, events[0]), events[1..], key))
  }

  // The step drops the key while its bucket is not full.
  ghost predicate Refunds(c: Config, s: State, e: Event, key: string)
    requires Tidy(s)
  {
    key in s.entries && key !in Step(c, s, e).entries && Level(c, s, key, e.at) < c.burst as real
  }

  // How often that happens in a run.
  ghost function Drops(c: Config, s: State, events: seq<Event>, key: string): nat
    requires Tidy(s)
    decreases |events|
  {
    if events == [] then 0
    else (if Refunds(c, s, events[0], key) then 1 else 0) + Drops(c, Step(c, s, events[0]), events[1..], key)
  }

  // Waiting adds at most rate per second.
  lemma LevelGrowth(c: Config, s: State, key: string, t: real, t': real)
    requires c.rate > 0.0 && t <= t'
    ensures Level(c, s, key, t') <= Level(c, s, key, t) + Gain(c, t' - t)
  {
    hide Gain;
    GainSign(c, t' - t);
    if key in s.entries {
      var e := s.entries[key];
      GainSplits(c, t - e.lastCheck, t' - t);
      assert (t - e.lastCheck) + (t' - t) == t' - e.lastCheck;
    }
  }

  lemma SpendLowersLevel(c: Config, s: State, key: string, at: real)
    requires Tidy(s) && c.rate > 0.0 && (key !in s.entries ==> key !in Ready(c, s, key).entries)
    ensures var (s', ok) := Allow(c, s, key, at);
            key in s'.entries && Level(c, s', key, at) <= Level(c, s, key, at) - if ok then 1.0 else 0.0
  {
    hide Evict, Without;
    var (s', ok) := Allow(c, s, key, at);
    var m := Ready(c, s, key);
    var e := Found(c, m, key, at);
    assert s'.entries[key] == Charge(c, e, at);
    assert Refill(c, s'.entries[key], at) <= s'.entries[key].tokens by { ChargedLevel(c, Charge(c, e, at), at); }
    if key !in s.entries {
      FreshBucketIsFull(c, at);
    }
  }

  lemma ChargedLevel(c: Config, e: Entry, at: real)
    requires e.lastCheck == at && c.rate > 0.0
    ensures Refill(c, e, at) <= e.tokens
  {
    hide Gain;
    GainSign(c, at - e.lastCheck);
  }

  // Any other event leaves the bucket as it is.
  lemma OthersKeepBucket(c: Config, s: State, e: Event, key: string)
    requires Tidy(s) && !(e.Request? && e.key == key)
    ensures var s' := Step(c, s, e); key in s'.entries ==> key in s.entries && s'.entries[key] == s.entries[key]
  {
    match e
    case Request(other, at) => RoomKeepsEntries(c, s, other);
    case Cleanup(at, late) =>
  }

  lemma RoomKeepsEntries(c: Config, s: State, other: string)
    requires Tidy(s)
    ensures forall k :: k in Ready(c, s, other).entries ==> k in s.entries && Ready(c, s, other).entries[k] == s.entries[k]
  {
    hide Victims;
  }

  lemma {:induction false} RateBoundFrom(c: Config, s: State, events: seq<Event>, key: string, clock: real)
    requires Timed(c, s, clock) && InOrder(events, clock) && c.rate > 0.0 && c.burst >= 0 && Tidy(s)
    ensures var end := LastTime(events, clock);
            Allowed(c, s, events, key) as real + Level(c, Run(c, s, events), key, end)
              <= Level(c, s, key, clock) + Gain(c, end - clock) + Bursts(c, Drops(c, s, events, key))
    decreases |events|
  {
    hide Timed, Allow, Refill, Tidy, Level, Step, Gain, Refunds;
    Durations(c, clock, clock, clock);
    if events != [] {
      var e := events[0];
      StepKeepsTimed(c, s, e, clock);
      var s' := Step(c, s, e);
      RateBoundFrom(c, s', events[1..], key, e.at);
      LevelGrowth(c, s, key, clock, e.at);
      LevelStep(c, s, e, key, clock);
      Durations(c, clock, e.at, LastTime(events, clock));
    }
  }

  // n full buckets.
  function Bursts(c: Config, n: nat): real {
    if n == 0 then 0.0 else Bursts(c, n - 1) + c.burst as real
  }

  lemma {:induction false} BurstsIs(c: Config, n: nat)
    ensures Bursts(c, n) == n as real * c.burst as real
  {
    if n > 0 {
      BurstsIs(c, n - 1);
      assert n as real == (n - 1) as real + 1.0;
    }
  }

  lemma Durations(c: Config, a: real, b: real, d: real)
    requires c.rate > 0.0
    ensures Gain(c, b - a) + Gain(c, d - b) == Gain(c, d - a) && Gain(c, a - a) == 0.0
  {
    hide Gain;
    GainSign(c, a - a);
    GainSplits(c, b - a, d - b);
    assert (b - a) + (d - b) == d - a;
  }

  lemma LevelStep(c: Config, s: State, e: Event, key: string, clock: real)
    requires Tidy(s) && Timed(c, s, clock) && clock <= e.at && c.rate > 0.0 && c.burst >= 0
    ensures Level(c, Step(c, s, e), key, e.at)
              <= Level(c, s, key, e.at) - (if e.Request? && e.key == key && Allow(c, s, key, e.at).1 then 1.0 else 0.0)
                 + if Refunds(c, s, e, key) then c.burst as real else 0.0
  {
    hide Allow, Refill, Sweep, Timed;
    if e.Request? && e.key == key {
      RoomKeepsEntries(c, s, key);
      SpendLowersLevel(c, s, key, e.at);
    } else {
      OthersKeepBucket(c, s, e, key);
      Later(c, s, clock, e.at);
      LevelNotNegative(c, s, key, e.at);
    }
  }

  lemma LevelNotNegative(c: Config, s: State, key: string, clock: real)
    requires Timed(c, s, clock) && c.burst >= 0 && c.rate > 0.0
    ensures 0.0 <= Level(c, s, key, clock) <= c.burst as real
  {
    if key in s.entries {
      var e := s.entries[key];
      assert Sane(c, e) && e.lastCheck <= clock;
      hide Gain;
      GainSign(c, clock - e.lastCheck);
      assert e.tokens >= 0.0;
    }
  }

  // Over any stretch of any run at most burst + rate * duration of a key's requests are allowed, and one
  // burst more for each time the key is dropped with a bucket that is not full.
  lemma RateBound(c: Config, s: State, events: seq<Event>, key: string, clock: real)
    requires Timed(c, s, clock) && InOrder(events, clock) && c.rate > 0.0 && c.burst >= 0 && Tidy(s)
    ensures Allowed(c, s, events, key) as real
              <= (1 + Drops(c, s, events, key)) as real * c.burst as real + Gain(c, LastTime(events, clock) - clock)
  {
    hide Drops, Allowed, Timed, Gain, InOrder, LastTime, Tidy, Bursts;
    AllowedBound(c, s, events, key, clock);
    BurstsIs(c, 1 + Drops(c, s, events, key));
  }

  lemma AllowedBound(c: Config, s: State, events: seq<Event>, key: string, clock: real)
    requires Timed(c, s, clock) && InOrder(events, clock) && c.rate > 0.0 && c.burst >= 0 && Tidy(s)
    ensures Allowed(c, s, events, key) as real
              <= Bursts(c, 1 + Drops(c, s, events, key)) + Gain(c, LastTime(events, clock) - clock)
  {
    hide Level, Drops, Allowed, Timed, Gain;
    RateBoundFrom(c, s, events, key, clock);
    RunIsTimed(c, s, events, clock);
    LevelNotNegative(c, s, key, clock);
    LevelNotNegative(c, Run(c, s, events), key, LastTime(events, clock));
  }

  // Without a cap, and when an idle bucket is a full one, no such drop happens: sweeps give nothing away.
  lemma {:induction false} UncappedNeverRefunds(c: Config, s: State, events: seq<Event>, key: string, clock: real)
    requires Timed(c, s, clock) && InOrder(events, clock) && Tidy(s)
    requires c.rate > 0.0 && c.maxKeys <= 0 && Gain(c, IDLE) >= c.burst as real
    ensures Drops(c, s, events, key) == 0
    decreases |events|
  {
    hide Timed, Tidy, Step, Gain, Refunds;
    if events != [] {
      StepKeepsTimed(c, s, events[0], clock);
      UncappedStep(c, s, events[0], key, clock);
      UncappedNeverRefunds(c, Step(c, s, events[0]), events[1..], key, events[0].at);
    }
  }

  lemma UncappedStep(c: Config, s: State, e: Event, key: string, clock: real)
    requires Tidy(s) && Timed(c, s, clock) && clock <= e.at && (e.Cleanup? ==> e.late >= 0.0)
    requires c.rate > 0.0 && c.maxKeys <= 0 && Gain(c, IDLE) >= c.burst as real
    ensures !Refunds(c, s, e, key)
  {
    hide Sweep, Without, Charge, Gain, Refill;
    match e
    case Request(other, at) =>
    case Cleanup(at, late) =>
      SweepIsExact(c, s, clock, at - late);
      if key in s.entries && key !in Sweep(s, at - late).entries {
        Later(c, s, clock, at);
        IdleBucketIsFull(c, s.entries[key], at, at);
      }
  }

  // A key that stays tracked is never dropped at all.
  lemma {:induction false} TrackedNeverRefunds(c: Config, s: State, events: seq<Event>, key: string)
    requires Tidy(s) && StaysTracked(c, s, events, key)
    ensures Drops(c, s, events, key) == 0
    decreases |events|
  {
    hide Step, Tidy, Level;
    if events != [] {
      TrackedNeverRefunds(c, Step(c, s, events[0]), events[1..], key);
    }
  }

  // In both cases the bound is that of the bucket alone.
  lemma UndroppedRateBound(c: Config, s: State, events: seq<Event>, key: string, clock: real)
    requires Timed(c, s, clock) && InOrder(events, clock) && c.rate > 0.0 && c.burst >= 0 && Tidy(s)
    requires StaysTracked(c, s, events, key) || (c.maxKeys <= 0 && Gain(c, IDLE) >= c.burst as real)
    ensures Allowed(c, s, events, key) as real <= c.burst as real + Gain(c, LastTime(events, clock) - clock)
  {
    hide Drops, Allowed, Timed, Gain, StaysTracked, Tidy;
    RateBound(c, s, events, key, clock);
    if StaysTracked(c, s, events, key) {
      TrackedNeverRefunds(c, s, events, key);
    } else {
      UncappedNeverRefunds(c, s, events, key, clock);
    }
  }

  /* ---------- When sweeps do show ---------- */

  function Repeat(key: string, at: real, n: nat): seq<Event> {
    if n == 0 then [] else [Request(key, at)] + Repeat(key, at, n - 1)
  }

  function AllTrue(n: nat): seq<bool> {
    if n == 0 then [] else [true] + AllTrue(n - 1)
  }

  // A request is allowed exactly when a token is there, and takes it.
  lemma SpendExactly(c: Config, s: State, key: string, at: real)
    requires Tidy(s) && c.rate > 0.0 && c.maxKeys <= 0
    ensures var (s', ok) := Allow(c, s, key, at);
            && (ok <==> Level(c, s, key, at) >= 1.0) && key in s'.entries && s'.entries[key].lastCheck == at
            && Level(c, s', key, at) == s'.entries[key].tokens == Level(c, s, key, at) - if ok then 1.0 else 0.0
  {
    hide Without, Gain, Evict;
    var e := Found(c, s, key, at);
    assert Ready(c, s, key) == s;
    assert Allow(c, s, key, at).0.entries[key] == Charge(c, e, at);
    GainSign(c, at - at);
    if key !in s.entries {
      FreshBucketIsFull(c, at);
    }
  }

  /* ---------- One request, whatever the cap ---------- */

  // A disabled limiter allows everything and tracks nothing.
  lemma DisabledAllowsAll(c: Config, s: State, key: string, at: real)
    requires Tidy(s) && c.rate <= 0.0
    ensures Allow(c, s, key, at) == (s, true)
  {
  }

  // A request is allowed exactly when the key's bucket holds a token once it is refilled for the time
  // since its last use, up to the burst; a key without a bucket, also one that needs an eviction first,
  // has a full one.  The request takes the token.
  lemma AllowExactly(c: Config, s: State, key: string, at: real)
    requires Tidy(s) && c.rate > 0.0
    ensures var (s', ok) := Allow(c, s, key, at);
            var refilled := if key in s.entries then s.entries[key].tokens + (at - s.entries[key].lastCheck) * c.rate
                            else c.burst as real;
            var level := if refilled > c.burst as real then c.burst as real else refilled;
            var hits := if key in s.entries then s.entries[key].hits else 0;
            && (ok <==> level >= 1.0)
            && key in s'.entries && s'.entries[key] == Entry(if ok then level - 1.0 else level, at, hits + 1)
  {
    hide Without, Evict, Tidy, Gain, Found, Ready, Charge;
    Listed(s);
    RoomKeepsEntries(c, s, key);
    FoundIs(c, s, key, at);
    var e := Found(c, Ready(c, s, key), key, at);
    SettledEntry(c, s, key, at);
    GainIs(c, at - e.lastCheck);
    FreshBucketIsFull(c, at);
    ChargeIs(c, e, at);
  }

  lemma SettledEntry(c: Config, s: State, key: string, at: real)
    requires Tidy(s) && c.rate > 0.0
    ensures var (e, r) := (Found(c, Ready(c, s, key), key, at), Allow(c, s, key, at));
            key in r.0.entries && r.0.entries[key] == Charge(c, e, at) && r.1 == (Refill(c, e, at) >= 1.0)
  {
    hide Without, Evict, Tidy, Gain, Charge, Refill, Found, Ready;
  }

  lemma ChargeIs(c: Config, e: Entry, at: real)
    ensures var tokens := Refill(c, e, at);
            Charge(c, e, at) == Entry(if tokens < 1.0 then tokens else tokens - 1.0, at, e.hits + 1)
  {
    hide Refill;
  }

  lemma FoundIs(c: Config, s: State, key: string, at: real)
    requires Tidy(s)
    ensures Found(c, Ready(c, s, key), key, at) == if key in s.entries then s.entries[key] else Entry(c.burst as real, at, 0)
  {
    hide Evict;
    RoomKeepsEntries(c, s, key);
  }

  // Other keys keep their buckets, unless a new key finds the limiter full: then TrimCount of them go.
  lemma OthersAfterAllow(c: Config, s: State, key: string, at: real)
    requires Tidy(s) && c.rate > 0.0
    ensures var s' := Allow(c, s, key, at).0;
            var full := key !in s.entries && c.maxKeys > 0 && |s.entries| >= c.maxKeys;
            && (forall k :: k != key && k in s'.entries ==> k in s.entries && s'.entries[k] == s.entries[k])
            && (!full ==> s'.entries.Keys == s.entries.Keys + {key})
            && (full ==> |s'.entries| == |s.entries| - TrimCount(c.maxKeys, |s.entries|) + 1)
  {
    hide Without, Evict, Tidy, TrimCount, Charge, Found;
    Listed(s);
    RoomKeepsEntries(c, s, key);
    MakeRoomIs(c, s);
    var m := Ready(c, s, key);
    var s' := Allow(c, s, key, at).0;
    assert s'.entries.Keys == m.entries.Keys + {key};
    if key !in s.entries && c.maxKeys > 0 && |s.entries| >= c.maxKeys {
      TrimBounds(c, s);
      EvictExactly(s, TrimCount(c.maxKeys, |s.entries|));
      assert |s'.entries| == |s'.entries.Keys| && |m.entries| == |m.entries.Keys|;
    }
  }

  lemma TrimBounds(c: Config, s: State)
    requires c.maxKeys > 0
    ensures 0 <= TrimCount(c.maxKeys, |s.entries|) <= |s.entries|
  {
  }

  // n requests at one time are all allowed exactly when there are n tokens.
  lemma {:induction false} RepeatAnswers(c: Config, s: State, key: string, at: real, n: nat)
    requires Tidy(s) && c.rate > 0.0 && c.maxKeys <= 0 && n > 0
    ensures Answers(c, s, Repeat(key, at, n)) == AllTrue(n) <==> Level(c, s, key, at) >= n as real
    ensures Level(c, s, key, at) >= n as real ==>
              var r := Run(c, s, Repeat(key, at, n));
              && key in r.entries && r.entries[key].lastCheck == at
              && r.entries[key].tokens == Level(c, s, key, at) - n as real
    decreases n
  {
    hide Allow, Level, Tidy;
    Listed(s);
    SpendExactly(c, s, key, at);
    var (s', ok) := Allow(c, s, key, at);
    RepeatStep(c, s, key, at, n);
    if n > 1 {
      RepeatAnswers(c, s', key, at, n - 1);
    }
  }

  lemma RepeatStep(c: Config, s: State, key: string, at: real, n: nat)
    requires Tidy(s) && n > 0
    ensures var (s', ok) := Allow(c, s, key, at);
            && Tidy(s') && Run(c, s, Repeat(key, at, n)) == Run(c, s', Repeat(key, at, n - 1))
            && (Answers(c, s, Repeat(key, at, n)) == AllTrue(n) <==>
                  ok && Answers(c, s', Repeat(key, at, n - 1)) == AllTrue(n - 1))
  {
    hide Allow, Tidy;
    Listed(s);
    AllowKeepsTidy(c, s, key, at);
    var events := Repeat(key, at, n);
    assert events[0] == Request(key, at) && events[1..] == Repeat(key, at, n - 1);
    assert Step(c, s, events[0]) == Allow(c, s, key, at).0;
    var rest := Answers(c, Allow(c, s, key, at).0, events[1..]);
    assert Answers(c, s, events) == [Allow(c, s, key, at).1] + rest;
    assert ([Allow(c, s, key, at).1] + rest)[1..] == rest && AllTrue(n)[1..] == AllTrue(n - 1);
  }

  lemma {:induction false} RunConcat(c: Config, s: State, a: seq<Event>, b: seq<Event>)
    requires Tidy(s)
    ensures Run(c, s, a + b) == Run(c, Run(c, s, a), b)
    ensures Answers(c, s, a + b) == Answers(c, s, a) + Answers(c, Run(c, s, a), b)
    decreases |a|
  {
    hide Tidy, Step, Answer;
    if a == [] {
      assert a + b == b;
    } else {
      assert (a + b)[0] == a[0] && (a + b)[1..] == a[1..] + b;
      RunConcat(c, Step(c, s, a[0]), a[1..], b);
    }
  }

  lemma {:induction false} RequestsConcat(a: seq<Event>, b: seq<Event>)
    ensures Requests(a + b) == Requests(a) + Requests(b)
  {
    if a == [] {
      assert a + b == b;
    } else {
      assert (a + b)[0] == a[0] && (a + b)[1..] == a[1..] + b;
      RequestsConcat(a[1..], b);
    }
  }

  lemma {:induction false} RepeatInOrder(key: string, at: real, n: nat, rest: seq<Event>)
    requires InOrder(rest, at)
    ensures InOrder(Repeat(key, at, n) + rest, at) && Requests(Repeat(key, at, n)) == Repeat(key, at, n)
    ensures LastTime(Repeat(key, at, n), at) == at
  {
    if n == 0 {
      assert Repeat(key, at, n) + rest == rest;
    } else {
      var events := Repeat(key, at, n);
      assert events[0] == Request(key, at) && events[1..] == Repeat(key, at, n - 1);
      assert (events + rest)[1..] == Repeat(key, at, n - 1) + rest;
      RepeatInOrder(key, at, n - 1, rest);
    }
  }

  // A little after the idle time a spent bucket is still not full.
  lemma StillFilling(c: Config) returns (at: real)
    requires c.rate > 0.0 && Gain(c, IDLE) < c.burst as real
    ensures at > IDLE && Gain(c, at) < c.burst as real
  {
    var missing := c.burst as real - Gain(c, IDLE);
    var extra := missing / 2.0 / c.rate;
    assert extra * c.rate == missing / 2.0;
    at := IDLE + extra;
    GainSplits(c, IDLE, extra);
  }

  ghost predicate SweepsInvisible(c: Config) {
    Tidy(EMPTY) && forall events, clock :: InOrder(events, clock) ==>
      Answers(c, EMPTY, events) == Answers(c, EMPTY, Requests(events))
  }

  // Without a cap, sweeps never change an answer exactly when an idle bucket has had time to fill.
  lemma SweepsInvisibleExactly(c: Config)
    requires c.rate > 0.0 && c.maxKeys <= 0
    ensures SweepsInvisible(c) <==> Gain(c, IDLE) >= c.burst as real
  {
    hide Answers, Requests, Gain, Tidy;
    EmptyIsTidy();
    if Gain(c, IDLE) >= c.burst as real {
      forall events, clock | InOrder(events, clock)
        ensures Answers(c, EMPTY, events) == Answers(c, EMPTY, Requests(events))
      {
        SweepsChangeNoAnswer(c, events, clock);
      }
    } else {
      var events := SweepShows(c);
      assert InOrder(events, 0.0);
    }
  }

  lemma EmptyIsTidy()
    ensures Tidy(EMPTY)
  {
    assert Once(map[]) == {};
  }

  // Spend a whole burst, be swept, and spend another: without the sweep the bucket would not be full.
  lemma SweepShows(c: Config) returns (events: seq<Event>)
    requires c.rate > 0.0 && c.maxKeys <= 0 && Gain(c, IDLE) < c.burst as real
    ensures Tidy(EMPTY) && InOrder(events, 0.0) && Answers(c, EMPTY, events) != Answers(c, EMPTY, Requests(events))
  {
    hide Answers, Run, Requests, Repeat, AllTrue, Gain, Tidy, Timed, InOrder, Step, Sweep;
    EmptyIsTidy();
    GainSign(c, IDLE);
    var at := StillFilling(c);
    var n: nat := c.burst;
    var (a, b) := (Repeat("k", 0.0, n), Repeat("k", at, n));
    events := a + ([Cleanup(at, 0.0)] + b);
    ScheduleInOrder(at, n);
    RepeatAnswers(c, EMPTY, "k", 0.0, n);
    var s := Run(c, EMPTY, a);
    SpentBucket(c, s, at, n);
    RunConcat(c, EMPTY, a, [Cleanup(at, 0.0)] + b);
    RunConcat(c, s, [Cleanup(at, 0.0)], b);
    OneSweep(c, s, at);
    SweptIsFull(c, s, at, n);
    RepeatAnswers(c, Step(c, s, Cleanup(at, 0.0)), "k", at, n);
    RepeatAnswers(c, s, "k", at, n);
    RunConcat(c, EMPTY, a, b);
    var first := Answers(c, EMPTY, a);
    assert Answers(c, EMPTY, events) == first + Answers(c, Step(c, s, Cleanup(at, 0.0)), b);
    assert Answers(c, EMPTY, Requests(events)) == first + Answers(c, s, b);
    assert (first + AllTrue(n))[|first|..] == AllTrue(n);
    assert (first + Answers(c, s, b))[|first|..] == Answers(c, s, b);
  }

  lemma ScheduleInOrder(at: real, n: nat)
    requires at > 0.0
    ensures var (a, b) := (Repeat("k", 0.0, n), Repeat("k", at, n));
            InOrder(a + ([Cleanup(at, 0.0)] + b), 0.0) && Requests(a + ([Cleanup(at, 0.0)] + b)) == a + b
  {
    hide Repeat;
    var b := Repeat("k", at, n);
    RepeatInOrder("k", at, n, []);
    assert b + [] == b;
    assert ([Cleanup(at, 0.0)] + b)[1..] == b;
    assert Requests([]) == [] && [Cleanup(at, 0.0)][1..] == [];
    RepeatInOrder("k", 0.0, n, [Cleanup(at, 0.0)] + b);
    RequestsConcat(Repeat("k", 0.0, n), [Cleanup(at, 0.0)] + b);
    assert [] + b == b;
  }

  lemma OneSweep(c: Config, s: State, at: real)
    requires Tidy(s)
    ensures Run(c, s, [Cleanup(at, 0.0)]) == Step(c, s, Cleanup(at, 0.0)) && Answers(c, s, [Cleanup(at, 0.0)]) == []
  {
    hide Step;
    assert [Cleanup(at, 0.0)][1..] == [];
  }

  lemma SpentBucket(c: Config, s: State, at: real, n: nat)
    requires c.rate > 0.0 && c.burst == n && Gain(c, at) < n as real
    requires "k" in s.entries && s.entries["k"].lastCheck == 0.0 && s.entries["k"].tokens == 0.0
    ensures Level(c, s, "k", at) < n as real
  {
    hide Gain;
    assert at - 0.0 == at;
  }

  lemma SweptIsFull(c: Config, s: State, at: real, n: nat)
    requires c.rate > 0.0 && c.burst == n && at > IDLE && Tidy(EMPTY) && s == Run(c, EMPTY, Repeat("k", 0.0, n))
    requires "k" in s.entries && s.entries["k"].lastCheck == 0.0
    ensures Level(c, Step(c, s, Cleanup(at, 0.0)), "k", at) == n as real
  {
    hide Run, Repeat, Sweep, Tidy, Refill;
    RepeatInOrder("k", 0.0, n, []);
    assert Repeat("k", 0.0, n) + [] == Repeat("k", 0.0, n);
    ReachableStatesAreTimed(c, Repeat("k", 0.0, n), 0.0);
    SweepIsExact(c, s, 0.0, at);
  }

  /* ---------- Visits ---------- */

  function Visits(events: seq<Event>, key: string): nat {
    if events == [] then 0
    else (if events[0].Request? && events[0].key == key then 1 else 0) + Visits(events[1..], key)
  }

  function Hits(s: State, key: string): nat {
    if key in s.entries then s.entries[key].hits else 0
  }

  // A tracked key has been seen as often as its entry says, denied requests included.
  lemma {:induction false} HitsCountVisits(c: Config, s: State, events: seq<Event>, key: string)
    requires Tidy(s) && c.rate > 0.0 && StaysTracked(c, s, events, key)
    ensures Hits(Run(c, s, events), key) == Hits(s, key) + Visits(events, key)
    decreases |events|
  {
    hide Tidy, Allow, Sweep, Hits, Step;
    if events != [] {
      OneVisit(c, s, events[0], key);
      HitsCountVisits(c, Step(c, s, events[0]), events[1..], key);
    }
  }

  lemma OneVisit(c: Config, s: State, e: Event, key: string)
    requires Tidy(s) && c.rate > 0.0 && (key in s.entries ==> key in Step(c, s, e).entries)
    ensures Hits(Step(c, s, e), key) == Hits(s, key) + if e.Request? && e.key == key then 1 else 0
  {
    hide Tidy, Refill, Without, Evict, Sweep;
    Listed(s);
    if e.Request? && e.key == key {
      RoomKeepsEntries(c, s, key);
      assert Step(c, s, e).entries[key] == Charge(c, Found(c, Ready(c, s, key), key, e.at), e.at);
    } else {
      OthersKeepBucket(c, s, e, key);
    }
  }

  /* ---------- The advertised wait ---------- */

  lemma WaitSolves(c: Config, deficit: real, elapsed: real)
    requires c.rate > 0.0
    ensures Gain(c, elapsed) >= deficit <==> elapsed >= deficit / c.rate
  {
    var w := deficit / c.rate;
    assert Gain(c, w) == deficit;
    hide Gain;
    GainSign(c, elapsed - w);
    GainSplits(c, w, elapsed - w);
    assert w + (elapsed - w) == elapsed;
  }

  lemma RefillReachesOne(c: Config, e: Entry, at: real)
    requires c.burst >= 1
    ensures Refill(c, e, at) >= 1.0 <==> Gain(c, at - e.lastCheck) >= 1.0 - e.tokens
  {
    hide Gain;
    assert c.burst as real >= 1.0;
  }

  // A key without a token is allowed from exactly Wait seconds after it was last touched, and not
  // a moment earlier.
  lemma WaitIsExact(c: Config, s: State, key: string, at: real)
    requires Tidy(s) && c.rate > 0.0 && c.burst >= 1
    requires key in s.entries && s.entries[key].tokens < 1.0
    ensures Allow(c, s, key, at).1 <==> at >= s.entries[key].lastCheck + Wait(c, s, key)
  {
    hide Settle, Refill, Gain;
    var e := s.entries[key];
    WaitSolves(c, 1.0 - e.tokens, at - e.lastCheck);
    RefillReachesOne(c, e, at);
  }

  // Any other key is told to wait for nothing, and need not.
  lemma NoWaitIsNeeded(c: Config, s: State, key: string, at: real)
    requires Tidy(s) && c.rate > 0.0 && c.burst >= 1
    requires key in s.entries ==> s.entries[key].tokens >= 1.0 && at >= s.entries[key].lastCheck
    ensures Wait(c, s, key) == 0.0 && Allow(c, s, key, at).1
  {
    hide Allow, Gain, Tidy;
    AllowExactly(c, s, key, at);
    if key in s.entries {
      GainSign(c, at - s.entries[key].lastCheck);
      GainIs(c, at - s.entries[key].lastCheck);
    }
  }

  lemma GainIs(c: Config, duration: real)
    ensures Gain(c, duration) == duration * c.rate
  {
  }
}
