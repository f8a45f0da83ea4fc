/**
 What the token-bucket limiter of internal/ratelimit/limiter.go does to its tracked keys: a
 request, an eviction and an idle sweep as functions on the limiter's state.

 Time and tokens are reals and the clock is a parameter.  The mutable object that computes these
 functions is in Limiter.dfy, what they guarantee over whole runs in LimiterRuns.dfy.
 */
module LimiterState {

  datatype Entry = Entry(tokens: real, lastCheck: real, hits: nat)

  // Both lists hold the most recently used key first.
  datatype State = State(entries: map<string, Entry>, active: seq<string>, blocked: seq<string>, oneShot: int)

  datatype Config = Config(rate: real, burst: int, maxKeys: int)

  const EMPTY := State(map[], [], [], 0)

  /* ---------- Lists ---------- */

  predicate Distinct<T(==)>(l: seq<T>) {
    forall i, j :: 0 <= i < j < |l| ==> l[i] != l[j]
  }

  function Without(l: seq<string>, gone: set<string>): (r: seq<string>)
    ensures forall k :: k in r <==> k in l && k !in gone
    ensures Distinct(l) ==> Distinct(r)
  {
    if l == [] then []
    else
      var front, last := l[..|l| - 1], l[|l| - 1];
      var r := Without(front, gone);
      assert l == front + [last];
      if last in gone then r else r + [last]
  }

  // Least recently used first.
  function Rev(l: seq<string>): (r: seq<string>)
    ensures |r| == |l| && forall k :: k in r <==> k in l
    ensures forall i :: 0 <= i < |l| ==> r[i] == l[|l| - 1 - i]
  {
    if l == [] then [] else [l[|l| - 1]] + Rev(l[..|l| - 1])
  }

  predicate Tracked(entries: map<string, Entry>, l: seq<string>) {
    forall k :: k in l ==> k in entries
  }

  // Keys of l, least recently used first, seen exactly once (or more than once).
  function Scan(entries: map<string, Entry>, l: seq<string>, once: bool): (r: seq<string>)
    requires Tracked(entries, l)
    ensures forall k :: k in r <==> k in l && (entries[k].hits <= 1) == once
  {
    if l == [] then []
    else
      var front, last := l[..|l| - 1], l[|l| - 1];
      assert l == front + [last];
      (if (entries[last].hits <= 1) == once then [last] else []) + Scan(entries, front, once)
  }

  /* ---------- Removing keys ---------- */

  function Once(entries: map<string, Entry>): set<string> {
    set k | k in entries && entries[k].hits == 1
  }

  function Remove(s: State, gone: set<string>): State {
    State(s.entries - gone, Without(s.active, gone), Without(s.blocked, gone),
          s.oneShot - |Once(s.entries) * gone|)
  }

  // The bookkeeping the eviction passes rely on.
  ghost predicate Tidy(s: State) {
    && Distinct(s.active) && Distinct(s.blocked)
    && (forall k :: k in s.entries <==> k in s.active || k in s.blocked)
    && (forall k :: k in s.active ==> k !in s.blocked)
    && (forall k :: k in s.entries ==> s.entries[k].hits >= 1)
    && s.oneShot == |Once(s.entries)|
  }

  lemma {:induction false} WithoutTwice(l: seq<string>, a: set<string>, b: set<string>)
    ensures Without(Without(l, a), b) == Without(l, a + b)
    decreases |l|
  {
    if l != [] {
      var front, last := l[..|l| - 1], l[|l| - 1];
      WithoutTwice(front, a, b);
      if last !in a {
        var r := Without(front, a);
        assert (r + [last])[..|r|] == r;
      }
    }
  }

  lemma {:induction false} WithoutNothing(l: seq<string>, gone: set<string>)
    requires forall k :: k in l ==> k !in gone
    ensures Without(l, gone) == l
    decreases |l|
  {
    if l != [] {
      var front, last := l[..|l| - 1], l[|l| - 1];
      assert last in l && l == front + [last];
      WithoutNothing(front, gone);
    }
  }

  lemma {:induction false} WithoutConcat(a: seq<string>, b: seq<string>, gone: set<string>)
    ensures Without(a + b, gone) == Without(a, gone) + Without(b, gone)
    decreases |b|
  {
    if b == [] {
      assert a + b == a;
    } else {
      var front, last := b[..|b| - 1], b[|b| - 1];
      assert (a + b)[..|a + b| - 1] == a + front && (a + b)[|a + b| - 1] == last;
      WithoutConcat(a, front, gone);
    }
  }

  // Elements before one of a distinct list survive its removal in place.
  lemma WithoutPrefix(l: seq<string>, i: nat)
    requires i < |l| && Distinct(l)
    ensures i <= |Without(l, {l[i]})| && Without(l, {l[i]})[..i] == l[..i]
  {
    hide Without;
    assert l == l[..i] + l[i..];
    WithoutConcat(l[..i], l[i..], {l[i]});
    WithoutNothing(l[..i], {l[i]});
  }

  lemma RemoveKeepsTidy(s: State, gone: set<string>)
    requires Tidy(s)
    ensures Tidy(Remove(s, gone))
  {
    var o := Once(s.entries);
    assert Once(s.entries - gone) == o - gone;
    assert o == (o - gone) + o * gone;
  }

  lemma RemoveOne(s: State, k: string)
    requires Tidy(s) && k in s.entries
    ensures |Once(s.entries) * {k}| == if s.entries[k].hits == 1 then 1 else 0
    ensures s.entries[k].hits == 1 ==> s.oneShot > 0
  {
    assert Once(s.entries) * {k} == if s.entries[k].hits == 1 then {k} else {};
  }

  lemma RemoveTwice(s: State, a: set<string>, b: set<string>)
    requires a !! b
    ensures Remove(Remove(s, a), b) == Remove(s, a + b)
  {
    WithoutTwice(s.active, a, b);
    WithoutTwice(s.blocked, a, b);
    assert (s.entries - a) - b == s.entries - (a + b);
    var o := Once(s.entries);
    assert Once(s.entries - a) * b == o * b;
    assert o * (a + b) == o * a + o * b;
  }

  lemma RemoveNothing(s: State)
    ensures Remove(s, {}) == s
  {
    WithoutNothing(s.active, {});
    WithoutNothing(s.blocked, {});
    assert s.entries - {} == s.entries;
  }

  /* ---------- Eviction ---------- */

  function Elements(l: seq<string>): set<string> {
    set k | k in l
  }

  // Every tracked key in eviction order.
  function Victims(s: State): seq<string>
    requires Tracked(s.entries, s.active)
  {
    Scan(s.entries, s.active, true) + Scan(s.entries, s.active, false) + Rev(s.blocked)
  }

  function Take(l: seq<string>, n: int): seq<string> {
    if n <= 0 then [] else if n < |l| then l[..n] else l
  }

  function Evict(s: State, n: int): State
    requires Tracked(s.entries, s.active)
  {
    Remove(s, Elements(Take(Victims(s), n)))
  }

  lemma ElementsConcat(a: seq<string>, b: seq<string>)
    ensures Elements(a + b) == Elements(a) + Elements(b)
  {
  }

  lemma RemoveSeq(s: State, a: seq<string>, b: seq<string>)
    requires forall k :: k in b ==> k !in a
    ensures Remove(Remove(s, Elements(a)), Elements(b)) == Remove(s, Elements(a + b))
  {
    ElementsConcat(a, b);
    RemoveTwice(s, Elements(a), Elements(b));
  }

  // Dropping the one-shot keys of a list leaves its repeat visitors.
  lemma {:induction false} RepeatsRemain(entries: map<string, Entry>, l: seq<string>, gone: set<string>)
    requires Tracked(entries, l)
    requires forall k :: k in l ==> (k in gone <==> entries[k].hits <= 1)
    ensures Rev(Without(l, gone)) == Scan(entries, l, false)
    decreases |l|
  {
    if l != [] {
      var front, last := l[..|l| - 1], l[|l| - 1];
      assert last in l && l == front + [last];
      RepeatsRemain(entries, front, gone);
      var r := Without(front, gone);
      assert (r + [last])[..|r|] == r;
    }
  }

  // With the counter at zero the one-shot pass has nothing to find.
  lemma NoOneShot(s: State)
    requires Tidy(s)
    ensures s.oneShot == 0 ==> Scan(s.entries, s.active, true) == []
  {
    var r := Scan(s.entries, s.active, true);
    assert forall k :: k in r ==> k in Once(s.entries);
    assert r != [] ==> r[0] in r;
  }

  // The eviction order cut after the one-shot keys and after the active ones.
  lemma FirstPass(s: State, n: nat)
    requires Tidy(s)
    ensures var c1 := Scan(s.entries, s.active, true);
            if n <= |c1| then Evict(s, n) == Remove(s, Elements(Take(c1, n)))
            else Rev(Remove(s, Elements(c1)).active) == Scan(s.entries, s.active, false)
  {
    var c1 := Scan(s.entries, s.active, true);
    if n <= |c1| {
      assert Take(Victims(s), n) == Take(c1, n);
    } else {
      RepeatsRemain(s.entries, s.active, Elements(c1));
    }
  }

  lemma ScansApart(s: State, n: int)
    requires Tidy(s)
    ensures var c1, c2 := Scan(s.entries, s.active, true), Scan(s.entries, s.active, false);
            && (forall k :: k in Take(c2, n) ==> k !in c1)
            && (forall k :: k in s.blocked ==> k !in Elements(c1 + c2))
  {
  }

  lemma RemoveLists(s: State, gone: set<string>)
    ensures Remove(s, gone).active == Without(s.active, gone)
    ensures Remove(s, gone).blocked == Without(s.blocked, gone)
    ensures Remove(s, gone).entries == s.entries - gone
  {
  }

  // A key still listed after some removals is still tracked, with the entry it had.
  lemma Listed(s: State)
    requires Tidy(s)
    ensures Tracked(s.entries, s.active) && Tracked(s.entries, s.blocked)
    ensures forall k :: k in s.active ==> k !in s.blocked
    ensures forall k :: k in s.entries ==> k in s.active || k in s.blocked
  {
  }

  lemma StillListed(s: State, gone: set<string>, k: string)
    requires Tidy(Remove(s, gone))
    ensures k in Remove(s, gone).active + Remove(s, gone).blocked ==>
              && k in Remove(s, gone).entries && k !in gone && k in s.entries
              && Remove(s, gone).entries[k] == s.entries[k]
    ensures Distinct(Remove(s, gone).active) && Distinct(Remove(s, gone).blocked)
  {
  }

  lemma SecondPass(s: State, n: nat)
    requires Tidy(s)
    ensures var c1, c2 := Scan(s.entries, s.active, true), Scan(s.entries, s.active, false);
            n > |c1| ==>
              var s2 := Remove(Remove(s, Elements(c1)), Elements(Take(c2, n - |c1|)));
              if n <= |c1| + |c2| then Evict(s, n) == s2
              else s2 == Remove(s, Elements(c1 + c2)) && s2.blocked == s.blocked
  {
    hide Without, Remove, Scan, Rev, Once;
    var c1, c2 := Scan(s.entries, s.active, true), Scan(s.entries, s.active, false);
    if n > |c1| {
      ScansApart(s, n - |c1|);
      RemoveSeq(s, c1, Take(c2, n - |c1|));
      if n <= |c1| + |c2| {
        assert Take(Victims(s), n) == c1 + Take(c2, n - |c1|);
      } else {
        WithoutNothing(s.blocked, Elements(c1 + c2));
        RemoveLists(s, Elements(c1 + c2));
      }
    }
  }

  lemma ThirdPass(s: State, n: nat)
    requires Tidy(s)
    ensures var c1, c2 := Scan(s.entries, s.active, true), Scan(s.entries, s.active, false);
            n > |c1| + |c2| ==>
              Evict(s, n) == Remove(Remove(s, Elements(c1 + c2)), Elements(Take(Rev(s.blocked), n - |c1| - |c2|)))
  {
    hide Without, Remove, Scan, Rev, Once;
    var c1, c2 := Scan(s.entries, s.active, true), Scan(s.entries, s.active, false);
    if n > |c1| + |c2| {
      var c3 := Take(Rev(s.blocked), n - |c1| - |c2|);
      RemoveSeq(s, c1 + c2, c3);
      assert Take(Victims(s), n) == c1 + c2 + c3;
    }
  }

  /* ---------- One pass over one list ---------- */

  function Side(s: State, fromActive: bool): seq<string> {
    if fromActive then s.active else s.blocked
  }

  // What a pass would remove if nothing limited it.
  function Candidates(s: State, fromActive: bool, onlyOneShot: bool): seq<string>
    requires Tidy(s)
  {
    if onlyOneShot then Scan(s.entries, Side(s, fromActive), true) else Rev(Side(s, fromActive))
  }

  function CandidatesIn(s: State, l: seq<string>, onlyOneShot: bool): seq<string>
    requires Tracked(s.entries, l)
  {
    if onlyOneShot then Scan(s.entries, l, true) else Rev(l)
  }

  // The walk has removed `gone` and still has to visit the first i elements of its list.
  ghost predicate PassInvariant(s: State, fromActive: bool, onlyOneShot: bool, gone: seq<string>, i: int) {
    var l, now := Side(s, fromActive), Side(Remove(s, Elements(gone)), fromActive);
    && Tidy(s) && 0 <= i <= |l| && i <= |now| && l[..i] == now[..i]
    && Candidates(s, fromActive, onlyOneShot) == gone + CandidatesIn(s, l[..i], onlyOneShot)
  }

  lemma PassStarts(s: State, fromActive: bool, onlyOneShot: bool)
    requires Tidy(s)
    ensures PassInvariant(s, fromActive, onlyOneShot, [], |Side(s, fromActive)|)
    ensures Remove(s, Elements([])) == s
  {
    hide Without, Remove, Scan, Rev, Once;
    assert Elements([]) == {};
    RemoveNothing(s);
    var l := Side(s, fromActive);
    assert l[..|l|] == l;
  }

  lemma CandidateStep(s: State, l: seq<string>, onlyOneShot: bool)
    requires Tracked(s.entries, l) && l != []
    ensures CandidatesIn(s, l, onlyOneShot)
         == (if onlyOneShot && s.entries[l[|l| - 1]].hits > 1 then [] else [l[|l| - 1]])
            + CandidatesIn(s, l[..|l| - 1], onlyOneShot)
  {
  }

  lemma PassStep(s: State, fromActive: bool, onlyOneShot: bool, gone: seq<string>, i: int)
    requires PassInvariant(s, fromActive, onlyOneShot, gone, i) && i > 0
    requires Tidy(Remove(s, Elements(gone)))
    ensures var now := Remove(s, Elements(gone));
            i <= |Side(now, fromActive)| && Side(now, fromActive)[i - 1] in now.entries
    ensures var now := Remove(s, Elements(gone));
            var e := Side(now, fromActive)[i - 1];
            if onlyOneShot && now.entries[e].hits > 1 then PassInvariant(s, fromActive, onlyOneShot, gone, i - 1)
            else PassInvariant(s, fromActive, onlyOneShot, gone + [e], i - 1)
                 && Remove(now, {e}) == Remove(s, Elements(gone + [e]))
  {
    hide Without, Remove, Scan, Rev, Once, Tidy;
    var now, l := Remove(s, Elements(gone)), Side(s, fromActive);
    Listed(s);
    var left := Side(now, fromActive);
    var e := left[i - 1];
    assert l[..i][i - 1] == e && e in now.active + now.blocked;
    StillListed(s, Elements(gone), e);
    CandidateStep(s, l[..i], onlyOneShot);
    assert l[..i][..i - 1] == l[..i - 1] && left[..i][..i - 1] == left[..i - 1];
    if !(onlyOneShot && now.entries[e].hits > 1) {
      PassRemoves(s, fromActive, gone, i);
      var rest := CandidatesIn(s, l[..i - 1], onlyOneShot);
      assert gone + ([e] + rest) == gone + [e] + rest;
    }
  }

  // Removing the last element still to visit leaves those before it in place.
  lemma PassRemoves(s: State, fromActive: bool, gone: seq<string>, i: int)
    requires Tidy(Remove(s, Elements(gone))) && 0 < i <= |Side(Remove(s, Elements(gone)), fromActive)|
    requires Side(Remove(s, Elements(gone)), fromActive)[i - 1] !in gone
    ensures var now := Remove(s, Elements(gone));
            var (e, left) := (Side(now, fromActive)[i - 1], Side(now, fromActive));
            var after := Side(Remove(s, Elements(gone + [e])), fromActive);
            && Remove(now, {e}) == Remove(s, Elements(gone + [e]))
            && i - 1 <= |after| && after[..i - 1] == left[..i - 1]
  {
    hide Without, Remove, Once;
    var now := Remove(s, Elements(gone));
    var left := Side(now, fromActive);
    var e := left[i - 1];
    assert Elements([e]) == {e};
    RemoveSeq(s, gone, [e]);
    RemoveLists(now, {e});
    WithoutPrefix(left, i - 1);
  }

  lemma PassEnds(s: State, fromActive: bool, onlyOneShot: bool, gone: seq<string>, i: int, n: nat)
    requires PassInvariant(s, fromActive, onlyOneShot, gone, i)
    requires |gone| <= n && (i == 0 || |gone| == n)
    ensures Take(Candidates(s, fromActive, onlyOneShot), n) == gone
  {
    if i == 0 {
      assert CandidatesIn(s, Side(s, fromActive)[..0], onlyOneShot) == [];
    }
  }

  // How many keys one eviction pass removes: always one if there is any, never more than there are,
  // and otherwise nine tenths of the cap up to rounding down.
  function TrimCount(maxKeys: int, tracked: nat): (r: int)
    ensures tracked > 0 ==> 1 <= r <= tracked
    ensures tracked == 0 ==> r == 0
    ensures r <= 1 || r as real <= maxKeys as real * 0.9
    ensures r == tracked || r as real > maxKeys as real * 0.9 - 1.0
  {
    var trim := (maxKeys as real * 0.9).Floor;
    var trim := if trim < 1 then 1 else trim;
    if trim > tracked then tracked else trim
  }

  /* ---------- One request ---------- */

  // Tokens refilled in a duration.
  function Gain(c: Config, duration: real): real {
    duration * c.rate
  }

  function Refill(c: Config, e: Entry, now: real): real {
    var tokens := e.tokens + Gain(c, now - e.lastCheck);
    if tokens > c.burst as real then c.burst as real else tokens
  }

  function MakeRoom(c: Config, s: State): State
    requires Tracked(s.entries, s.active)
  {
    if c.maxKeys > 0 && |s.entries| >= c.maxKeys then Evict(s, TrimCount(c.maxKeys, |s.entries|)) else s
  }

  lemma MakeRoomIs(c: Config, s: State)
    requires Tracked(s.entries, s.active)
    ensures c.maxKeys > 0 && |s.entries| >= c.maxKeys ==> MakeRoom(c, s) == Evict(s, TrimCount(c.maxKeys, |s.entries|))
    ensures !(c.maxKeys > 0 && |s.entries| >= c.maxKeys) ==> MakeRoom(c, s) == s
  {
  }

  // The bucket a request finds, or the full one it creates.
  function Found(c: Config, m: State, key: string, now: real): Entry {
    if key in m.entries then m.entries[key] else Entry(c.burst as real, now, 0)
  }

  // The entry after its tokens were refilled and one was spent if there was one.
  function Charge(c: Config, e: Entry, now: real): Entry {
    var tokens := Refill(c, e, now);
    Entry(if tokens < 1.0 then tokens else tokens - 1.0, now, e.hits + 1)
  }

  function Place(s: State, key: string, isBlocked: bool): State {
    var a, b := Without(s.active, {key}), Without(s.blocked, {key});
    s.(active := if isBlocked then a else [key] + a, blocked := if isBlocked then [key] + b else b)
  }

  // Stores the charged bucket, counts it and files it under its new state.
  function Settle(m: State, key: string, e: Entry): State {
    var delta := if key !in m.entries then 1 else if m.entries[key].hits == 1 then -1 else 0;
    Place(m.(entries := m.entries[key := e], oneShot := m.oneShot + delta), key, e.tokens < 1.0)
  }

  function Ready(c: Config, s: State, key: string): State
    requires Tracked(s.entries, s.active)
  {
    if key in s.entries then s else MakeRoom(c, s)
  }

  function Allow(c: Config, s: State, key: string, now: real): (State, bool)
    requires Tracked(s.entries, s.active)
  {
    if c.rate <= 0.0 then (s, true)
    else
      var m := Ready(c, s, key);
      var e := Found(c, m, key, now);
      (Settle(m, key, Charge(c, e, now)), Refill(c, e, now) >= 1.0)
  }

  // Seconds until the key holds a token, computed from the tokens it had when last touched.
  function Wait(c: Config, s: State, key: string): real {
    if c.rate <= 0.0 || key !in s.entries || s.entries[key].tokens >= 1.0 then 0.0
    else (1.0 - s.entries[key].tokens) / c.rate
  }

  /* ---------- The idle sweep ---------- */

  const IDLE := 600.0

  // The stale keys at the back of a list, up to the first fresh one.
  function StaleTail(entries: map<string, Entry>, l: seq<string>, cutoff: real): (r: set<string>)
    requires Tracked(entries, l)
    ensures forall k :: k in r ==> k in l && entries[k].lastCheck < cutoff
  {
    if l == [] || entries[l[|l| - 1]].lastCheck >= cutoff then {}
    else {l[|l| - 1]} + StaleTail(entries, l[..|l| - 1], cutoff)
  }

  function Sweep(s: State, now: real): State
    requires Tracked(s.entries, s.active) && Tracked(s.entries, s.blocked)
  {
    Remove(s, StaleTail(s.entries, s.active, now - IDLE) + StaleTail(s.entries, s.blocked, now - IDLE))
  }

  // The sweep of one list has removed `gone` and is at the back of what is left of it.
  ghost predicate SweepInvariant(s: State, fromActive: bool, gone: set<string>, cutoff: real) {
    var l, left := Side(s, fromActive), Side(Remove(s, gone), fromActive);
    && Tidy(s) && |left| <= |l| && left == l[..|left|]
    && StaleTail(s.entries, l, cutoff) == gone + StaleTail(s.entries, left, cutoff)
  }

  lemma SweepStarts(s: State, fromActive: bool, cutoff: real)
    requires Tidy(s)
    ensures Remove(s, {}) == s && SweepInvariant(s, fromActive, {}, cutoff)
  {
    RemoveNothing(s);
    var l := Side(s, fromActive);
    assert l[..|l|] == l;
  }

  lemma WithoutLast(l: seq<string>)
    requires l != [] && Distinct(l)
    ensures Without(l, {l[|l| - 1]}) == l[..|l| - 1]
  {
    WithoutNothing(l[..|l| - 1], {l[|l| - 1]});
  }

  lemma SweepStep(s: State, fromActive: bool, gone: set<string>, cutoff: real)
    requires SweepInvariant(s, fromActive, gone, cutoff) && Tidy(Remove(s, gone))
    ensures var now := Remove(s, gone);
            var left := Side(now, fromActive);
            if left == [] then StaleTail(s.entries, Side(s, fromActive), cutoff) == gone
            else
              var e := left[|left| - 1];
              && e in now.entries
              && if now.entries[e].lastCheck < cutoff
                 then Remove(now, {e}) == Remove(s, gone + {e}) && SweepInvariant(s, fromActive, gone + {e}, cutoff)
                 else StaleTail(s.entries, Side(s, fromActive), cutoff) == gone
  {
    hide Without, Remove, Once, Tidy;
    var now := Remove(s, gone);
    var left := Side(now, fromActive);
    Listed(s);
    if left != [] {
      var e := left[|left| - 1];
      assert e in now.active + now.blocked;
      StillListed(s, gone, e);
      if now.entries[e].lastCheck < cutoff {
        RemoveTwice(s, gone, {e});
        RemoveLists(now, {e});
        WithoutLast(left);
      }
    }
  }

  lemma BackRemoved(s: State, fromActive: bool)
    requires Tidy(s) && Side(s, fromActive) != []
    ensures var l := Side(s, fromActive);
            |Side(Remove(s, {l[|l| - 1]}), fromActive)| < |l|
  {
    hide Without;
    WithoutLast(Side(s, fromActive));
  }

  lemma {:induction false} StaleTailOf(a: map<string, Entry>, b: map<string, Entry>, l: seq<string>, cutoff: real)
    requires Tracked(a, l) && Tracked(b, l) && forall k :: k in l ==> a[k] == b[k]
    ensures StaleTail(a, l, cutoff) == StaleTail(b, l, cutoff)
    decreases |l|
  {
    if l != [] {
      StaleTailOf(a, b, l[..|l| - 1], cutoff);
    }
  }

  // Sweeping the lists one after the other.
  lemma SweepInTwo(s: State, now: real)
    requires Tidy(s)
    ensures var r := Remove(s, StaleTail(s.entries, s.active, now - IDLE));
            Tidy(r) && Sweep(s, now) == Remove(r, StaleTail(r.entries, r.blocked, now - IDLE))
  {
    hide Without, Remove, Once;
    var a := StaleTail(s.entries, s.active, now - IDLE);
    RemoveKeepsTidy(s, a);
    RemoveLists(s, a);
    WithoutNothing(s.blocked, a);
    StaleTailOf(s.entries, s.entries - a, s.blocked, now - IDLE);
    RemoveTwice(s, a, StaleTail(s.entries, s.blocked, now - IDLE));
  }

  /* ---------- Every operation keeps the bookkeeping ---------- */

  lemma MakeRoomKeepsTidy(c: Config, s: State)
    requires Tidy(s)
    ensures Tidy(MakeRoom(c, s)) && MakeRoom(c, s).entries.Keys <= s.entries.Keys
  {
    if c.maxKeys > 0 && |s.entries| >= c.maxKeys {
      RemoveKeepsTidy(s, Elements(Take(Victims(s), TrimCount(c.maxKeys, |s.entries|))));
    }
  }

  lemma PlaceKeepsLists(s: State, key: string, isBlocked: bool)
    requires Distinct(s.active) && Distinct(s.blocked)
    requires forall k :: k in s.active ==> k !in s.blocked
    ensures var r := Place(s, key, isBlocked);
            && Distinct(r.active) && Distinct(r.blocked)
            && (forall k :: k in r.active ==> k !in r.blocked)
            && (forall k :: k in r.active || k in r.blocked <==> k == key || k in s.active || k in s.blocked)
            && (key in r.blocked <==> isBlocked)
  {
    hide Without;
    var a, b := Without(s.active, {key}), Without(s.blocked, {key});
    assert key !in a && key !in b;
    assert forall k :: k in [key] + a <==> k == key || k in a;
    assert forall k :: k in [key] + b <==> k == key || k in b;
  }

  // Touching one key: it is counted as one-shot exactly while it has one hit.
  lemma TouchCount(entries: map<string, Entry>, key: string, e: Entry)
    requires e.hits >= 1 && (key in entries ==> entries[key].hits >= 1)
    requires key in entries ==> e.hits == entries[key].hits + 1
    requires key !in entries ==> e.hits == 1
    ensures |Once(entries[key := e])|
         == |Once(entries)| + if key !in entries then 1 else if entries[key].hits == 1 then -1 else 0
  {
    var o := Once(entries);
    if key !in entries {
      assert Once(entries[key := e]) == o + {key};
    } else if entries[key].hits == 1 {
      assert Once(entries[key := e]) == o - {key};
    } else {
      assert Once(entries[key := e]) == o;
    }
  }

  lemma SettleKeepsTidy(m: State, key: string, e: Entry)
    requires Tidy(m) && e.hits == 1 + if key in m.entries then m.entries[key].hits else 0
    ensures Tidy(Settle(m, key, e))
  {
    hide Without, Once;
    TouchCount(m.entries, key, e);
    PlaceKeepsLists(m, key, e.tokens < 1.0);
  }

  lemma AllowKeepsTidy(c: Config, s: State, key: string, now: real)
    requires Tidy(s)
    ensures Tidy(Allow(c, s, key, now).0)
  {
    if c.rate > 0.0 {
      MakeRoomKeepsTidy(c, s);
      var m := Ready(c, s, key);
      hide Tidy, Settle, Ready;
      SettleKeepsTidy(m, key, Charge(c, Found(c, m, key, now), now));
    }
  }

  lemma SweepKeepsTidy(s: State, now: real)
    requires Tidy(s)
    ensures Tidy(Sweep(s, now))
  {
    RemoveKeepsTidy(s, StaleTail(s.entries, s.active, now - IDLE) + StaleTail(s.entries, s.blocked, now - IDLE));
  }
}
