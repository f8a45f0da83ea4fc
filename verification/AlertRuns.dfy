/**
 What the alert cursor protocol guarantees over a service's whole life, with crashes, failures and
 restarts anywhere.
 */
module AlertRuns {
  import opened Text
  import opened AlertState

  /* ---------- The log ---------- */

  predicate Ascending(log: seq<Event>) {
    forall i, j :: 0 <= i < j < |log| ==> AlertState.Less(log[i].key, log[j].key)
  }

  predicate Sound(db: Db) {
    && Ascending(db.log) && (forall e :: e in db.log ==> Given(db, e.key))
    && (db.stored.Some? ==> Given(db, db.stored.value)) && db.lastId >= 0
  }

  // A key the database can have given out by now.
  predicate Given(db: Db, k: Key) {
    k.at <= db.now && k.id <= db.lastId
  }

  /* ---------- Slices of the log ---------- */

  lemma {:induction false} BetweenIs(log: seq<Event>, lo: Key, hi: Option<Key>)
    requires Ascending(log)
    ensures forall e :: e in Between(log, lo, hi)
              <==> e in log && Wanted(e) && AlertState.Less(lo, e.key) && (hi == None || AtMost(e.key, hi.value))
    ensures Ascending(Between(log, lo, hi))
  {
    if log != [] {
      var n := |log| - 1;
      BetweenIs(log[..n], lo, hi);
      assert log == log[..n] + [log[n]];
      assert forall e :: e in log <==> e in log[..n] || e == log[n];
      var before := Between(log[..n], lo, hi);
      forall e | e in before
        ensures AlertState.Less(e.key, log[n].key)
      {
        assert e in log[..n];
      }
    }
  }

  lemma {:induction false} NoneBetween(log: seq<Event>, lo: Key, hi: Key)
    requires AtMost(hi, lo)
    ensures Between(log, lo, Some(hi)) == []
  {
    if log != [] {
      NoneBetween(log[..|log| - 1], lo, hi);
    }
  }

  // A later event changes no slice that ends before it.
  lemma BetweenGrows(log: seq<Event>, e: Event, lo: Key, hi: Key)
    requires AlertState.Less(hi, e.key)
    ensures Between(log + [e], lo, Some(hi)) == Between(log, lo, Some(hi))
  {
    assert (log + [e])[..|log|] == log;
  }

  // Slices that meet join up.
  lemma {:induction false} BetweenJoins(log: seq<Event>, a: Key, b: Key, c: Option<Key>)
    requires Ascending(log) && AtMost(a, b) && (c == None || AtMost(b, c.value))
    ensures Between(log, a, c) == Between(log, a, Some(b)) + Between(log, b, c)
  {
    if log != [] {
      var n := |log| - 1;
      var e := log[n];
      BetweenJoins(log[..n], a, b, c);
      if AtMost(e.key, b) {
        NothingAfter(log[..n], e, b, c);
      }
    }
  }

  lemma {:induction false} NothingAfter(log: seq<Event>, e: Event, b: Key, c: Option<Key>)
    requires Ascending(log + [e]) && AtMost(e.key, b)
    ensures Between(log, b, c) == []
  {
    if log != [] {
      var n := |log| - 1;
      assert (log + [e])[n] == log[n] && (log + [e])[|log|] == e;
      assert Ascending(log[..n] + [e]) by {
        forall i, j | 0 <= i < j < |log[..n] + [e]|
          ensures AlertState.Less((log[..n] + [e])[i].key, (log[..n] + [e])[j].key)
        {
          var k := if j == n then |log| else j;
          assert (log[..n] + [e])[i] == (log + [e])[i] && (log[..n] + [e])[j] == (log + [e])[k];
        }
      }
      NothingAfter(log[..n], e, b, c);
    }
  }

  // Where a sequence is cut when everything before the cut is at most its k-th key and everything
  // after it is greater.
  lemma CutPoint(a: seq<Event>, b: seq<Event>, k: nat)
    requires Ascending(a + b) && 0 < k <= |a + b|
    requires forall i :: 0 <= i < |a| ==> AtMost(a[i].key, (a + b)[k - 1].key)
    requires forall i :: 0 <= i < |b| ==> AlertState.Less((a + b)[k - 1].key, b[i].key)
    ensures |a| == k
  {
    var all := a + b;
    assert forall i :: |a| <= i < |all| ==> all[i] == b[i - |a|];
    assert forall i :: 0 <= i < |a| ==> all[i] == a[i];
    assert k < |all| ==> AlertState.Less(all[k - 1].key, all[k].key);
    assert k < |a| ==> AtMost(all[k].key, all[k - 1].key);
    assert k > |a| ==> AlertState.Less(all[k - 1].key, b[k - 1 - |a|].key);
  }

  // The first k pending events are the slice up to the last of them, and the rest stay pending.
  lemma PrefixIsSlice(log: seq<Event>, lo: Key, k: nat)
    requires Ascending(log) && 0 < k <= |Between(log, lo, None)|
    ensures var all := Between(log, lo, None);
            var last := all[k - 1].key;
            && AlertState.Less(lo, last) && all[..k] == Between(log, lo, Some(last))
            && all[k..] == Between(log, last, None)
  {
    hide Between, Ascending, AlertState.Less;
    var all := Between(log, lo, None);
    BetweenIs(log, lo, None);
    assert all[k - 1] in all;
    var last := all[k - 1].key;
    BetweenJoins(log, lo, last, None);
    var (a, b) := (Between(log, lo, Some(last)), Between(log, last, None));
    BetweenIs(log, lo, Some(last));
    BetweenIs(log, last, None);
    assert all == a + b;
    assert forall i :: 0 <= i < |a| ==> a[i] in a;
    assert forall i :: 0 <= i < |b| ==> b[i] in b;
    CutPoint(a, b, k);
  }

  /* ---------- Invariants ---------- */

  // Every wanted event after `start` and up to k is in a delivered page.
  ghost predicate DeliveredUpTo(s: State, start: Key, k: Key) {
    forall e :: e in s.db.log && Wanted(e) && AlertState.Less(start, e.key) && AtMost(e.key, k) ==> Delivered(s, e)
  }

  predicate Delivered(s: State, e: Event) {
    exists i :: 0 <= i < |s.delivered| && e in s.delivered[i]
  }

  // The database and the cursor are ones the clock allows.
  predicate Well(s: State) {
    Sound(s.db) && Given(s.db, s.cursor) && AtMost(s.since, s.cursor)
  }

  // What a running process has delivered is exactly the slice it has moved over, each event once and in
  // order.
  ghost predicate Contiguous(s: State) {
    s.up ==> s.sent == Between(s.db.log, s.since, Some(s.cursor))
  }

  // Nothing wanted between the start and the cursor, in memory or stored, is undelivered.
  ghost predicate Covered(s: State, start: Key) {
    DeliveredUpTo(s, start, s.cursor) && (s.db.stored.Some? ==> DeliveredUpTo(s, start, s.db.stored.value))
  }

  // The stored cursor never passes the one in memory.
  predicate Behind(s: State) {
    s.db.stored.Some? ==> AtMost(s.db.stored.value, s.cursor)
  }

  /* ---------- Arrivals ---------- */

  ghost predicate Beyond(db: Db, k: Key) {
    forall given :: Given(db, given) ==> AlertState.Less(given, k)
  }

  // Only the log and the clock move, and what is added lies beyond every key given out before.
  ghost predicate Extends(db: Db, db': Db) {
    && Sound(db') && db'.stored == db.stored && db.now <= db'.now && db.lastId <= db'.lastId
    && (forall e :: e in db.log ==> e in db'.log) && (forall e :: e in db'.log && e !in db.log ==> Beyond(db, e.key))
  }

  lemma ArriveExtends(db: Db, a: Arrival)
    requires Sound(db)
    ensures Extends(db, Arrive(db, a))
    ensures |Arrive(db, a).log| == |db.log| + 1 && Arrive(db, a).log == db.log + [Arrive(db, a).log[|db.log|]]
    ensures Beyond(db, Arrive(db, a).log[|db.log|].key)
  {
    var db' := Arrive(db, a);
    forall i, j | 0 <= i < j < |db'.log|
      ensures AlertState.Less(db'.log[i].key, db'.log[j].key)
    {
      assert db.log[i] in db.log;
    }
  }

  lemma ExtendsTwice(a: Db, b: Db, c: Db)
    requires Extends(a, b) && Extends(b, c)
    ensures Extends(a, c)
  {
    hide Sound, AlertState.Less;
    assert forall k :: Given(a, k) ==> Given(b, k);
  }

  lemma {:induction false} ArriveAllExtends(db: Db, arrivals: seq<Arrival>)
    requires Sound(db)
    ensures Extends(db, ArriveAll(db, arrivals))
    decreases |arrivals|
  {
    hide Arrive, Extends, Beyond;
    if arrivals == [] {
      ExtendsItself(db);
    } else {
      var db1 := Arrive(db, arrivals[0]);
      ArriveExtends(db, arrivals[0]);
      ExtendsSound(db, db1);
      ArriveAllExtends(db1, arrivals[1..]);
      ExtendsTwice(db, db1, ArriveAll(db1, arrivals[1..]));
    }
  }

  lemma ExtendsItself(db: Db)
    requires Sound(db)
    ensures Extends(db, db)
  {
  }

  lemma ExtendsSound(db: Db, db': Db)
    requires Extends(db, db')
    ensures Sound(db')
  {
  }

  // Slices up to a key given out before do not change.
  lemma {:induction false} SlicesStay(db: Db, arrivals: seq<Arrival>, lo: Key, hi: Key)
    requires Sound(db) && Given(db, hi)
    ensures Between(ArriveAll(db, arrivals).log, lo, Some(hi)) == Between(db.log, lo, Some(hi))
    decreases |arrivals|
  {
    hide Between, Sound, Arrive;
    if arrivals != [] {
      var db1 := Arrive(db, arrivals[0]);
      ArriveExtends(db, arrivals[0]);
      BetweenGrows(db.log, db1.log[|db.log|], lo, hi);
      SlicesStay(db1, arrivals[1..], lo, hi);
    }
  }

  /* ---------- What each step keeps ---------- */

  // Everything that holds whatever restarts do.
  ghost predicate Inv(s: State) {
    Well(s) && Contiguous(s)
  }

  // Nothing wanted after the start is lost.
  ghost predicate Safe(s: State, start: Key) {
    Well(s) && Covered(s, start)
  }

  // A step that loses nothing and does not let the stored cursor pass the one in memory.
  ghost predicate Carries(s: State, s': State, start: Key) {
    (Safe(s, start) ==> Safe(s', start)) && (Behind(s) ==> Behind(s'))
  }

  lemma ArrivalKeeps(s: State, arrivals: seq<Arrival>, start: Key)
    requires Inv(s)
    ensures var s' := s.(db := ArriveAll(s.db, arrivals)); Inv(s') && Carries(s, s', start)
  {
    hide Sound, AlertState.Less, Between;
    ArriveAllExtends(s.db, arrivals);
    SlicesStay(s.db, arrivals, s.since, s.cursor);
    if Safe(s, start) {
      StillCovered(s, s.(db := ArriveAll(s.db, arrivals)), start);
    }
  }

  lemma BeyondIsLater(db: Db, k: Key, hi: Key)
    requires Beyond(db, k) && Given(db, hi)
    ensures !AtMost(k, hi)
  {
  }

  lemma SoundStored(db: Db)
    requires Sound(db)
    ensures db.stored.Some? ==> Given(db, db.stored.value)
  {
  }

  lemma StillCovered(s: State, s': State, start: Key)
    requires Well(s) && Covered(s, start) && Extends(s.db, s'.db) && s'.cursor == s.cursor && s'.delivered == s.delivered
    ensures Covered(s', start)
  {
    hide Sound, AtMost, AlertState.Less, Beyond, Given;
    SoundStored(s.db);
    forall e | e in s'.db.log && e !in s.db.log
      ensures !AtMost(e.key, s.cursor) && (s.db.stored.Some? ==> !AtMost(e.key, s.db.stored.value))
    {
      BeyondIsLater(s.db, e.key, s.cursor);
      if s.db.stored.Some? {
        BeyondIsLater(s.db, e.key, s.db.stored.value);
      }
    }
    assert forall e :: Delivered(s, e) ==> Delivered(s', e);
  }

  // Delivering the next page and moving past it.
  lemma AdvanceKeeps(s: State, written: bool, start: Key)
    requires Inv(s) && s.up && Page(s.db, s.cursor) != []
    ensures var page := Page(s.db, s.cursor);
            var s' := Advance(Deliver(s, page), page[|page| - 1].key, written);
            Inv(s') && Carries(s, s', start)
  {
    hide Between, AlertState.Less;
    var page := Page(s.db, s.cursor);
    var k := |page|;
    var last := page[k - 1].key;
    var pending := Pending(s.db, s.cursor);
    assert pending[..k] == page;
    PrefixIsSlice(s.db.log, s.cursor, k);
    BetweenJoins(s.db.log, s.since, s.cursor, Some(last));
    BetweenIs(s.db.log, s.cursor, None);
    BetweenIs(s.db.log, s.cursor, Some(last));
    assert page[k - 1] in pending;
    var s' := Advance(Deliver(s, page), last, written);
    JustAfter(s.since, s.cursor, last);
    if Safe(s, start) {
      PageCovers(s, s', page, last, start);
    }
    if Behind(s) && s.db.stored.Some? {
      JustAfter(s.db.stored.value, s.cursor, last);
    }
  }

  lemma JustAfter(a: Key, b: Key, c: Key)
    requires AtMost(a, b) && AlertState.Less(b, c)
    ensures AtMost(a, c)
  {
  }

  lemma PageCovers(s: State, s': State, page: seq<Event>, last: Key, start: Key)
    requires Covered(s, start)
    requires forall e :: e in s.db.log && Wanted(e) && AlertState.Less(s.cursor, e.key) && AtMost(e.key, last) ==>
               e in page
    requires s'.delivered == s.delivered + [page] && s'.db.log == s.db.log && s'.cursor == last
    requires s'.db.stored == s.db.stored || s'.db.stored == Some(last)
    ensures Covered(s', start)
  {
    hide Wanted;
    forall e | Delivered(s, e) || e in page
      ensures Delivered(s', e)
    {
      if e in page {
        assert e in s'.delivered[|s.delivered|];
      } else {
        var i :| 0 <= i < |s.delivered| && e in s.delivered[i];
        assert e in s'.delivered[i];
      }
    }
  }

  // A page that was sent but not recorded is only history; the page is sent again.
  lemma ResendKeeps(s: State, page: seq<Event>, start: Key)
    requires Inv(s)
    ensures var s' := Deliver(s, page).(up := false); Inv(s') && Carries(s, s', start)
  {
    hide Sound, AlertState.Less;
    var s' := Deliver(s, page).(up := false);
    forall e | Delivered(s, e)
      ensures Delivered(s', e)
    {
      var i :| 0 <= i < |s.delivered| && e in s.delivered[i];
      assert e in s'.delivered[i];
    }
  }

  lemma DownKeeps(s: State, start: Key)
    requires Inv(s)
    ensures Inv(s.(up := false)) && Carries(s, s.(up := false), start)
  {
    hide Sound, AlertState.Less;
    assert forall e :: Delivered(s, e) ==> Delivered(s.(up := false), e);
  }

  lemma {:induction false} PagesKeep(s: State, script: seq<PageScript>, left: nat, start: Key)
    requires Inv(s) && s.up
    ensures var s' := Pages(s, script, left).0; Inv(s') && Carries(s, s', start)
    decreases left
  {
    hide Inv, Safe, Behind, Page, Deliver, Advance, ArriveAll;
    if left > 0 {
      if script == [] {
        DownKeeps(s, start);
      } else {
        var s0 := s.(db := ArriveAll(s.db, script[0].arrivals));
        ArrivalKeeps(s, script[0].arrivals, start);
        DownKeeps(s0, start);
        var page := Page(s0.db, s0.cursor);
        var outcome := script[0].outcome;
        if page != [] {
          ResendKeeps(s0, page, start);
          if outcome.Sent? || outcome.DiesStoring? {
            var s1 := Advance(Deliver(s0, page), page[|page| - 1].key, outcome.written);
            AdvanceKeeps(s0, outcome.written, start);
            DownKeeps(s1, start);
            AdvanceStaysUp(s0, page, page[|page| - 1].key, outcome.written);
            PagesKeep(s1, script[1..], left - 1, start);
          }
        }
      }
    }
  }

  lemma AdvanceStaysUp(s: State, page: seq<Event>, last: Key, written: bool)
    ensures Advance(Deliver(s, page), last, written).up == s.up
  {
  }

  // The restart finds no stored cursor it can read and starts at the current second.
  predicate FallsBack(s: State, op: Op) {
    op.Restarts? && !s.up && !(op.loads && s.db.stored.Some?)
  }

  // A fallback that skips no wanted event but delivered ones.
  ghost predicate Harmless(s: State, op: Op, start: Key) {
    FallsBack(s, op) ==>
      forall e :: e in Between(s.db.log, s.cursor, Some(Key(s.db.now, 0))) && AlertState.Less(start, e.key) ==>
        Delivered(s, e)
  }

  // A fallback in the very second of the stored event, which stays ahead.
  predicate FallsBehind(s: State, op: Op) {
    FallsBack(s, op) && s.db.stored.Some? && s.db.stored.value.at == s.db.now && s.db.stored.value.id > 0
  }

  // A step loses nothing exactly when it is no fallback past an undelivered event, and leaves the
  // stored cursor behind exactly when it is no fallback in the second of the stored event.
  lemma StepExactly(s: State, op: Op, start: Key)
    requires Inv(s)
    ensures Inv(Step(s, op))
    ensures Safe(s, start) ==> (Safe(Step(s, op), start) <==> Harmless(s, op, start))
    ensures Behind(s) ==> (Behind(Step(s, op)) <==> !FallsBehind(s, op))
  {
    hide Inv, Safe, Behind, Pages, Start, ArriveAll, Between;
    match op
    case Runs(script) =>
      if s.up {
        var s0 := s.(db := ArriveAll(s.db, script.arrivals));
        ArrivalKeeps(s, script.arrivals, start);
        PagesKeep(s0, script.pages, MAX_PAGES, start);
      }
    case Arrives(arrivals) => ArrivalKeeps(s, arrivals, start);
    case Waits(time) => WaitKeeps(s, time, start);
    case Crashes => DownKeeps(s, start);
    case Restarts(loads) =>
      if !s.up {
        RestartExactly(s, op, start);
      }
  }

  lemma WaitKeeps(s: State, time: nat, start: Key)
    requires Inv(s)
    ensures var s' := s.(db := s.db.(now := s.db.now + time)); Inv(s') && Carries(s, s', start)
  {
    hide Ascending, AlertState.Less, Between;
    var s' := s.(db := s.db.(now := s.db.now + time));
    assert forall k :: Given(s.db, k) ==> Given(s'.db, k);
    assert forall e :: Delivered(s, e) ==> Delivered(s', e);
  }

  lemma StartHolds(db: Db, loads: bool, delivered: seq<seq<Event>>)
    requires Sound(db)
    ensures Inv(Start(db, loads, delivered))
  {
    hide Ascending, AlertState.Less, Between;
    var s := Start(db, loads, delivered);
    NoneBetween(db.log, s.cursor, s.cursor);
  }

  lemma RestartExactly(s: State, op: Op, start: Key)
    requires Inv(s) && op.Restarts? && !s.up
    ensures var s' := Start(s.db, op.loads, s.delivered);
            && Inv(s') && (Safe(s, start) ==> (Safe(s', start) <==> Harmless(s, op, start)))
            && (Behind(s) ==> (Behind(s') <==> !FallsBehind(s, op)))
  {
    hide Ascending, Between;
    var s' := Start(s.db, op.loads, s.delivered);
    StartHolds(s.db, op.loads, s.delivered);
    assert forall e :: Delivered(s', e) <==> Delivered(s, e);
    if FallsBack(s, op) {
      BetweenIs(s.db.log, s.cursor, Some(Key(s.db.now, 0)));
      if Safe(s, start) {
        FallbackCovers(s, s', op, start);
      }
    }
  }

  lemma FallbackCovers(s: State, s': State, op: Op, start: Key)
    requires Safe(s, start) && FallsBack(s, op) && s' == Start(s.db, op.loads, s.delivered)
    requires forall e :: Delivered(s', e) <==> Delivered(s, e)
    ensures Covered(s', start) <==> Harmless(s, op, start)
  {
    hide Between;
    BetweenIs(s.db.log, s.cursor, Some(Key(s.db.now, 0)));
  }

  /* ---------- Lives ---------- */

  lemma {:induction false} LiveTo(s: State, ops: seq<Op>, n: nat)
    requires n < |ops|
    ensures Live(s, ops[..n + 1]) == Step(Live(s, ops[..n]), ops[n])
    decreases n
  {
    hide Step;
    assert ops[..n + 1][0] == ops[0] && ops[..n + 1][1..] == ops[1..][..n];
    if n == 0 {
      assert ops[..0] == [] && ops[1..][..0] == [];
      NoSteps(s);
      NoSteps(Step(s, ops[0]));
    } else {
      assert ops[..n][1..] == ops[1..][..n - 1];
      LiveTo(Step(s, ops[0]), ops[1..], n - 1);
    }
  }

  lemma {:induction false} InvTo(s: State, ops: seq<Op>, n: nat)
    requires Inv(s) && n <= |ops|
    ensures Inv(Live(s, ops[..n]))
  {
    hide Inv, Step, Live;
    if n == 0 {
      assert ops[..0] == [];
      NoSteps(s);
    } else {
      InvTo(s, ops, n - 1);
      LiveTo(s, ops, n - 1);
      StepExactly(Live(s, ops[..n - 1]), ops[n - 1], Key(0, 0));
    }
  }

  // Nothing is lost at any point of a life.
  ghost predicate AlwaysSafe(s: State, ops: seq<Op>, start: Key) {
    forall n :: 0 <= n <= |ops| ==> Safe(Live(s, ops[..n]), start)
  }

  // Every fallback of a life is harmless.
  ghost predicate AllHarmless(s: State, ops: seq<Op>, start: Key) {
    forall n :: 0 <= n < |ops| ==> Harmless(Live(s, ops[..n]), ops[n], start)
  }

  // The stored cursor is never ahead of the one in memory.
  ghost predicate AlwaysBehind(s: State, ops: seq<Op>) {
    forall n :: 0 <= n <= |ops| ==> Behind(Live(s, ops[..n]))
  }

  ghost predicate NeverFallsBehind(s: State, ops: seq<Op>) {
    forall n :: 0 <= n < |ops| ==> !FallsBehind(Live(s, ops[..n]), ops[n])
  }

  lemma {:induction false} HarmlessTo(s: State, ops: seq<Op>, start: Key, n: nat)
    requires Inv(s) && n <= |ops|
    ensures Safe(s, start) && AllHarmless(s, ops, start) ==> Safe(Live(s, ops[..n]), start)
    ensures Behind(s) && NeverFallsBehind(s, ops) ==> Behind(Live(s, ops[..n]))
  {
    hide Inv, Step, Live, Safe, Harmless, Behind, FallsBehind;
    if n == 0 {
      assert ops[..0] == [];
      NoSteps(s);
    } else {
      HarmlessTo(s, ops, start, n - 1);
      InvTo(s, ops, n - 1);
      LiveTo(s, ops, n - 1);
      StepExactly(Live(s, ops[..n - 1]), ops[n - 1], start);
    }
  }

  lemma LifeExactly(s: State, ops: seq<Op>, start: Key)
    requires Inv(s) && Safe(s, start) && Behind(s)
    ensures AlwaysSafe(s, ops, start) <==> AllHarmless(s, ops, start)
    ensures AlwaysBehind(s, ops) <==> NeverFallsBehind(s, ops)
  {
    hide Inv, Step, Live, Safe, Harmless, Behind, FallsBehind;
    forall n | 0 <= n <= |ops|
      ensures AllHarmless(s, ops, start) ==> Safe(Live(s, ops[..n]), start)
      ensures NeverFallsBehind(s, ops) ==> Behind(Live(s, ops[..n]))
    {
      HarmlessTo(s, ops, start, n);
    }
    forall n | 0 <= n < |ops|
      ensures AlwaysSafe(s, ops, start) ==> Harmless(Live(s, ops[..n]), ops[n], start)
      ensures AlwaysBehind(s, ops) ==> !FallsBehind(Live(s, ops[..n]), ops[n])
    {
      InvTo(s, ops, n);
      LiveTo(s, ops, n);
      StepExactly(Live(s, ops[..n]), ops[n], start);
    }
  }

  /* ---------- Theorems ---------- */

  // In any life, however processes die and restart, a running process has delivered exactly the
  // wanted events between where it started and its cursor, in order and once each.
  lemma PagesAreContiguous(db: Db, loads: bool, ops: seq<Op>)
    requires Sound(db)
    ensures var s := Live(Start(db, loads, []), ops);
            s.up ==> s.sent == Between(s.db.log, s.since, Some(s.cursor))
  {
    hide Sound, Live, Start;
    StartHolds(db, loads, []);
    InvTo(Start(db, loads, []), ops, |ops|);
    assert ops[..|ops|] == ops;
  }

  // A wanted event is delivered on all channels or still ahead of the cursor in memory and the stored
  // one.
  ghost predicate Accounted(s: State, e: Event) {
    Delivered(s, e)
    || (AlertState.Less(s.cursor, e.key) && (s.db.stored.Some? ==> AlertState.Less(s.db.stored.value, e.key)))
  }

  // At every point of a life each wanted event after the starting point is accounted for, exactly when
  // no restart falls back past an undelivered one; and the stored cursor never passes the one in
  // memory, exactly when none falls back in the second of the stored event.
  lemma NothingIsLost(db: Db, loads: bool, ops: seq<Op>)
    requires Sound(db) && Behind(Start(db, loads, []))
    ensures var s0 := Start(db, loads, []);
            && (AlwaysSafe(s0, ops, s0.cursor) <==> AllHarmless(s0, ops, s0.cursor))
            && (AlwaysBehind(s0, ops) <==> NeverFallsBehind(s0, ops))
            && (AllHarmless(s0, ops, s0.cursor) ==>
                  var s := Live(s0, ops);
                  forall e :: e in s.db.log && Wanted(e) && AlertState.Less(s0.cursor, e.key) ==> Accounted(s, e))
  {
    hide Sound, Live, AllHarmless, AlwaysSafe, AlwaysBehind, NeverFallsBehind;
    var s0 := Start(db, loads, []);
    StartHolds(db, loads, []);
    FreshIsSafe(s0);
    LifeExactly(s0, ops, s0.cursor);
    HarmlessTo(s0, ops, s0.cursor, |ops|);
    assert ops[..|ops|] == ops;
    if Safe(Live(s0, ops), s0.cursor) {
      SafeAccounts(Live(s0, ops), s0.cursor);
    }
  }

  lemma FreshIsSafe(s: State)
    requires Well(s) && Behind(s)
    ensures Safe(s, s.cursor)
  {
    hide Sound;
  }

  lemma SafeAccounts(s: State, start: Key)
    requires Safe(s, start)
    ensures forall e :: e in s.db.log && Wanted(e) && AlertState.Less(start, e.key) ==> Accounted(s, e)
  {
    hide Sound;
  }

  // No page was delivered and then cut off by a crash before the cursor moved.
  predicate NoneAhead(s: State) {
    forall e :: e in s.db.log && Delivered(s, e) ==> AtMost(e.key, s.cursor)
  }

  // A restart that falls back to the current second keeps the guarantee if no wanted event was logged
  // between the lost cursor and that second, and, unless a crash cut off a delivered page, only then.
  lemma FallbackExactly(s: State, start: Key)
    requires Safe(s, start) && AtMost(start, s.cursor)
    ensures var s' := Start(s.db, false, s.delivered);
            var missed := Between(s.db.log, s.cursor, Some(Key(s.db.now, 0)));
            && (missed == [] ==> Covered(s', start) && forall op :: Harmless(s, op, start))
            && (NoneAhead(s) ==> (Covered(s', start) <==> missed == []))
  {
    hide Between;
    var s' := Start(s.db, false, s.delivered);
    var missed := Between(s.db.log, s.cursor, Some(Key(s.db.now, 0)));
    BetweenIs(s.db.log, s.cursor, Some(Key(s.db.now, 0)));
    assert forall e :: Delivered(s', e) <==> Delivered(s, e);
    if missed == [] {
      assert forall e :: e !in missed;
    } else {
      assert missed[0] in missed;
    }
  }

  lemma LiveStep(s: State, op: Op, rest: seq<Op>)
    ensures Live(s, [op] + rest) == Live(Step(s, op), rest)
  {
    hide Step;
    assert ([op] + rest)[1..] == rest;
  }

  lemma OneArrival(db: Db, a: Arrival)
    ensures ArriveAll(db, [a]) == Arrive(db, a)
  {
    assert [a][1..] == [];
    assert ArriveAll(Arrive(db, a), []) == Arrive(db, a);
  }

  // What a fallback skips: an event raised before any cursor was persisted, then a crash and a
  // restart in a later second.  Loading works, but there is nothing to load.
  lemma FallbackSkips(arrival: Arrival, wait: nat, loads: bool)
    requires arrival.kind == "auto_block" && wait > 0
    ensures var s := Live(Start(Db([], None, 0, 0), true, []),
                          [Arrives([arrival]), Crashes, Waits(wait), Restarts(loads)]);
            && |s.db.log| == 1 && Wanted(s.db.log[0]) && s.delivered == [] && Pending(s.db, s.cursor) == []
  {
    hide Live, ArriveAll, Between;
    var s0 := Start(Db([], None, 0, 0), true, []);
    assert [Arrives([arrival]), Crashes, Waits(wait), Restarts(loads)]
        == [Arrives([arrival])] + ([Crashes] + ([Waits(wait)] + ([Restarts(loads)] + [])));
    LiveStep(s0, Arrives([arrival]), [Crashes] + ([Waits(wait)] + ([Restarts(loads)] + [])));
    OneArrival(s0.db, arrival);
    var s1 := Step(s0, Arrives([arrival]));
    LiveStep(s1, Crashes, [Waits(wait)] + ([Restarts(loads)] + []));
    var s2 := Step(s1, Crashes);
    LiveStep(s2, Waits(wait), [Restarts(loads)] + []);
    var s3 := Step(s2, Waits(wait));
    LiveStep(s3, Restarts(loads), []);
    var s := Step(s3, Restarts(loads));
    assert s.db.log == [Event(Key(arrival.wait, 1 + arrival.gap), "auto_block")];
    AlreadyPassed(s.db.log[0], s.cursor);
    NoSteps(s);
  }

  lemma NoSteps(s: State)
    ensures Live(s, []) == s
  {
  }

  lemma AlreadyPassed(e: Event, lo: Key)
    requires !AlertState.Less(lo, e.key)
    ensures Between([e], lo, None) == []
  {
    assert [e][..0] == [];
  }

  /* ---------- A cycle without failures ---------- */

  predicate Clean(script: seq<PageScript>) {
    forall p :: p in script ==> p.arrivals == [] && p.outcome.Sent?
  }

  // It delivers the pending events in order, up to its page budget.
  lemma {:induction false} CleanCycleDrains(s: State, script: seq<PageScript>, left: nat)
    requires Inv(s) && s.up && Clean(script) && |script| >= left
    ensures var pending := Pending(s.db, s.cursor);
            var (s', end) := Pages(s, script, left);
            var n := if |pending| < left * PAGE_SIZE then |pending| else left * PAGE_SIZE;
            end == Done && s'.up && s'.sent == s.sent + pending[..n] && Pending(s'.db, s'.cursor) == pending[n..]
    decreases left
  {
    hide Between, Inv, ArriveAll, Pages, Deliver, Advance, Page, Pending;
    var pending := Pending(s.db, s.cursor);
    if left == 0 {
      NoPages(s, script);
    } else {
      assert script[0] in script && forall p :: p in script[1..] ==> p in script;
      NoArrivals(s.db);
      PagesStep(s, script, left);
      var page := Page(s.db, s.cursor);
      PageIsPrefix(s.db, s.cursor);
      if page != [] {
        var s1 := Advance(Deliver(s, page), page[|page| - 1].key, script[0].outcome.written);
        CleanPage(s, script[0].outcome.written);
        if |page| == PAGE_SIZE {
          CleanCycleDrains(s1, script[1..], left - 1);
          Regroup(pending, left);
        }
      }
    }
  }

  lemma NoPages(s: State, script: seq<PageScript>)
    ensures Pages(s, script, 0) == (s, Done)
  {
  }

  lemma PageIsPrefix(db: Db, cursor: Key)
    ensures var (page, pending) := (Page(db, cursor), Pending(db, cursor));
            && |page| == (if |pending| < PAGE_SIZE then |pending| else PAGE_SIZE) && page == pending[..|page|]
  {
    hide Pending;
  }

  // One delivered page moves it from the pending events to the sent ones.
  lemma CleanPage(s: State, written: bool)
    requires Inv(s) && s.up && Page(s.db, s.cursor) != []
    ensures var page := Page(s.db, s.cursor);
            var s1 := Advance(Deliver(s, page), page[|page| - 1].key, written);
            Inv(s1) && s1.up && s1.sent == s.sent + page && Pending(s1.db, s1.cursor) == Pending(s.db, s.cursor)[|page|..]
  {
    hide Between, Inv;
    PageLeaves(s, |Page(s.db, s.cursor)|);
    AdvanceKeeps(s, written, Key(0, 0));
  }

  lemma Regroup(pending: seq<Event>, left: nat)
    requires left > 0 && |pending| >= PAGE_SIZE
    ensures var rest := pending[PAGE_SIZE..];
            var m := if |rest| < (left - 1) * PAGE_SIZE then |rest| else (left - 1) * PAGE_SIZE;
            var n := if |pending| < left * PAGE_SIZE then |pending| else left * PAGE_SIZE;
            pending[..PAGE_SIZE] + rest[..m] == pending[..n] && rest[m..] == pending[n..]
  {
  }

  lemma NoArrivals(db: Db)
    ensures ArriveAll(db, []) == db
  {
  }

  lemma PageLeaves(s: State, k: nat)
    requires Inv(s) && 0 < k <= |Pending(s.db, s.cursor)|
    ensures var pending := Pending(s.db, s.cursor);
            Between(s.db.log, pending[k - 1].key, None) == pending[k..]
  {
    hide Between, Ascending;
    PrefixIsSlice(s.db.log, s.cursor, k);
  }

  /* ---------- What a cycle is about, and how it ends ---------- */

  // The pending events are the logged blocks and feed errors after the cursor, in order; a page is the
  // first hundred of them.
  lemma PendingExactly(db: Db, cursor: Key)
    requires Sound(db)
    ensures var pending := Pending(db, cursor);
            && Ascending(pending)
            && (forall e :: e in pending <==>
                  e in db.log && e.kind in {"auto_block", "feed_error"}
                  && (e.key.at > cursor.at || (e.key.at == cursor.at && e.key.id > cursor.id)))
            && Page(db, cursor) == if |pending| <= 100 then pending else pending[..100]
  {
    hide Between, Ascending;
    BetweenIs(db.log, cursor, None);
  }

  // Without a channel, or below the threshold of pending events, a cycle does nothing; when counting fails
  // it reports the failure and does nothing.
  lemma GatedCycle(s: State, r: RunScript)
    ensures var s0 := s.(db := ArriveAll(s.db, r.arrivals));
            && (!r.channels ==> RunCycle(s, r) == (s0, Done))
            && (r.channels && !r.countOk ==> RunCycle(s, r) == (s0, Failed))
            && (r.channels && r.countOk && |Pending(s0.db, s0.cursor)| < r.minEvents ==> RunCycle(s, r) == (s0, Done))
            && (r.channels && r.countOk && |Pending(s0.db, s0.cursor)| >= r.minEvents ==>
                  RunCycle(s, r) == Pages(s0, r.pages, 20))
  {
    hide ArriveAll, Pages, Pending;
  }

  // A query that fails, or a page that does not reach every channel, ends the cycle with an error and
  // leaves the cursor, in memory and stored, and what was delivered as they were, so that the next cycle
  // starts over with that page.
  lemma FailureLeavesThePage(s: State, script: seq<PageScript>, left: nat)
    requires left > 0 && script != []
    requires var page := Page(ArriveAll(s.db, script[0].arrivals), s.cursor);
             script[0].outcome == QueryFails || (script[0].outcome == SendFails && page != [])
    ensures Pages(s, script, left) == (s.(db := ArriveAll(s.db, script[0].arrivals)), Failed)
  {
    hide ArriveAll, Page, Pages;
    PagesStep(s, script, left);
  }

  // A page that reached every channel moves the cursor to its last event, in memory and, when the write
  // succeeds, in the database; the cycle goes on exactly when the page was full.
  lemma SentMovesOn(s: State, script: seq<PageScript>, left: nat)
    requires left > 0 && script != [] && script[0].outcome.Sent?
    requires Page(ArriveAll(s.db, script[0].arrivals), s.cursor) != []
    ensures var db := ArriveAll(s.db, script[0].arrivals);
            var page := Page(db, s.cursor);
            var last := page[|page| - 1].key;
            var s1 := State(if script[0].outcome.written then db.(stored := Some(last)) else db, last, s.up,
                            s.delivered + [page], s.since, s.sent + page);
            Pages(s, script, left) == if |page| < 100 then (s1, Done) else Pages(s1, script[1..], left - 1)
  {
    hide ArriveAll, Page, Pages;
    PagesStep(s, script, left);
  }
}
