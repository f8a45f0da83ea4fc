/**
 Runs of several writers on one threat feed: every interleaving of clock reads, writes, sweeps and
 renames, each writer with windows of its own.
 */
module FeedRuns {
  import opened Text
  import opened FeedExpiry

  // The state after the first k operations.
  function At(s: State, ops: seq<Op>, k: nat): State
    requires k <= |ops|
  {
    Live(s, ops[..k])
  }

  lemma Next(s: State, ops: seq<Op>, k: nat)
    requires k < |ops|
    ensures At(s, ops, k + 1) == Step(At(s, ops, k), ops[k])
  {
    hide Step;
    assert ops[..k + 1][..k] == ops[..k];
  }

  /* ---------- One operation ---------- */

  // Every score is the one of the member's last write.
  ghost predicate Scored(s: State) {
    forall d :: d in s.live ==> d in s.wrote && s.live[d] == Expiry(s.wrote[d])
  }

  // Whether an operation takes a member out that it does not write.
  predicate Removes(s: State, op: Op, d: string) {
    match op
    case Sweeps(late) => d in s.live && s.live[d] <= (s.now - late) / SECOND
    case Renames(_, _, _, _) => LeavesOut(s, op, d)
    case _ => false
  }

  // A replace sync installs a set without the member.
  predicate LeavesOut(s: State, op: Op, d: string) {
    op.Renames? && Written(s, op) != map[] && d !in Written(s, op)
  }

  // What an operation does to one member.
  lemma OneStep(s: State, op: Op, d: string)
    requires Scored(s)
    ensures var (r, put) := (Step(s, op), Written(s, op));
            && Scored(r) && r.now >= s.now
            && (d in r.wrote <==> d in put || d in s.wrote)
            && (d in r.wrote ==> r.wrote[d] == if d in put then put[d] else s.wrote[d])
            && (d in r.live <==> d in put || (d in s.live && !Removes(s, op, d)))
            && (d in r.live ==> r.live[d] == if d in put then Expiry(put[d]) else s.live[d])
  {
    hide Entries, Expiry;
    var put := Written(s, op);
    assert Scores(put).Keys == put.Keys;
  }

  lemma {:induction false} ScoredAlways(s: State, ops: seq<Op>, k: nat)
    requires Scored(s) && k <= |ops|
    ensures Scored(At(s, ops, k)) && At(s, ops, k).now >= s.now
  {
    hide Written, Scored, Step;
    if k > 0 {
      ScoredAlways(s, ops, k - 1);
      Next(s, ops, k - 1);
      OneStep(At(s, ops, k - 1), ops[k - 1], "");
    }
  }

  /* ---------- A member that stays ahead ---------- */

  // The member is in the feed and expires after the current second.
  predicate Ahead(s: State, d: string) {
    d in s.live && s.live[d] > s.now / SECOND
  }

  // Its last write does.
  predicate Current(s: State, d: string) {
    d in s.wrote && Expiry(s.wrote[d]) > s.now / SECOND
  }

  ghost predicate AlwaysAhead(s: State, ops: seq<Op>, d: string) {
    forall k :: 0 <= k <= |ops| ==> Ahead(At(s, ops, k), d)
  }

  ghost predicate AlwaysCurrent(s: State, ops: seq<Op>, d: string) {
    forall k :: 0 <= k <= |ops| ==> Current(At(s, ops, k), d)
  }

  ghost predicate NeverLeftOut(s: State, ops: seq<Op>, d: string) {
    forall k :: 0 <= k < |ops| ==> !LeavesOut(At(s, ops, k), ops[k], d)
  }

  // In every interleaving a member is in the feed and ahead at all times exactly when its last write is
  // current at all times and no replace sync leaves it out: no sweep, however late, takes it away.
  lemma AheadExactly(s: State, ops: seq<Op>, d: string)
    requires Scored(s) && d in s.live
    ensures AlwaysAhead(s, ops, d) <==> AlwaysCurrent(s, ops, d) && NeverLeftOut(s, ops, d)
  {
    hide Step, Written, Expiry, Scored, At;
    if AlwaysAhead(s, ops, d) {
      forall k | 0 <= k <= |ops|
        ensures Current(At(s, ops, k), d)
      {
        ScoredAlways(s, ops, k);
        ScoredFacts(At(s, ops, k), d);
      }
      forall k | 0 <= k < |ops|
        ensures !LeavesOut(At(s, ops, k), ops[k], d)
      {
        ScoredAlways(s, ops, k);
        Next(s, ops, k);
        OneStep(At(s, ops, k), ops[k], d);
        assert Ahead(At(s, ops, k + 1), d);
      }
    }
    if AlwaysCurrent(s, ops, d) && NeverLeftOut(s, ops, d) {
      forall k | 0 <= k <= |ops|
        ensures Ahead(At(s, ops, k), d)
      {
        StaysAhead(s, ops, d, k);
      }
    }
  }

  lemma ScoredFacts(s: State, d: string)
    requires Scored(s) && d in s.live
    ensures d in s.wrote && s.live[d] == Expiry(s.wrote[d])
  {
  }

  lemma {:induction false} StaysAhead(s: State, ops: seq<Op>, d: string, k: nat)
    requires Scored(s) && d in s.live && AlwaysCurrent(s, ops, d) && NeverLeftOut(s, ops, d) && k <= |ops|
    ensures Ahead(At(s, ops, k), d)
  {
    hide Step, Written, Expiry, Scored;
    assert Current(At(s, ops, k), d);
    ScoredAlways(s, ops, k);
    if k == 0 {
      ScoredFacts(s, d);
    } else {
      StaysAhead(s, ops, d, k - 1);
      ScoredAlways(s, ops, k - 1);
      Next(s, ops, k - 1);
      OneStep(At(s, ops, k - 1), ops[k - 1], d);
      assert !LeavesOut(At(s, ops, k - 1), ops[k - 1], d);
      ScoredFacts(At(s, ops, k), d);
    }
  }

  // The last write of the member scored it by a clock read at most `age` ago, with that window.
  predicate Relisted(s: State, d: string, age: int, ttl: int) {
    d in s.wrote && s.now - s.wrote[d].at <= age && s.wrote[d].ttl >= ttl
  }

  ghost predicate AlwaysRelisted(s: State, ops: seq<Op>, d: string, age: int, ttl: int) {
    forall k :: 0 <= k <= |ops| ==> Relisted(At(s, ops, k), d, age, ttl)
  }

  // A relisted member keeps blocking through any run of any number of writers, whatever fails.
  lemma ListedNeverExpires(s: State, ops: seq<Op>, d: string, age: nat, ttl: int)
    requires Scored(s) && d in s.live && ttl >= age + SECOND
    requires AlwaysRelisted(s, ops, d, age, ttl) && NeverLeftOut(s, ops, d)
    ensures AlwaysAhead(s, ops, d)
    ensures forall k :: 0 <= k <= |ops| ==> Matches(At(s, ops, k).live, d, At(s, ops, k).now)
  {
    hide At, LeavesOut;
    forall k | 0 <= k <= |ops|
      ensures Current(At(s, ops, k), d)
    {
      var r := At(s, ops, k);
      assert Relisted(r, d, age, ttl);
      LaterBySecond(r.now, r.wrote[d].at + r.wrote[d].ttl);
    }
    AheadExactly(s, ops, d);
    forall k | 0 <= k <= |ops|
      ensures Matches(At(s, ops, k).live, d, At(s, ops, k).now)
    {
      assert Ahead(At(s, ops, k), d);
    }
  }

  ghost predicate NeverExpires(age: nat, ttl: int) {
    forall s, ops, d :: Scored(s) && d in s.live && AlwaysRelisted(s, ops, d, age, ttl) && NeverLeftOut(s, ops, d)
      ==> AlwaysAhead(s, ops, d)
  }

  // That second of margin is needed, and it is enough.
  lemma WindowExactly(age: nat, ttl: int)
    requires ttl > 0
    ensures NeverExpires(age, ttl) <==> ttl >= age + SECOND
  {
    hide AlwaysAhead, AlwaysRelisted, NeverLeftOut, Scored;
    if ttl >= age + SECOND {
      forall s, ops, d | Scored(s) && d in s.live && AlwaysRelisted(s, ops, d, age, ttl) && NeverLeftOut(s, ops, d)
        ensures AlwaysAhead(s, ops, d)
      {
        ListedNeverExpires(s, ops, d, age, ttl);
      }
    } else {
      ShortWindowExpires(age, ttl);
    }
  }

  const UNIFORM := (ttl: int) => Policy(_ => true, _ => false, ttl, 0)

  // Written by a clock whose age is reached on a whole second.
  lemma ShortWindowExpires(age: nat, ttl: int)
    requires 0 < ttl < age + SECOND
    ensures !NeverExpires(age, ttl)
  {
    var (d, p, start) := ("a.b", UNIFORM(ttl), SECOND * (age + 1) - age);
    var s := Live(State(map[], start, map[], map[]), [Reads(0), Writes(0, p, [d])]);
    FirstListing(State(map[], start, map[], map[]), p, d);
    var ops := [Waits(age)];
    Next(s, ops, 0);
    assert ops[..0] == [];
    assert At(s, ops, 0) == s && At(s, ops, 1) == s.(now := start + age);
    assert AlwaysRelisted(s, ops, d, age, ttl) && NeverLeftOut(s, ops, d);
    assert (start + ttl) / SECOND <= age + 1 == (start + age) / SECOND;
    assert !Ahead(At(s, ops, 1), d);
  }

  lemma FirstListing(s: State, p: Policy, d: string)
    ensures var written := Wrote(s.now, MemberTTL(d, p));
            Live(s, [Reads(0), Writes(0, p, [d])])
            == State(s.live[d := Expiry(written)], s.now, s.wrote[d := written], s.clocks[0 := s.now])
  {
    hide Live, Entries, Scores, Written, Step, MemberTTL, Expiry;
    var (read, write) := (Reads(0), Writes(0, p, [d]));
    assert [] + [read] == [read] && [read] + [write] == [read, write];
    OneMore(s, [], read);
    OneMore(s, [read], write);
    Started(s);
    WritesOne(Step(s, read), 0, p, d);
  }

  lemma Started(s: State)
    ensures Live(s, []) == s && Step(s, Reads(0)) == s.(clocks := s.clocks[0 := s.now])
  {
  }

  // A write of one member.
  lemma WritesOne(s: State, w: nat, p: Policy, d: string)
    requires w in s.clocks
    ensures var written := Wrote(s.clocks[w], MemberTTL(d, p));
            Step(s, Writes(w, p, [d])) == s.(live := s.live[d := Expiry(written)], wrote := s.wrote[d := written])
  {
    hide MemberTTL, Expiry, Entries, Scores;
    OneEntry(p, d, s.clocks[w]);
  }

  lemma OneEntry(p: Policy, d: string, at: int)
    ensures Entries(p, [d], at) == map[d := Wrote(at, MemberTTL(d, p))]
    ensures Scores(Entries(p, [d], at)) == map[d := Expiry(Wrote(at, MemberTTL(d, p)))]
  {
    hide MemberTTL, Expiry;
  }

  // The age of a member's score is the time since its last write plus the time that write took from its
  // clock read: when a member is written within every period, by syncs that take no longer than a
  // timeout, its score is never older than both together.
  ghost predicate Prompt(s: State, ops: seq<Op>, d: string, timeout: nat) {
    forall k :: 0 <= k < |ops| && d in Written(At(s, ops, k), ops[k]) ==>
                  At(s, ops, k).now - Written(At(s, ops, k), ops[k])[d].at <= timeout
  }

  ghost predicate WrittenSince(s: State, ops: seq<Op>, d: string, k: nat, period: nat)
    requires k <= |ops|
  {
    exists j :: 0 <= j < k && d in Written(At(s, ops, j), ops[j]) && At(s, ops, k).now - At(s, ops, j).now <= period
  }

  lemma PromptSyncsRelist(s: State, ops: seq<Op>, d: string, k: nat, period: nat, timeout: nat)
    requires Scored(s) && Prompt(s, ops, d, timeout) && k <= |ops| && WrittenSince(s, ops, d, k, period)
    ensures var r := At(s, ops, k); d in r.wrote && r.now - r.wrote[d].at <= period + timeout
  {
    hide Written, Step, Live, Scored;
    var j :| 0 <= j < k && d in Written(At(s, ops, j), ops[j]) && At(s, ops, k).now - At(s, ops, j).now <= period;
    NoOlder(s, ops, d, j, k, timeout);
  }

  lemma {:induction false} NoOlder(s: State, ops: seq<Op>, d: string, j: nat, k: nat, timeout: nat)
    requires Scored(s) && Prompt(s, ops, d, timeout) && j < k <= |ops| && d in Written(At(s, ops, j), ops[j])
    ensures var (r, since) := (At(s, ops, k), At(s, ops, j).now);
            d in r.wrote && r.now >= since && r.wrote[d].at >= since - timeout
  {
    hide Written, Step, Live, Scored;
    if j < k - 1 {
      NoOlder(s, ops, d, j, k - 1, timeout);
    }
    ScoredAlways(s, ops, k - 1);
    Next(s, ops, k - 1);
    OneStep(At(s, ops, k - 1), ops[k - 1], d);
  }

  /* ---------- From checked settings to members that stay ---------- */

  // Settings in whole units whose windows exceed the interval, as the startup check asks of churn windows.
  predicate Checked(p: Policy, interval: nat, unit: nat) {
    && unit > 0 && ChurnFits(p.churn, interval) && BaseTTL(p) > interval
    && BaseTTL(p) % unit == 0 && p.churn % unit == 0 && interval % unit == 0
  }

  ghost predicate AllChecked(ops: seq<Op>, interval: nat, unit: nat) {
    forall k :: 0 <= k < |ops| && Puts(ops[k]) ==> Checked(ops[k].p, interval, unit)
  }

  // The member was written within the period before operation k, or the run began with its write.
  ghost predicate ListedWithin(s: State, ops: seq<Op>, d: string, k: nat, period: nat)
    requires k <= |ops|
  {
    At(s, ops, k).now - s.now <= period || WrittenSince(s, ops, d, k, period)
  }

  ghost predicate AlwaysListed(s: State, ops: seq<Op>, d: string, period: nat) {
    forall k :: 0 <= k <= |ops| ==> ListedWithin(s, ops, d, k, period)
  }

  // Syncs that start within every interval and end within a timeout write a listed member at least once
  // in interval and timeout together, by clocks no older than the timeout.  When every writer's settings
  // are checked, in units that exceed two timeouts by a second, the member stays in the feed, ahead and
  // matching, in every interleaving of those writers and whatever fails.
  lemma CheckedSyncsNeverExpire(s: State, ops: seq<Op>, d: string, p: Policy, interval: nat, timeout: nat, unit: nat)
    requires Scored(s) && d in s.live && s.wrote[d].ttl == MemberTTL(d, p) && s.now - s.wrote[d].at <= timeout
    requires unit >= timeout + timeout + SECOND && Checked(p, interval, unit) && AllChecked(ops, interval, unit)
    requires Prompt(s, ops, d, timeout) && AlwaysListed(s, ops, d, interval + timeout) && NeverLeftOut(s, ops, d)
    ensures AlwaysAhead(s, ops, d)
    ensures forall k :: 0 <= k <= |ops| ==> Matches(At(s, ops, k).live, d, At(s, ops, k).now)
  {
    hide Scored, Checked, AllChecked, Prompt, MemberTTL, At, NeverLeftOut, AlwaysAhead;
    var age := interval + timeout + timeout;
    CheckedMargin(d, p, interval, timeout, unit);
    ScoredFacts(s, d);
    forall k | 0 <= k <= |ops|
      ensures Relisted(At(s, ops, k), d, age, age + SECOND)
    {
      WindowKept(s, ops, d, interval, timeout, unit, k);
      assert ListedWithin(s, ops, d, k, interval + timeout);
      if WrittenSince(s, ops, d, k, interval + timeout) {
        PromptSyncsRelist(s, ops, d, k, interval + timeout, timeout);
      }
    }
    ListedNeverExpires(s, ops, d, age, age + SECOND);
  }

  lemma CheckedMargin(d: string, p: Policy, interval: nat, timeout: nat, unit: nat)
    requires unit >= timeout + timeout + SECOND && Checked(p, interval, unit)
    ensures MemberTTL(d, p) >= interval + timeout + timeout + SECOND
  {
    CheckedConfigHasMargin(d, p, interval, unit, timeout + timeout);
  }

  // Every write gives the member a window with the margin, by a clock no older than the start's.
  lemma {:induction false} WindowKept(s: State, ops: seq<Op>, d: string, interval: nat, timeout: nat, unit: nat, k: nat)
    requires Scored(s) && d in s.wrote && s.wrote[d].ttl >= interval + timeout + timeout + SECOND
    requires s.now - s.wrote[d].at <= timeout && unit >= timeout + timeout + SECOND
    requires AllChecked(ops, interval, unit) && Prompt(s, ops, d, timeout) && k <= |ops|
    ensures var r := At(s, ops, k);
            && d in r.wrote && r.wrote[d].ttl >= interval + timeout + timeout + SECOND
            && r.wrote[d].at >= s.now - timeout
  {
    hide Scored, Written, Step, Live, Checked, MemberTTL;
    if k == 0 {
      NoneYet(s, ops);
    } else {
      var (r, op) := (At(s, ops, k - 1), ops[k - 1]);
      WindowKept(s, ops, d, interval, timeout, unit, k - 1);
      ScoredAlways(s, ops, k - 1);
      Next(s, ops, k - 1);
      OneStep(r, op, d);
      if d in Written(r, op) {
        PutIs(r, op, d);
        CheckedMargin(d, op.p, interval, timeout, unit);
      }
    }
  }

  /* ---------- Scores that never fall ---------- */

  // Whenever the member is in the feed, its score is at least any it had before.
  ghost predicate NeverFalls(s: State, ops: seq<Op>, d: string) {
    forall i, j :: 0 <= i <= j <= |ops| && d in At(s, ops, i).live && d in At(s, ops, j).live ==>
                     At(s, ops, i).live[d] <= At(s, ops, j).live[d]
  }

  // The operation writes the member with an earlier expiry than the last write did.
  predicate RollsBack(s: State, op: Op, d: string) {
    d in Written(s, op) && d in s.wrote && Expiry(Written(s, op)[d]) < Expiry(s.wrote[d])
  }

  ghost predicate NeverRollsBack(s: State, ops: seq<Op>, d: string) {
    forall k :: 0 <= k < |ops| ==> !RollsBack(At(s, ops, k), ops[k], d)
  }

  // ZADD overwrites.  In every interleaving a member's score never falls exactly when no write is
  // scored by an earlier end of the window than the last one.
  lemma NeverFallsExactly(s: State, ops: seq<Op>, d: string)
    requires Scored(s) && (d in s.live || d !in s.wrote)
    ensures NeverFalls(s, ops, d) <==> NeverRollsBack(s, ops, d)
  {
    hide Written, Step, Expiry, Scored, At;
    if NeverRollsBack(s, ops, d) {
      forall i, j | 0 <= i <= j <= |ops| && d in At(s, ops, i).live && d in At(s, ops, j).live
        ensures At(s, ops, i).live[d] <= At(s, ops, j).live[d]
      {
        ScoredAlways(s, ops, i);
        ScoredAlways(s, ops, j);
        ScoredFacts(At(s, ops, i), d);
        ScoredFacts(At(s, ops, j), d);
        Climbs(s, ops, d, i, j);
      }
    }
    if NeverFalls(s, ops, d) {
      forall k | 0 <= k < |ops|
        ensures !RollsBack(At(s, ops, k), ops[k], d)
      {
        if RollsBack(At(s, ops, k), ops[k], d) {
          FallsAt(s, ops, d, k);
        }
      }
    }
  }

  lemma FallsAt(s: State, ops: seq<Op>, d: string, k: nat)
    requires Scored(s) && (d in s.live || d !in s.wrote) && k < |ops| && RollsBack(At(s, ops, k), ops[k], d)
    ensures !NeverFalls(s, ops, d)
  {
    hide Written, Step, Expiry, Scored, At;
    var i := LastWriteShows(s, ops, d, k);
    ScoredAlways(s, ops, k);
    Next(s, ops, k);
    OneStep(At(s, ops, k), ops[k], d);
    assert At(s, ops, i).live[d] > At(s, ops, k + 1).live[d];
  }

  lemma {:induction false} Climbs(s: State, ops: seq<Op>, d: string, i: nat, j: nat)
    requires Scored(s) && NeverRollsBack(s, ops, d) && i <= j <= |ops| && d in At(s, ops, i).wrote
    ensures d in At(s, ops, j).wrote && Expiry(At(s, ops, i).wrote[d]) <= Expiry(At(s, ops, j).wrote[d])
  {
    hide Written, Step, Expiry, Scored, At;
    if i < j {
      Climbs(s, ops, d, i, j - 1);
      ScoredAlways(s, ops, j - 1);
      Next(s, ops, j - 1);
      OneStep(At(s, ops, j - 1), ops[j - 1], d);
      assert !RollsBack(At(s, ops, j - 1), ops[j - 1], d);
    }
  }

  // The last write of a member was in the feed with its score at some time.
  lemma {:induction false} LastWriteShows(s: State, ops: seq<Op>, d: string, k: nat) returns (i: nat)
    requires Scored(s) && (d in s.live || d !in s.wrote) && k <= |ops| && d in At(s, ops, k).wrote
    ensures i <= k && d in At(s, ops, i).live && At(s, ops, i).live[d] == Expiry(At(s, ops, k).wrote[d])
  {
    hide Written, Step, Expiry, Scored;
    ScoredAlways(s, ops, k);
    i := k;
    if d in At(s, ops, k).live {
      ScoredFacts(At(s, ops, k), d);
    } else {
      ScoredAlways(s, ops, k - 1);
      Next(s, ops, k - 1);
      OneStep(At(s, ops, k - 1), ops[k - 1], d);
      i := LastWriteShows(s, ops, d, k - 1);
    }
  }

  // The writer that last read the clock.
  function Reader(ops: seq<Op>, k: nat): Option<nat>
    requires k <= |ops|
  {
    if k == 0 then None else if ops[k - 1].Reads? then Some(ops[k - 1].writer) else Reader(ops, k - 1)
  }

  predicate Puts(op: Op) {
    op.Writes? || op.Renames?
  }

  // No writer reads its clock between the clock read and a write of another, and all give the member
  // the same window.
  ghost predicate Serial(ops: seq<Op>, d: string, ttl: int) {
    forall k :: 0 <= k < |ops| && Puts(ops[k]) ==>
                  Reader(ops, k) == Some(ops[k].writer) && MemberTTL(d, ops[k].p) == ttl
  }

  // Syncs that do not overlap never lower a score.
  lemma SerialSyncsRise(s: State, ops: seq<Op>, d: string, ttl: int)
    requires Scored(s) && (d in s.live || d !in s.wrote) && Serial(ops, d, ttl)
    requires d in s.wrote ==> s.wrote[d].at <= s.now && s.wrote[d].ttl == ttl
    ensures NeverFalls(s, ops, d)
  {
    hide Step, Live, Scored, Written, Expiry;
    forall k | 0 <= k < |ops|
      ensures !RollsBack(At(s, ops, k), ops[k], d)
    {
      InClockOrder(s, ops, d, ttl, k);
      SameWindow(At(s, ops, k), ops[k], d, ttl);
    }
    NeverFallsExactly(s, ops, d);
  }

  ghost predicate Ordered(r: State, reader: Option<nat>, d: string, ttl: int) {
    && (d in r.wrote ==> r.wrote[d].at <= r.now && r.wrote[d].ttl == ttl)
    && (reader.Some? ==>
          && reader.value in r.clocks && r.clocks[reader.value] <= r.now
          && (d in r.wrote ==> r.wrote[d].at <= r.clocks[reader.value]))
  }

  // What an operation writes is scored by its writer's clock.
  lemma PutIs(s: State, op: Op, d: string)
    requires d in Written(s, op)
    ensures Puts(op) && op.writer in s.clocks && Written(s, op)[d] == Wrote(s.clocks[op.writer], MemberTTL(d, op.p))
    ensures d in op.domains
  {
    hide MemberTTL, Expiry;
  }

  lemma SameWindow(s: State, op: Op, d: string, ttl: int)
    requires Puts(op) ==> Ordered(s, Some(op.writer), d, ttl) && MemberTTL(d, op.p) == ttl
    ensures !RollsBack(s, op, d)
  {
    hide Written, MemberTTL;
    if d in Written(s, op) && d in s.wrote {
      PutIs(s, op, d);
    }
  }

  lemma {:induction false} InClockOrder(s: State, ops: seq<Op>, d: string, ttl: int, k: nat)
    requires Scored(s) && Serial(ops, d, ttl) && k <= |ops|
    requires d in s.wrote ==> s.wrote[d].at <= s.now && s.wrote[d].ttl == ttl
    ensures Ordered(At(s, ops, k), Reader(ops, k), d, ttl)
  {
    hide Scored, Written, Expiry, MemberTTL, Live;
    if k == 0 {
      NoneYet(s, ops);
    } else {
      var r := At(s, ops, k - 1);
      InClockOrder(s, ops, d, ttl, k - 1);
      Next(s, ops, k - 1);
      if d in Written(r, ops[k - 1]) {
        PutIs(r, ops[k - 1], d);
      }
    }
  }

  lemma NoneYet(s: State, ops: seq<Op>)
    ensures At(s, ops, 0) == s
  {
  }

  datatype Turn = Turn(writer: nat, p: Policy, script: Script)

  // Nothing but time passes during the sync.
  ghost predicate Alone(script: Script) {
    forall k :: OnlyWaits(script.others(k))
  }

  predicate OnlyWaits(ops: seq<Op>) {
    forall i :: 0 <= i < |ops| ==> ops[i].Waits?
  }

  // Syncs one after the other.
  function InTurn(turns: seq<Turn>): seq<Op>
    decreases |turns|
  {
    if turns == [] then []
    else
      var t := turns[|turns| - 1];
      InTurn(turns[..|turns| - 1]) + Acts(t.writer, t.p, t.script)
  }

  // That is what SerialSyncsRise asks for: additive or replace, failed or not.
  lemma {:induction false} SyncsInTurnAreSerial(turns: seq<Turn>, d: string, ttl: int)
    requires forall t :: t in turns ==> Alone(t.script) && MemberTTL(d, t.p) == ttl
    ensures Serial(InTurn(turns), d, ttl)
    decreases |turns|
  {
    hide Acts, Alone, MemberTTL, Serial;
    if turns == [] {
      NothingIsSerial(d, ttl);
    } else {
      var t := turns[|turns| - 1];
      assert t in turns && forall u :: u in turns[..|turns| - 1] ==> u in turns;
      SyncsInTurnAreSerial(turns[..|turns| - 1], d, ttl);
      OneSyncIsSerial(t.writer, t.p, t.script, d);
      SerialConcat(InTurn(turns[..|turns| - 1]), Acts(t.writer, t.p, t.script), d, ttl);
    }
  }

  lemma NothingIsSerial(d: string, ttl: int)
    ensures Serial([], d, ttl)
  {
  }

  lemma SerialConcat(a: seq<Op>, b: seq<Op>, d: string, ttl: int)
    requires Serial(a, d, ttl) && Serial(b, d, ttl)
    ensures Serial(a + b, d, ttl)
  {
    hide MemberTTL;
    forall k | 0 <= k < |a + b| && Puts((a + b)[k])
      ensures Reader(a + b, k) == Some((a + b)[k].writer) && MemberTTL(d, (a + b)[k].p) == ttl
    {
      if k < |a| {
        ReaderBefore(a, b, k);
        assert (a + b)[k] == a[k];
      } else {
        ReaderAfter(a, b, k - |a|);
        assert (a + b)[k] == b[k - |a|];
      }
    }
  }

  lemma {:induction false} ReaderBefore(a: seq<Op>, b: seq<Op>, k: nat)
    requires k <= |a|
    ensures Reader(a + b, k) == Reader(a, k)
  {
    if k > 0 {
      ReaderBefore(a, b, k - 1);
    }
  }

  lemma {:induction false} ReaderAfter(a: seq<Op>, b: seq<Op>, k: nat)
    requires k <= |b|
    ensures Reader(b, k).Some? ==> Reader(a + b, |a| + k) == Reader(b, k)
  {
    if k > 0 {
      ReaderAfter(a, b, k - 1);
      assert (a + b)[|a| + k - 1] == b[k - 1];
    }
  }

  // After its clock read a sync alone only writes, sweeps and waits.
  ghost predicate OwnWork(w: nat, p: Policy, ops: seq<Op>) {
    forall i :: 0 <= i < |ops| ==> !ops[i].Reads? && (Puts(ops[i]) ==> ops[i].writer == w && ops[i].p == p)
  }

  lemma OneSyncIsSerial(w: nat, p: Policy, script: Script, d: string)
    requires Alone(script)
    ensures Serial(Acts(w, p, script), d, MemberTTL(d, p))
  {
    hide MemberTTL, Finish, Rounds, Admitted, Reach, Flushes;
    var queued := Admitted(p, script.domains);
    var (n, written) := Reach(|queued|, script);
    var (wait, rounds) := (script.others(0), Rounds(w, p, script, queued, Flushes(n)));
    var work := if written then rounds + Finish(w, p, script, queued, Flushes(n)) else rounds;
    RoundsAreOwn(w, p, script, queued, Flushes(n));
    FinishIsOwn(w, p, script, queued, Flushes(n));
    var ops := Acts(w, p, script);
    assert ops == wait + [Reads(w)] + work;
    forall k | 0 <= k < |ops| && Puts(ops[k])
      ensures Reader(ops, k) == Some(ops[k].writer) && ops[k].p == p
    {
      assert k >= |wait| + 1 && ops[k] == work[k - |wait| - 1];
      ReaderIsLast(w, p, wait, work, k - |wait| - 1);
    }
  }

  lemma {:induction false} ReaderIsLast(w: nat, p: Policy, wait: seq<Op>, work: seq<Op>, k: nat)
    requires OwnWork(w, p, work) && k <= |work|
    ensures Reader(wait + [Reads(w)] + work, |wait| + 1 + k) == Some(w)
  {
    if k > 0 {
      ReaderIsLast(w, p, wait, work, k - 1);
      assert (wait + [Reads(w)] + work)[|wait| + k] == work[k - 1];
    } else {
      assert (wait + [Reads(w)] + work)[|wait|] == Reads(w);
    }
  }

  lemma {:induction false} RoundsAreOwn(w: nat, p: Policy, script: Script, queued: seq<string>, n: nat)
    requires Alone(script)
    ensures OwnWork(w, p, Rounds(w, p, script, queued, n))
  {
    if n > 0 {
      RoundsAreOwn(w, p, script, queued, n - 1);
      assert OnlyWaits(script.others(n));
    }
  }

  lemma FinishIsOwn(w: nat, p: Policy, script: Script, queued: seq<string>, n: nat)
    requires Alone(script)
    ensures OwnWork(w, p, Finish(w, p, script, queued, n))
  {
    hide Elapsed;
    assert OnlyWaits(script.others(n + 1)) && OnlyWaits(script.others(n + 2)) && OnlyWaits(script.others(n + 3));
  }

  // Syncs that overlap do: one reads its clock, a second passes, another reads its clock and writes, and
  // the first writes last.
  lemma OverlappingSyncsFall(p: Policy, d: string, time: int)
    requires p.admissible(d)
    ensures var inner := Acts(1, p, OneMember(d, _ => []));
            var ops := Acts(0, p, OneMember(d, k => if k == 1 then [Waits(SECOND)] + inner else []));
            var s := State(map[], time, map[], map[]);
            && |ops| == 5 && d in At(s, ops, 4).live && d in At(s, ops, 5).live
            && At(s, ops, 5).live[d] < At(s, ops, 4).live[d]
  {
    hide MemberTTL, Live, Scores, Entries, Acts;
    var inner := Acts(1, p, OneMember(d, _ => []));
    var ops := Acts(0, p, OneMember(d, k => if k == 1 then [Waits(SECOND)] + inner else []));
    ActsOfOne(1, p, d, _ => []);
    assert inner == [Reads(1), Writes(1, p, [d])];
    ActsOfOne(0, p, d, k => if k == 1 then [Waits(SECOND)] + inner else []);
    assert ops == [Reads(0), Waits(SECOND), Reads(1), Writes(1, p, [d]), Writes(0, p, [d])];
    var s := State(map[], time, map[], map[]);
    NoneYet(s, ops);
    Next(s, ops, 0);
    Next(s, ops, 1);
    Next(s, ops, 2);
    Next(s, ops, 3);
    Next(s, ops, 4);
    WritesOne(At(s, ops, 3), 1, p, d);
    WritesOne(At(s, ops, 4), 0, p, d);
    LaterBySecond(time + MemberTTL(d, p), time + SECOND + MemberTTL(d, p));
  }

  lemma ActsOfOne(w: nat, p: Policy, d: string, others: nat -> seq<Op>)
    requires p.admissible(d) && others(0) == others(2) == others(3) == []
    ensures Acts(w, p, OneMember(d, others)) == [Reads(w)] + others(1) + [Writes(w, p, [d])]
  {
    var script := OneMember(d, others);
    AdmitOne(p, [], d);
    assert [] + [d] == [d] && Admitted(p, []) == [];
    assert Rounds(w, p, script, [d], 1) == Round(w, p, script, [d], 0);
    assert Chunk([d], 0) == [d];
  }

  function OneMember(d: string, others: nat -> seq<Op>): Script {
    Script(false, [d], true, 1, None, false, true, false, others)
  }

  /* ---------- A member its sources have dropped ---------- */

  // A member that no operation writes any more stops matching when its window is over: it matches no
  // later than the second in which the window of its last write ends.
  lemma {:induction false} DroppedStopsMatching(s: State, ops: seq<Op>, d: string, k: nat)
    requires Scored(s) && d in s.wrote && k <= |ops|
    requires forall i :: 0 <= i < k ==> d !in Written(At(s, ops, i), ops[i])
    ensures var r := At(s, ops, k);
            && d in r.wrote && r.wrote[d] == s.wrote[d]
            && (Matches(r.live, d, r.now) ==>
                  r.now / SECOND <= Expiry(s.wrote[d]) && r.now < s.wrote[d].at + s.wrote[d].ttl + SECOND)
  {
    hide Step, Written, Scored;
    ScoredAlways(s, ops, k);
    if k > 0 {
      DroppedStopsMatching(s, ops, d, k - 1);
      ScoredAlways(s, ops, k - 1);
      Next(s, ops, k - 1);
      OneStep(At(s, ops, k - 1), ops[k - 1], d);
    }
    var r := At(s, ops, k);
    if Matches(r.live, d, r.now) {
      ScoredFacts(r, d);
      NotLater(r.now, s.wrote[d].at + s.wrote[d].ttl);
    }
  }

  // A churn-prone member that is written with a shorter churn window on, and by nothing after, stops
  // matching within the last second of that window, however long the base window is.
  lemma ChurnProneStopsSooner(s: State, op: Op, ops: seq<Op>, d: string, k: nat)
    requires Scored(s) && d in Written(s, op) && op.p.churnProne(d) && op.p.ttl > 0 && 0 < op.p.churn < op.p.ttl
    requires k <= |ops| && forall i :: 0 <= i < k ==> d !in Written(At(Step(s, op), ops, i), ops[i])
    ensures op.writer in s.clocks
    ensures var r := At(Step(s, op), ops, k);
            Matches(r.live, d, r.now) ==> r.now < s.clocks[op.writer] + op.p.churn + 1_000_000_000
  {
    hide Step, Written, Live, Scored, MemberTTL;
    PutIs(s, op, d);
    MemberTTLExactly(d, op.p);
    OneStep(s, op, d);
    DroppedStopsMatching(Step(s, op), ops, d, k);
  }

  lemma NotLater(a: int, b: int)
    requires a / SECOND <= b / SECOND
    ensures a < b + SECOND
  {
  }

  // Without a sweep in between, the last second counts in full.
  lemma MatchesExactly(s: State, d: string, time: nat)
    requires Scored(s) && d in s.live
    ensures Matches(s.live, d, s.now + time) <==> (s.now + time) / SECOND <= (s.wrote[d].at + s.wrote[d].ttl) / SECOND
  {
  }

  /* ---------- Replace ---------- */

  // A rename installs members of its sync's list, scored by the sync's clock, or changes nothing: a live
  // feed is never emptied.
  lemma ReplaceNeverEmpties(s: State, op: Op)
    requires op.Renames?
    ensures var r := Step(s, op);
            || (Written(s, op) == map[] && r == s)
            || (r.live != map[] && op.writer in s.clocks
                && forall d :: d in r.live ==> d in op.domains && r.live[d] == Score(op.p, d, s.clocks[op.writer]))
  {
    hide MemberTTL, Expiry;
    var put := Written(s, op);
    if put != map[] {
      EmptyScores(put);
      forall d | d in put
        ensures d in op.domains && Expiry(put[d]) == Score(op.p, d, s.clocks[op.writer])
      {
        PutIs(s, op, d);
      }
    }
  }

  // A sequence without the clock reads and writes of one writer.
  function Without(w: nat, ops: seq<Op>): seq<Op>
    decreases |ops|
  {
    if ops == [] then []
    else
      var (rest, op) := (Without(w, ops[..|ops| - 1]), ops[|ops| - 1]);
      if (op.Reads? || Puts(op)) && op.writer == w then rest else rest + [op]
  }

  // Two states that differ at most in one writer's clock.
  ghost predicate SameFeed(a: State, b: State, w: nat) {
    && a.live == b.live && a.now == b.now && a.wrote == b.wrote
    && forall v :: v != w ==> (v in a.clocks <==> v in b.clocks) && (v in a.clocks ==> a.clocks[v] == b.clocks[v])
  }

  lemma SameWritten(a: State, b: State, w: nat, op: Op)
    requires SameFeed(a, b, w) && (Puts(op) ==> op.writer != w)
    ensures Written(a, op) == Written(b, op)
  {
    hide Entries, Expiry;
  }

  // The writer puts nothing into the feed.
  ghost predicate Silent(w: nat, ops: seq<Op>) {
    forall op :: op in ops ==> Puts(op) ==> op.writer != w
  }

  lemma SameStep(a: State, b: State, w: nat, op: Op)
    requires SameFeed(a, b, w) && (Puts(op) ==> op.writer != w)
    ensures SameFeed(Step(a, op), if op == Reads(w) then b else Step(b, op), w)
  {
    hide Written, Scores, Sweep;
    SameWritten(a, b, w, op);
  }

  lemma {:induction false} SilentLeavesNothing(s: State, w: nat, ops: seq<Op>)
    requires Silent(w, ops)
    ensures SameFeed(Live(s, ops), Live(s, Without(w, ops)), w)
    decreases |ops|
  {
    hide Step, SameFeed;
    if ops == [] {
      SameAsItself(s, w);
    } else {
      var (rest, op) := (ops[..|ops| - 1], ops[|ops| - 1]);
      assert op in ops && forall o :: o in rest ==> o in ops;
      SilentLeavesNothing(s, w, rest);
      SameStep(Live(s, rest), Live(s, Without(w, rest)), w, op);
      OneMore(s, Without(w, rest), op);
    }
  }

  lemma SameAsItself(s: State, w: nat)
    ensures SameFeed(s, s, w)
  {
  }

  lemma {:induction false} RoundsSilent(w: nat, p: Policy, script: Script, queued: seq<string>, n: nat)
    requires script.replace && forall k :: Apart(w, script.others(k))
    ensures Silent(w, Rounds(w, p, script, queued, n))
  {
    if n > 0 {
      RoundsSilent(w, p, script, queued, n - 1);
      assert Apart(w, script.others(n));
    }
  }

  lemma SilentConcat(w: nat, a: seq<Op>, b: seq<Op>)
    requires Silent(w, a) && (Silent(w, b) || Apart(w, b))
    ensures Silent(w, a + b)
  {
  }

  // A replace sync whose rename takes effect ends with it, and reports success unless the answer to the
  // rename was lost; any other, wherever it fails, leaves the feed as the other writers made it.
  lemma FailedReplaceLeavesNothing(s: State, w: nat, p: Policy, script: Script)
    requires script.replace && forall k :: Apart(w, script.others(k))
    ensures Succeeds(s, w, p, script) <==> Installs(s, w, p, script) && script.renames
    ensures var ops := Acts(w, p, script);
            if Installs(s, w, p, script) then
              var last := ops[|ops| - 1];
              && ops != [] && last.Renames? && last.writer == w && last.p == p
              && last.domains == Admitted(p, script.domains)
              && Live(s, ops).live == Scores(Written(Live(s, ops[..|ops| - 1]), last)) != map[]
            else
              && Live(s, ops).live == Live(s, Without(w, ops)).live
              && Live(s, ops).wrote == Live(s, Without(w, ops)).wrote
  {
    hide Written, Step, Live, Rounds, Admitted, Reach, Flushes, Elapsed, Silent, Apart, Rest, Moves, Scores;
    var queued := Admitted(p, script.domains);
    var (n, written) := Reach(|queued|, script);
    var k := Flushes(n);
    var ops := script.others(0) + [Reads(w)] + Rounds(w, p, script, queued, k);
    RoundsSilent(w, p, script, queued, k);
    ReadIsSilent(w, script.others(0));
    SilentConcat(w, script.others(0) + [Reads(w)], Rounds(w, p, script, queued, k));
    if !written {
      SilentLeavesNothing(s, w, ops);
    } else {
      RestSilent(w, script, ops, k);
      SilentLeavesNothing(s, w, ops + Rest(script, k));
      if script.valid == 0 || !(script.renames || script.unheard) {
        NoRename(Live(s, ops), w, p, script, queued, k);
      } else {
        LastRename(s, w, p, script, ops, queued, k);
      }
    }
  }

  // What the others do at the end of a sync.
  function Rest(script: Script, k: nat): seq<Op> {
    script.others(k + 1) + script.others(k + 2) + script.others(k + 3)
  }

  lemma RestSilent(w: nat, script: Script, ops: seq<Op>, k: nat)
    requires Silent(w, ops) && forall j :: Apart(w, script.others(j))
    ensures Silent(w, ops + Rest(script, k))
  {
    hide Silent, Apart;
    var (a, b, c) := (script.others(k + 1), script.others(k + 2), script.others(k + 3));
    SilentConcat(w, ops, a);
    SilentConcat(w, ops + a, b);
    SilentConcat(w, ops + a + b, c);
    assert ops + a + b + c == ops + Rest(script, k);
  }

  lemma NoRename(s: State, w: nat, p: Policy, script: Script, queued: seq<string>, k: nat)
    requires script.replace && (script.valid == 0 || !(script.renames || script.unheard))
    ensures Finish(w, p, script, queued, k) == Rest(script, k) && !Moves(s, w, p, script, queued, k)
  {
    hide Live, Written;
    assert Rest(script, k) + [] == Rest(script, k);
  }

  lemma LastRename(s: State, w: nat, p: Policy, script: Script, ops: seq<Op>, queued: seq<string>, k: nat)
    requires script.replace && script.valid > 0 && (script.renames || script.unheard)
    ensures var all := ops + Finish(w, p, script, queued, k);
            var (r, last) := (Live(s, ops + Rest(script, k)), all[|all| - 1]);
            && last.Renames? && last.writer == w && last.p == p && last.domains == queued
            && all[..|all| - 1] == ops + Rest(script, k)
            && (Moves(Live(s, ops), w, p, script, queued, k) <==> Written(r, last) != map[])
            && Live(s, all).live == (if Written(r, last) == map[] then r.live else Scores(Written(r, last)))
            && (Written(r, last) == map[] ==> Live(s, all) == r)
            && (Written(r, last) != map[] ==> Scores(Written(r, last)) != map[])
            && Without(w, all) == Without(w, ops + Rest(script, k))
  {
    hide Written, Step, Live, Scores, Move, Moves;
    var rest := Rest(script, k);
    var all := ops + Finish(w, p, script, queued, k);
    var op := Move(w, p, script, queued, k);
    MoveFields(w, p, script, queued, k);
    assert Finish(w, p, script, queued, k) == rest + [op];
    assert all == ops + rest + [op];
    LiveConcat(s, ops, rest);
    LiveConcat(Live(s, ops), script.others(k + 1) + script.others(k + 2), script.others(k + 3));
    LiveConcat(Live(s, ops), script.others(k + 1), script.others(k + 2));
    MoveIs(Live(s, ops), w, p, script, queued, k);
    OneMore(s, ops + rest, op);
    RenameIs(Live(s, ops + rest), op);
  }

  lemma MoveFields(w: nat, p: Policy, script: Script, queued: seq<string>, k: nat)
    ensures var op := Move(w, p, script, queued, k); op.writer == w && op.p == p && op.domains == queued
  {
  }

  lemma ReadIsSilent(w: nat, others: seq<Op>)
    requires Apart(w, others)
    ensures Silent(w, others + [Reads(w)])
  {
  }

  lemma RenameIs(s: State, op: Op)
    requires op.Renames?
    ensures Written(s, op) == map[] ==> Step(s, op) == s
    ensures Written(s, op) != map[] ==> Step(s, op).live == Scores(Written(s, op)) != map[]
  {
    hide Written;
    EmptyScores(Written(s, op));
  }

  /* ---------- What one sync does on its own ---------- */

  // A host the sync lists and may enter the feed.
  predicate Lists(p: Policy, script: Script, d: string) {
    d in script.domains && p.admissible(d)
  }

  lemma {:induction false} WaitsOnly(s: State, ops: seq<Op>)
    requires OnlyWaits(ops)
    ensures Live(s, ops) == s.(now := s.now + Elapsed(ops))
    decreases |ops|
  {
    if ops != [] {
      WaitsOnly(s, ops[..|ops| - 1]);
    }
  }

  // The members of the first n flushes.
  function FirstFlushes(queued: seq<string>, n: nat): seq<string> {
    queued[..Min(BATCH * n, |queued|)]
  }

  lemma RoundAlone(s: State, w: nat, p: Policy, script: Script, queued: seq<string>, k: nat)
    requires Alone(script) && w in s.clocks
    ensures var r := Live(s, Round(w, p, script, queued, k));
            && r.clocks == s.clocks
            && r.live == if script.replace then s.live else s.live + Scores(Entries(p, Chunk(queued, k), s.clocks[w]))
  {
    hide Entries, Scores, Elapsed, Chunk, Live;
    assert OnlyWaits(script.others(k + 1));
    WaitsOnly(s, script.others(k + 1));
    if script.replace {
      assert script.others(k + 1) + [] == script.others(k + 1);
    } else {
      OneMore(s, script.others(k + 1), Writes(w, p, Chunk(queued, k)));
    }
  }

  // n flushes of an additive sync write those members and change nothing else but the time.
  lemma {:induction false} RoundsAlone(s: State, w: nat, p: Policy, script: Script, queued: seq<string>, n: nat)
    requires Alone(script) && w in s.clocks
    ensures var r := Live(s, Rounds(w, p, script, queued, n));
            && r.clocks == s.clocks
            && r.live == if script.replace then s.live
                         else s.live + Scores(Entries(p, FirstFlushes(queued, n), s.clocks[w]))
  {
    hide Entries, Scores, Round, Live, Chunk, FirstFlushes, Alone;
    if n == 0 {
      NoFlushes(s, w, p, script, queued);
    } else {
      RoundsAlone(s, w, p, script, queued, n - 1);
      var t := Live(s, Rounds(w, p, script, queued, n - 1));
      LiveConcat(s, Rounds(w, p, script, queued, n - 1), Round(w, p, script, queued, n - 1));
      RoundAlone(t, w, p, script, queued, n - 1);
      NextChunk(queued, n - 1);
      EntriesConcat(p, FirstFlushes(queued, n - 1), Chunk(queued, n - 1), s.clocks[w]);
    }
  }

  lemma NoFlushes(s: State, w: nat, p: Policy, script: Script, queued: seq<string>)
    requires w in s.clocks
    ensures Live(s, Rounds(w, p, script, queued, 0)) == s
    ensures Scores(Entries(p, FirstFlushes(queued, 0), s.clocks[w])) == map[]
  {
    EntriesOfNone(p, s.clocks[w]);
    assert FirstFlushes(queued, 0) == [];
  }

  lemma NextChunk(queued: seq<string>, n: nat)
    ensures FirstFlushes(queued, n + 1) == FirstFlushes(queued, n) + Chunk(queued, n)
  {
  }

  lemma AllFlushed(queued: seq<string>)
    ensures FirstFlushes(queued, Flushes(|queued|)) == queued
  {
  }

  // The state after the flushes of a sync that nothing disturbs, and its clock.
  lemma FlushedAlone(s: State, w: nat, p: Policy, script: Script)
    requires Alone(script) && script.parses && script.failsAt == None
    ensures Reach(|Admitted(p, script.domains)|, script) == (|Admitted(p, script.domains)|, true)
    ensures var (r, at) := (Flushed(s, w, p, script), s.now + Elapsed(script.others(0)));
            && w in r.clocks && r.clocks[w] == at
            && r.live == if script.replace then s.live else s.live + Scores(Entries(p, Admitted(p, script.domains), at))
  {
    hide Entries, Scores, Elapsed, Rounds, Admitted;
    var queued := Admitted(p, script.domains);
    var n := Flushes(|queued|);
    LiveConcat(s, script.others(0) + [Reads(w)], Rounds(w, p, script, queued, n));
    OneMore(s, script.others(0), Reads(w));
    WaitsOnly(s, script.others(0));
    RoundsAlone(Live(s, script.others(0) + [Reads(w)]), w, p, script, queued, n);
    AllFlushed(queued);
  }

  // When its sweep reads the clock.
  function SweepTime(s: State, w: nat, p: Policy, script: Script): int {
    Flushed(s, w, p, script).now + Elapsed(script.others(Flushes(|Admitted(p, script.domains)|) + 1))
  }

  // An additive sync that nothing fails or disturbs leaves in the feed what was there and what it lists,
  // each listed host scored by the clock it began with, without what has expired by its sweep.
  lemma SyncAlone(s: State, w: nat, p: Policy, script: Script)
    requires Alone(script) && script.parses && script.failsAt == None && !script.replace
    ensures var (r, at) := (Live(s, Acts(w, p, script)), s.now + Elapsed(script.others(0)));
            && Succeeds(s, w, p, script)
            && forall d ::
                 var score := if Lists(p, script, d) then (at + MemberTTL(d, p)) / 1_000_000_000
                              else if d in s.live then s.live[d] else 0;
                 && (d in r.live <==>
                       (Lists(p, script, d) || d in s.live)
                       && (script.sweeps ==> score > SweepTime(s, w, p, script) / 1_000_000_000))
                 && (d in r.live ==> r.live[d] == score)
  {
    hide Elapsed, Admitted, MemberTTL, Live, Acts, Flushed, SweepTime, Scores, Entries, Sweep;
    var queued := Admitted(p, script.domains);
    var t := Flushed(s, w, p, script);
    FlushedAlone(s, w, p, script);
    ActsAlone(s, w, p, script);
    FinishAlone(t, w, p, script, queued, Flushes(|queued|));
    SweepTimeIs(s, w, p, script);
    AdmittedAre(p, script.domains);
    SweptFeed(s.live, p, queued, s.now + Elapsed(script.others(0)), SweepTime(s, w, p, script));
  }

  lemma ActsAlone(s: State, w: nat, p: Policy, script: Script)
    requires Reach(|Admitted(p, script.domains)|, script) == (|Admitted(p, script.domains)|, true)
    ensures var queued := Admitted(p, script.domains);
            && Live(s, Acts(w, p, script)) == Live(Flushed(s, w, p, script), Finish(w, p, script, queued, Flushes(|queued|)))
            && (Succeeds(s, w, p, script)
                <==> Finishes(Flushed(s, w, p, script), w, p, script, queued, Flushes(|queued|)))
  {
    hide Live, Rounds, Finish, Finishes, Admitted, Reach, Flushes;
    var queued := Admitted(p, script.domains);
    var n := Flushes(|queued|);
    LiveConcat(s, script.others(0) + [Reads(w)] + Rounds(w, p, script, queued, n), Finish(w, p, script, queued, n));
  }

  lemma SweepTimeIs(s: State, w: nat, p: Policy, script: Script)
    ensures SweepTime(s, w, p, script)
            == Flushed(s, w, p, script).now + Elapsed(script.others(Flushes(|Admitted(p, script.domains)|) + 1))
  {
  }

  // A feed after a write and a sweep, member by member.
  lemma SweptFeed(z: ZSet, p: Policy, domains: seq<string>, at: int, read: int)
    ensures var written := z + Scores(Entries(p, domains, at));
            forall d ::
              var score := if d in domains then (at + MemberTTL(d, p)) / 1_000_000_000 else if d in z then z[d] else 0;
              && (d in written <==> d in domains || d in z) && (d in written ==> written[d] == score)
              && (d in Sweep(written, read) <==> (d in domains || d in z) && score > read / 1_000_000_000)
              && (d in Sweep(written, read) ==> Sweep(written, read)[d] == score)
  {
    hide MemberTTL;
    assert Scores(Entries(p, domains, at)).Keys == set d | d in domains;
  }

  lemma AdmittedAre(p: Policy, domains: seq<string>)
    ensures forall d :: d in Admitted(p, domains) <==> d in domains && p.admissible(d)
  {
  }

  lemma FinishAlone(t: State, w: nat, p: Policy, script: Script, queued: seq<string>, n: nat)
    requires Alone(script) && !script.replace
    ensures Live(t, Finish(w, p, script, queued, n)).live
            == if script.sweeps then Sweep(t.live, t.now + Elapsed(script.others(n + 1))) else t.live
  {
    hide Elapsed, Sweep;
    var (a, b) := (script.others(n + 1), script.others(n + 2));
    assert OnlyWaits(a) && OnlyWaits(b);
    LiveConcat(t, a, b);
    WaitsOnly(t, a);
    WaitsOnly(Live(t, a), b);
    if script.sweeps {
      OneMore(t, a + b, Sweeps(Elapsed(b)));
    } else {
      assert a + b + [] == a + b;
    }
  }

  // A replace sync that nothing fails or disturbs leaves what it lists alone, without what has expired by
  // its sweep; when nothing would be left, or the parser counted nothing, it fails and the feed stays.
  lemma ReplaceAlone(s: State, w: nat, p: Policy, script: Script)
    requires Alone(script) && script.parses && script.failsAt == None && script.replace && script.renames
    ensures var (r, at) := (Live(s, Acts(w, p, script)), s.now + Elapsed(script.others(0)));
            var kept := set d | d in script.domains && p.admissible(d)
                                && (script.sweeps ==> (at + MemberTTL(d, p)) / 1_000_000_000
                                                      > SweepTime(s, w, p, script) / 1_000_000_000);
            && (Succeeds(s, w, p, script) <==> script.valid > 0 && kept != {})
            && (if script.valid > 0 && kept != {} then
                  r.live.Keys == kept && forall d :: d in kept ==> r.live[d] == (at + MemberTTL(d, p)) / 1_000_000_000
                else r.live == s.live)
  {
    hide Elapsed, Admitted, MemberTTL, Live, Acts, Flushed, SweepTime, Scores, Entries, Written, Moves, Finish, Step, Move;
    var queued := Admitted(p, script.domains);
    var n := Flushes(|queued|);
    var t := Flushed(s, w, p, script);
    FlushedAlone(s, w, p, script);
    ActsAlone(s, w, p, script);
    SweepTimeIs(s, w, p, script);
    AdmittedAre(p, script.domains);
    MoveIs(t, w, p, script, queued, n);
    var (a, b, c) := (script.others(n + 1), script.others(n + 2), script.others(n + 3));
    assert OnlyWaits(a) && OnlyWaits(b) && OnlyWaits(c);
    WaitsOnly(t, a);
    WaitsOnly(Live(t, a), b);
    WaitsOnly(Live(Live(t, a), b), c);
    var before := Live(Live(Live(t, a), b), c);
    MovedAre(before, w, p, script, queued, n, s.now + Elapsed(script.others(0)), t.now + Elapsed(a));
    RenameIs(before, Move(w, p, script, queued, n));
  }

  lemma MovedAre(s: State, w: nat, p: Policy, script: Script, queued: seq<string>, n: nat, at: int, read: int)
    requires w in s.clocks && s.clocks[w] == at
    requires s.now == read + Elapsed(script.others(n + 2)) + Elapsed(script.others(n + 3))
    ensures var put := Written(s, Move(w, p, script, queued, n));
            var kept := set d | d in queued && (script.sweeps ==> (at + MemberTTL(d, p)) / 1_000_000_000 > read / 1_000_000_000);
            && put.Keys == kept && (put == map[] <==> kept == {})
            && Scores(put).Keys == kept && forall d :: d in kept ==> Scores(put)[d] == (at + MemberTTL(d, p)) / 1_000_000_000
  {
    hide Elapsed, MemberTTL;
    var put := Written(s, Move(w, p, script, queued, n));
    assert put == map[] <==> put.Keys == {};
  }
}
