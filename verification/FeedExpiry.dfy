/**
 Expiry of threat-feed members: the windows of internal/feed/ttl.go, the batched write, sweep and
 replace of internal/feed/sync.go, and the live test of internal/risk/feed.go.

 Several processes write one sorted set.  What a process does to it is a sequence of operations, each
 one atomic; a run is any interleaving of them.  Times and durations are nanoseconds, scores whole
 seconds.  The Redis sorted set is a map from member to score; a set without members does not exist.
 Network and Redis failures are scripted.
 */
module FeedExpiry {
  import opened Text

  const SECOND := 1_000_000_000
  const DAY := 86_400 * SECOND
  const DEFAULT_TTL := 14 * DAY
  const MIN_CHURN_DAYS := 2
  const BATCH := 1000

  /* ---------- ttl.go ---------- */

  // Whether a host label is recycled after a campaign, and whether a host may enter the feed, are
  // parameters.
  datatype Policy = Policy(admissible: string -> bool, churnProne: string -> bool, ttl: int, churn: int)

  function TTLFromDays(days: int): Option<int> {
    if days <= 0 then None else Some(days * DAY)
  }

  function ChurnTTLFromDays(days: int): Option<int> {
    if days <= 0 then Some(0) else if days < MIN_CHURN_DAYS then None else Some(days * DAY)
  }

  // CheckChurnTTLAgainstInterval, true when it reports no error.
  predicate ChurnFits(churn: int, interval: int) {
    churn <= 0 || (interval > 0 && churn > interval)
  }

  // baseTTL of a sync.
  function BaseTTL(p: Policy): (r: int)
    ensures r > 0
  {
    if p.ttl <= 0 then DEFAULT_TTL else p.ttl
  }

  function MemberTTL(domain: string, p: Policy): (r: int)
    ensures 0 < r <= BaseTTL(p)
    ensures r == BaseTTL(p) || (p.churnProne(domain) && r == p.churn)
  {
    if p.churn <= 0 || !p.churnProne(domain) then BaseTTL(p) else if p.churn >= BaseTTL(p) then BaseTTL(p) else p.churn
  }

  // When the sync that wrote a member read its clock, and the window it gave the member.
  datatype Wrote = Wrote(at: int, ttl: int)

  function Expiry(w: Wrote): int {
    (w.at + w.ttl) / SECOND
  }

  function Score(p: Policy, domain: string, at: int): int {
    Expiry(Wrote(at, MemberTTL(domain, p)))
  }

  /* ---------- The sorted set ---------- */

  type ZSet = map<string, int>

  function Entries(p: Policy, domains: seq<string>, at: int): map<string, Wrote> {
    map d | d in domains :: Wrote(at, MemberTTL(d, p))
  }

  function Scores(entries: map<string, Wrote>): ZSet {
    map d | d in entries :: Expiry(entries[d])
  }

  // ZREMRANGEBYSCORE -inf now
  function Sweep(z: ZSet, now: int): ZSet {
    map d | d in z && z[d] > now / SECOND :: z[d]
  }

  // The matcher's test of one candidate.
  predicate Matches(z: ZSet, d: string, now: int) {
    d in z && z[d] >= now / SECOND
  }

  /* ---------- What processes do to it ---------- */

  /**
   `Reads`: a sync or a promotion reads the clock it scores its members by.  `Writes`: one ZADD with
   scores by that clock.  `Sweeps`: the expired are removed, by a clock read `late` before.  `Renames`:
   a replace sync moves its staging set, swept by a clock read `late` before if at all, to the key.
   */
  datatype Op =
    | Reads(writer: nat)
    | Writes(writer: nat, p: Policy, domains: seq<string>)
    | Sweeps(late: nat)
    | Renames(writer: nat, p: Policy, domains: seq<string>, swept: Option<nat>)
    | Waits(time: nat)

  // `wrote` is history: the last write of each member.  `clocks`: what each writer has read.
  datatype State = State(live: ZSet, now: int, wrote: map<string, Wrote>, clocks: map<nat, int>)

  // The entries an operation puts into the set.
  function Written(s: State, op: Op): map<string, Wrote> {
    match op
    case Writes(w, p, domains) => if w in s.clocks then Entries(p, domains, s.clocks[w]) else map[]
    case Renames(w, p, domains, swept) =>
      if w !in s.clocks then map[]
      else
        var staged := Entries(p, domains, s.clocks[w]);
        (match swept
         case None => staged
         case Some(late) => map d | d in staged && Expiry(staged[d]) > (s.now - late) / SECOND :: staged[d])
    case _ => map[]
  }

  // RENAME refuses a key that does not exist.
  function Step(s: State, op: Op): State {
    match op
    case Reads(w) => s.(clocks := s.clocks[w := s.now])
    case Writes(_, _, _) => s.(live := s.live + Scores(Written(s, op)), wrote := s.wrote + Written(s, op))
    case Sweeps(late) => s.(live := Sweep(s.live, s.now - late))
    case Renames(_, _, _, _) =>
      if Written(s, op) == map[] then s else s.(live := Scores(Written(s, op)), wrote := s.wrote + Written(s, op))
    case Waits(time) => s.(now := s.now + time)
  }

  function Live(s: State, ops: seq<Op>): State
    decreases |ops|
  {
    if ops == [] then s else Step(Live(s, ops[..|ops| - 1]), ops[|ops| - 1])
  }

  lemma {:induction false} LiveConcat(s: State, a: seq<Op>, b: seq<Op>)
    ensures Live(s, a + b) == Live(Live(s, a), b)
    decreases |b|
  {
    hide Step;
    if b == [] {
      assert a + b == a;
    } else {
      LiveConcat(s, a, b[..|b| - 1]);
      assert (a + b)[..|a + b| - 1] == a + b[..|b| - 1];
    }
  }

  function Elapsed(ops: seq<Op>): nat
    decreases |ops|
  {
    if ops == [] then 0
    else Elapsed(ops[..|ops| - 1]) + if ops[|ops| - 1].Waits? then ops[|ops| - 1].time else 0
  }

  // The operations of other writers.
  ghost predicate Apart(w: nat, ops: seq<Op>) {
    forall op :: op in ops ==> (op.Reads? || op.Writes? || op.Renames? ==> op.writer != w)
  }

  lemma {:induction false} ApartKeeps(s: State, w: nat, ops: seq<Op>)
    requires Apart(w, ops)
    ensures var r := Live(s, ops);
            && r.now == s.now + Elapsed(ops)
            && (w in r.clocks <==> w in s.clocks) && (w in s.clocks ==> r.clocks[w] == s.clocks[w])
    decreases |ops|
  {
    hide Written;
    if ops != [] {
      ApartKeeps(s, w, ops[..|ops| - 1]);
      assert ops[|ops| - 1] in ops;
    }
  }

  /* ---------- One sync ---------- */

  /**
   `domains`: what the parser or the admission plan hands on; `parses`: whether parsing ends without
   an error; `valid`: the parser's count; `failsAt`: the flush that fails, if one does; `sweeps`: whether
   Redis carries that out; `renames`: whether it reports success; `unheard`: whether a flush or rename
   that fails was carried out and only its answer lost; `others`: what happens meanwhile, before the
   clock read (0), before each flush (from 1), and at the end.
   */
  datatype Script = Script(replace: bool, domains: seq<string>, parses: bool, valid: nat, failsAt: Option<nat>,
                           sweeps: bool, renames: bool, unheard: bool, others: nat -> seq<Op>)

  function Admitted(p: Policy, domains: seq<string>): (r: seq<string>)
    ensures forall d :: d in r <==> d in domains && p.admissible(d)
  {
    if domains == [] then []
    else
      var rest := Admitted(p, domains[..|domains| - 1]);
      assert domains == domains[..|domains| - 1] + [domains[|domains| - 1]];
      if p.admissible(domains[|domains| - 1]) then rest + [domains[|domains| - 1]] else rest
  }

  // How many of n queued members reach Redis, in batches, and whether the sync gets past writing.
  function Reach(n: nat, script: Script): (r: (nat, bool))
    ensures r.0 <= n && (r.1 ==> r.0 == n)
  {
    var full := n / BATCH;
    var flushes := if script.parses && n % BATCH > 0 then full + 1 else full;
    if script.failsAt.Some? && script.failsAt.value < flushes then
      (if script.unheard then Min(BATCH * script.failsAt.value + BATCH, n) else BATCH * script.failsAt.value, false)
    else if !script.parses then (BATCH * full, false)
    else (n, true)
  }

  // The flushes that n members take.
  function Flushes(n: nat): nat {
    (n + BATCH - 1) / BATCH
  }

  function Min(a: nat, b: nat): nat {
    if a < b then a else b
  }

  function Chunk(queued: seq<string>, k: nat): seq<string> {
    queued[Min(BATCH * k, |queued|)..Min(BATCH * k + BATCH, |queued|)]
  }

  // The k-th flush; a replace sync flushes into its own staging set.
  function Round(w: nat, p: Policy, script: Script, queued: seq<string>, k: nat): seq<Op> {
    script.others(k + 1) + if script.replace then [] else [Writes(w, p, Chunk(queued, k))]
  }

  function Rounds(w: nat, p: Policy, script: Script, queued: seq<string>, n: nat): seq<Op> {
    if n == 0 then [] else Rounds(w, p, script, queued, n - 1) + Round(w, p, script, queued, n - 1)
  }

  // After the last flush: the sweep, and of a replace sync the rename.
  function Finish(w: nat, p: Policy, script: Script, queued: seq<string>, n: nat): seq<Op> {
    var read := script.others(n + 1);
    var sweep := script.others(n + 2);
    var rename := script.others(n + 3);
    if !script.replace then read + sweep + if script.sweeps then [Sweeps(Elapsed(sweep))] else []
    else
      read + sweep + rename
      + if script.valid == 0 || !(script.renames || script.unheard) then [] else [Move(w, p, script, queued, n)]
  }

  // The rename of a replace sync.
  function Move(w: nat, p: Policy, script: Script, queued: seq<string>, n: nat): (r: Op)
    ensures r.Renames?
  {
    var late := Elapsed(script.others(n + 2)) + Elapsed(script.others(n + 3));
    Renames(w, p, queued, if script.sweeps then Some(late) else None)
  }

  // Everything that happens in the course of one sync.
  function Acts(w: nat, p: Policy, script: Script): seq<Op> {
    var queued := Admitted(p, script.domains);
    var (n, written) := Reach(|queued|, script);
    var ops := script.others(0) + [Reads(w)] + Rounds(w, p, script, queued, Flushes(n));
    if written then ops + Finish(w, p, script, queued, Flushes(n)) else ops
  }

  // Whether the rename of a replace sync takes effect: it needs a staging set to move.
  predicate Moves(s: State, w: nat, p: Policy, script: Script, queued: seq<string>, n: nat) {
    && script.replace && script.valid > 0 && (script.renames || script.unheard)
    && var ops := Finish(w, p, script, queued, n);
       Written(Live(s, ops[..|ops| - 1]), ops[|ops| - 1]) != map[]
  }

  // Whether the last part reports no error.
  predicate Finishes(s: State, w: nat, p: Policy, script: Script, queued: seq<string>, n: nat) {
    script.replace ==> script.renames && Moves(s, w, p, script, queued, n)
  }

  // What a sync has done when it has flushed everything it will flush.
  function Flushed(s: State, w: nat, p: Policy, script: Script): State {
    var queued := Admitted(p, script.domains);
    Live(s, script.others(0) + [Reads(w)] + Rounds(w, p, script, queued, Flushes(Reach(|queued|, script).0)))
  }

  predicate Succeeds(s: State, w: nat, p: Policy, script: Script) {
    var queued := Admitted(p, script.domains);
    var (n, written) := Reach(|queued|, script);
    written && Finishes(Flushed(s, w, p, script), w, p, script, queued, Flushes(n))
  }

  // Whether a sync puts a new set in the place of the old one.
  predicate Installs(s: State, w: nat, p: Policy, script: Script) {
    var queued := Admitted(p, script.domains);
    var (n, written) := Reach(|queued|, script);
    written && Moves(Flushed(s, w, p, script), w, p, script, queued, Flushes(n))
  }

  /* ---------- The sync loop ---------- */

  // The shared set as one process sees it.
  class ThreatFeed {
    var live: ZSet
    var now: int
    var wrote: map<string, Wrote>
    var clocks: map<nat, int>

    function View(): State
      reads this
    {
      State(live, now, wrote, clocks)
    }

    constructor (time: int)
      ensures View() == State(map[], time, map[], map[])
    {
      live, now, wrote, clocks := map[], time, map[], map[];
    }

    // What the other processes do, and the time that passes.
    method Meanwhile(ops: seq<Op>)
      modifies this
      ensures View() == Live(old(View()), ops)
    {
      var s := Live(View(), ops);
      live, now, wrote, clocks := s.live, s.now, s.wrote, s.clocks;
    }

    method Run(w: nat, p: Policy, script: Script) returns (ok: bool)
      requires forall k :: Apart(w, script.others(k))
      modifies this
      ensures View() == Live(old(View()), Acts(w, p, script)) && ok == Succeeds(old(View()), w, p, script)
    {
      hide Written, Entries, Scores, Sweep, Reach, Admitted, Rounds, Elapsed;
      ghost var was := View();
      Meanwhile(script.others(0));
      var syncNow := now;
      clocks := clocks[w := now];
      LiveConcat(was, script.others(0), [Reads(w)]);
      ghost var began := View();
      var queued := Admitted(p, script.domains);
      var staged, n;
      staged, n, ok := QueueAll(w, p, script, syncNow);
      LiveConcat(was, script.others(0) + [Reads(w)], Rounds(w, p, script, queued, n));
      if !ok {
        return;
      }
      ok := CleanUp(w, p, script, queued, n, staged);
      LiveConcat(was, script.others(0) + [Reads(w)] + Rounds(w, p, script, queued, n), Finish(w, p, script, queued, n));
    }

    // The queueDomain closure over everything the parser hands on.
    method QueueAll(w: nat, p: Policy, script: Script, at: int) returns (staged: ZSet, flushes: nat, ok: bool)
      requires (forall k :: Apart(w, script.others(k))) && w in clocks && clocks[w] == at
      modifies this
      ensures var queued := Admitted(p, script.domains);
              var (n, written) := Reach(|queued|, script);
              && ok == written && flushes == Flushes(n)
              && View() == Live(old(View()), Rounds(w, p, script, queued, flushes))
              && (ok && script.replace ==> staged == Scores(Entries(p, queued, at)))
      ensures w in clocks && clocks[w] == at
    {
      hide Entries, Scores, Score, Reach, Admitted, Round, Rounds, Flushes, Live;
      staged, flushes := map[], 0;
      ghost var queued: seq<string> := [];
      var batch: seq<(string, int)> := [];
      NothingQueued(w, p, script, at, View());
      var i := 0;
      while i < |script.domains|
        invariant 0 <= i <= |script.domains| && queued == Admitted(p, script.domains[..i])
        invariant Pending(p, at, queued, batch, flushes) && |batch| < BATCH
        invariant View() == Live(old(View()), Rounds(w, p, script, queued, flushes))
        invariant script.replace ==> staged == Scores(Entries(p, queued[..BATCH * flushes], at))
        invariant w in clocks && clocks[w] == at
        invariant script.failsAt.Some? ==> flushes <= script.failsAt.value
      {
        var d := script.domains[i];
        assert script.domains[..i + 1] == script.domains[..i] + [d];
        AdmitOne(p, script.domains[..i], d);
        i := i + 1;
        if !p.admissible(d) {
          continue;
        }
        QueueOne(p, at, queued, batch, flushes, d);
        RoundsGrow(w, p, script, queued, queued + [d], flushes);
        queued, batch := queued + [d], batch + [(d, Score(p, d, at))];
        if |batch| >= BATCH {
          var fails := script.failsAt == Some(flushes);
          if fails {
            StopsHere(w, p, script, i, queued, flushes);
          }
          if !fails || script.unheard {
            staged := Flush(w, p, script, old(View()), queued, batch, flushes, at, staged);
            flushes, batch := flushes + 1, [];
            assert queued[..BATCH * flushes] == queued;
          }
          if fails {
            return staged, flushes, false;
          }
        }
      }
      assert script.domains[..i] == script.domains;
      Ends(script, |queued|, flushes);
      if !script.parses {
        return staged, flushes, false;
      }
      ok := batch == [] || script.failsAt != Some(flushes);
      if batch != [] && (ok || script.unheard) {
        staged := Flush(w, p, script, old(View()), queued, batch, flushes, at, staged);
        flushes := flushes + 1;
      } else {
        assert ok ==> queued[..BATCH * flushes] == queued;
      }
    }

    // flush: one ZADD of the batch, to the key or to the staging set.
    method Flush(w: nat, p: Policy, script: Script, ghost began: State, ghost queued: seq<string>,
                 batch: seq<(string, int)>, flushes: nat, at: int, staged: ZSet) returns (after: ZSet)
      requires View() == Live(began, Rounds(w, p, script, queued, flushes))
      requires (forall k :: Apart(w, script.others(k))) && w in clocks && clocks[w] == at
      requires Pending(p, at, queued, batch, flushes) && |batch| <= BATCH
      requires script.replace ==> staged == Scores(Entries(p, queued[..BATCH * flushes], at))
      modifies this
      ensures View() == Live(old(View()), Round(w, p, script, queued, flushes))
      ensures View() == Live(began, Rounds(w, p, script, queued, flushes + 1))
      ensures script.replace ==> after == Scores(Entries(p, queued, at))
      ensures w in clocks && clocks[w] == at
    {
      hide Entries, Scores, Score, Live, Elapsed;
      LiveConcat(began, Rounds(w, p, script, queued, flushes), Round(w, p, script, queued, flushes));
      ghost var was := View();
      Meanwhile(script.others(flushes + 1));
      ApartKeeps(was, w, script.others(flushes + 1));
      assert Chunk(queued, flushes) == Members(batch);
      after := staged;
      if script.replace {
        after := ZAdd(staged, p, batch, at);
        assert queued == queued[..BATCH * flushes] + Members(batch);
        EntriesConcat(p, queued[..BATCH * flushes], Members(batch), at);
        assert script.others(flushes + 1) + [] == script.others(flushes + 1);
      } else {
        live := ZAdd(live, p, batch, at);
        wrote := wrote + Entries(p, Members(batch), at);
        OneMore(was, script.others(flushes + 1), Writes(w, p, Members(batch)));
      }
    }

    // The expired are removed; a replace sync moves its staging set to the key.
    method CleanUp(w: nat, p: Policy, script: Script, queued: seq<string>, n: nat, staged: ZSet) returns (ok: bool)
      requires (forall k :: Apart(w, script.others(k))) && w in clocks
      requires script.replace ==> staged == Scores(Entries(p, queued, clocks[w]))
      modifies this
      ensures View() == Live(old(View()), Finish(w, p, script, queued, n))
      ensures ok == Finishes(old(View()), w, p, script, queued, n)
    {
      hide Entries, Scores, Sweep, Live, Elapsed;
      ghost var was := View();
      var read, sweep := script.others(n + 1), script.others(n + 2);
      Meanwhile(read);
      var currentScore := now;
      Meanwhile(sweep);
      LiveConcat(was, read, sweep);
      ApartKeeps(was, w, read);
      ApartKeeps(Live(was, read), w, sweep);
      if !script.replace {
        if script.sweeps {
          live := Sweep(live, currentScore);
          OneMore(was, read + sweep, Sweeps(Elapsed(sweep)));
        } else {
          assert read + sweep + [] == read + sweep;
        }
        return true;
      }
      if script.sweeps {
        ok := Rename(w, p, script, queued, n, Sweep(staged, currentScore));
      } else {
        ok := Rename(w, p, script, queued, n, staged);
      }
      MoveIs(was, w, p, script, queued, n);
    }

    // The rest of a replace sync, after the sweep of its staging set.
    method Rename(w: nat, p: Policy, script: Script, queued: seq<string>, n: nat, kept: ZSet) returns (ok: bool)
      requires script.replace && Apart(w, script.others(n + 3)) && w in clocks
      requires var entries := Entries(p, queued, clocks[w]);
               kept == if script.sweeps then Sweep(Scores(entries), now - Elapsed(script.others(n + 2)))
                       else Scores(entries)
      modifies this
      ensures var moved := script.valid > 0 && (script.renames || script.unheard);
              var before := Live(old(View()), script.others(n + 3));
              && View() == (if moved then Step(before, Move(w, p, script, queued, n)) else before)
              && ok == (moved && script.renames && Written(before, Move(w, p, script, queued, n)) != map[])
    {
      hide Entries, Scores, Sweep, Live, Elapsed;
      ghost var was := View();
      Meanwhile(script.others(n + 3));
      ApartKeeps(was, w, script.others(n + 3));
      if script.valid == 0 || !(script.renames || script.unheard) {
        return false;
      }
      var op := Move(w, p, script, queued, n);
      SweptEntries(Entries(p, queued, clocks[w]), was.now - Elapsed(script.others(n + 2)));
      EmptyScores(Written(View(), op));
      if kept == map[] {
        return false;
      }
      live, wrote := kept, wrote + Written(View(), op);
      return script.renames;
    }
  }

  lemma MoveIs(s: State, w: nat, p: Policy, script: Script, queued: seq<string>, n: nat)
    requires script.replace
    ensures var before := Live(Live(Live(s, script.others(n + 1)), script.others(n + 2)), script.others(n + 3));
            var moved := script.valid > 0 && (script.renames || script.unheard);
            && Live(s, Finish(w, p, script, queued, n))
               == (if moved then Step(before, Move(w, p, script, queued, n)) else before)
            && (Moves(s, w, p, script, queued, n)
                <==> moved && Written(before, Move(w, p, script, queued, n)) != map[])
  {
    hide Live, Step, Written, Elapsed;
    var (a, b, c) := (script.others(n + 1), script.others(n + 2), script.others(n + 3));
    var op := Move(w, p, script, queued, n);
    LiveConcat(s, a, b);
    LiveConcat(s, a + b, c);
    OneMore(s, a + b + c, op);
    assert a + b + c + [] == a + b + c;
    assert (a + b + c + [op])[..|a + b + c|] == a + b + c;
  }

  lemma OneMore(s: State, ops: seq<Op>, op: Op)
    ensures Live(s, ops + [op]) == Step(Live(s, ops), op)
  {
    assert (ops + [op])[..|ops|] == ops;
  }

  // Removing by score leaves the scores of the entries that expire later.
  lemma SweptEntries(entries: map<string, Wrote>, now: int)
    ensures Scores(map d | d in entries && Expiry(entries[d]) > now / SECOND :: entries[d])
            == Sweep(Scores(entries), now)
  {
  }

  lemma EmptyScores(entries: map<string, Wrote>)
    ensures Scores(entries) == map[] <==> entries == map[]
  {
    assert Scores(entries).Keys == entries.Keys;
  }

  function Members(batch: seq<(string, int)>): (r: seq<string>)
    ensures |r| == |batch| && forall k :: 0 <= k < |batch| ==> r[k] == batch[k].0
  {
    seq(|batch|, k requires 0 <= k < |batch| => batch[k].0)
  }

  method ZAdd(z: ZSet, p: Policy, batch: seq<(string, int)>, at: int) returns (after: ZSet)
    requires forall k :: 0 <= k < |batch| ==> batch[k].1 == Score(p, batch[k].0, at)
    ensures after == z + Scores(Entries(p, Members(batch), at))
  {
    hide Entries, Scores, Score;
    after := z;
    EntriesOfNone(p, at);
    for k := 0 to |batch|
      invariant after == z + Scores(Entries(p, Members(batch)[..k], at))
    {
      AddOne(z, p, Members(batch), k, at);
      after := after[batch[k].0 := batch[k].1];
    }
    assert Members(batch)[..|batch|] == Members(batch);
  }

  lemma EntriesOfNone(p: Policy, at: int)
    ensures Scores(Entries(p, [], at)) == map[]
  {
  }

  lemma AddOne(z: ZSet, p: Policy, domains: seq<string>, k: nat, at: int)
    requires k < |domains|
    ensures z + Scores(Entries(p, domains[..k + 1], at))
            == (z + Scores(Entries(p, domains[..k], at)))[domains[k] := Score(p, domains[k], at)]
  {
    hide MemberTTL, Expiry;
    assert domains[..k + 1] == domains[..k] + [domains[k]];
    EntriesConcat(p, domains[..k], [domains[k]], at);
    assert Scores(Entries(p, [domains[k]], at)) == map[domains[k] := Score(p, domains[k], at)];
  }

  lemma EntriesConcat(p: Policy, a: seq<string>, b: seq<string>, at: int)
    ensures Scores(Entries(p, a + b, at)) == Scores(Entries(p, a, at)) + Scores(Entries(p, b, at))
  {
    hide MemberTTL;
  }

  // Some batches are flushed, the members after them wait with their scores.
  ghost predicate Pending(p: Policy, at: int, queued: seq<string>, batch: seq<(string, int)>, flushes: nat) {
    && BATCH * flushes + |batch| == |queued|
    && Members(batch) == queued[BATCH * flushes..]
    && forall k :: 0 <= k < |batch| ==> batch[k].1 == Score(p, batch[k].0, at)
  }

  lemma NothingQueued(w: nat, p: Policy, script: Script, at: int, s: State)
    ensures Admitted(p, []) == [] && Pending(p, at, [], [], 0) && Live(s, Rounds(w, p, script, [], 0)) == s
    ensures Scores(Entries(p, [], at)) == map[]
  {
    EntriesOfNone(p, at);
  }

  lemma QueueOne(p: Policy, at: int, queued: seq<string>, batch: seq<(string, int)>, flushes: nat, d: string)
    requires Pending(p, at, queued, batch, flushes)
    ensures Pending(p, at, queued + [d], batch + [(d, Score(p, d, at))], flushes)
    ensures (queued + [d])[..BATCH * flushes] == queued[..BATCH * flushes]
  {
    hide Score;
  }

  // Flushes that are done do not depend on what is queued later.
  lemma {:induction false} RoundsGrow(w: nat, p: Policy, script: Script, queued: seq<string>, more: seq<string>, n: nat)
    requires queued <= more && BATCH * n <= |queued|
    ensures Rounds(w, p, script, queued, n) == Rounds(w, p, script, more, n)
  {
    if n > 0 {
      RoundsGrow(w, p, script, queued, more, n - 1);
      assert Chunk(queued, n - 1) == Chunk(more, n - 1);
    }
  }

  lemma AdmitOne(p: Policy, domains: seq<string>, d: string)
    ensures Admitted(p, domains + [d]) == Admitted(p, domains) + if p.admissible(d) then [d] else []
  {
    assert (domains + [d])[..|domains|] == domains;
  }

  lemma {:induction false} AdmittedGrows(p: Policy, domains: seq<string>, i: nat)
    requires i <= |domains|
    ensures Admitted(p, domains[..i]) <= Admitted(p, domains)
    decreases |domains| - i
  {
    if i < |domains| {
      assert domains[..i + 1] == domains[..i] + [domains[i]];
      AdmitOne(p, domains[..i], domains[i]);
      AdmittedGrows(p, domains, i + 1);
    } else {
      assert domains[..i] == domains;
    }
  }

  // A full batch whose flush fails ends the sync there.
  lemma StopsHere(w: nat, p: Policy, script: Script, i: nat, queued: seq<string>, flushes: nat)
    requires i <= |script.domains| && queued == Admitted(p, script.domains[..i]) && script.failsAt == Some(flushes)
    requires |queued| == BATCH * flushes + BATCH
    ensures var (all, done) := (Admitted(p, script.domains), if script.unheard then flushes + 1 else flushes);
            && Reach(|all|, script) == (BATCH * done, false) && Flushes(BATCH * done) == done
            && Rounds(w, p, script, all, done) == Rounds(w, p, script, queued, done)
  {
    hide Rounds;
    AdmittedGrows(p, script.domains, i);
    RoundsGrow(w, p, script, queued, Admitted(p, script.domains), if script.unheard then flushes + 1 else flushes);
  }

  // How a sync ends whose full batches were all flushed.
  lemma Ends(script: Script, n: nat, flushes: nat)
    requires BATCH * flushes <= n < BATCH * flushes + BATCH
    requires script.failsAt.Some? ==> flushes <= script.failsAt.value
    ensures var left := n > BATCH * flushes;
            && Flushes(BATCH * flushes) == flushes && Flushes(n) == (if left then flushes + 1 else flushes)
            && Reach(n, script) == if !script.parses then (BATCH * flushes, false)
                                   else if left && script.failsAt == Some(flushes) then
                                     (if script.unheard then n else BATCH * flushes, false)
                                   else (n, true)
  {
  }

  /* ---------- Windows ---------- */

  // A churn-prone host gets the churn window when that is on and shorter than the base, every other host
  // the base: the configured one, or fourteen days.
  lemma MemberTTLExactly(domain: string, p: Policy)
    ensures var base := if p.ttl > 0 then p.ttl else 14 * 24 * 3600 * 1_000_000_000;
            MemberTTL(domain, p) == if p.churnProne(domain) && 0 < p.churn < base then p.churn else base
  {
  }

  /* ---------- The margin a listed member needs ---------- */

  // A member scored by a clock read at most an interval ago outlives every sweep exactly when its window
  // exceeds the interval by a whole second: scores are cut to seconds, and a sweep takes the current one.
  lemma MarginExactly(ttl: int, interval: nat)
    ensures Outlives(ttl, interval) <==> ttl >= interval + SECOND
  {
    if ttl < interval + SECOND {
      // A write whose interval ends on a whole second, and the sweep at that end.
      assert (ttl - interval) / SECOND <= 0;
      assert !Survives(ttl, 0 - interval, 0);
    } else {
      forall u, t | u <= t <= u + interval
        ensures Survives(ttl, u, t)
      {
        LaterBySecond(t, u + ttl);
      }
    }
  }

  // Scored by a clock read at u, a member is still there after a sweep at t.
  predicate Survives(ttl: int, u: int, t: int) {
    (u + ttl) / SECOND > t / SECOND
  }

  ghost predicate Outlives(ttl: int, interval: int) {
    forall u, t :: u <= t <= u + interval ==> Survives(ttl, u, t)
  }

  lemma LaterBySecond(a: int, b: int)
    requires b >= a + SECOND
    ensures b / SECOND > a / SECOND
  {
  }

  // Settings that pass the startup check give that margin, whichever window applies to the member, when
  // windows and interval are whole multiples of a unit that exceeds the time a sync takes by a second.
  lemma CheckedConfigHasMargin(domain: string, p: Policy, interval: nat, unit: nat, timeout: nat)
    requires ChurnFits(p.churn, interval) && BaseTTL(p) > interval && unit >= timeout + SECOND
    requires BaseTTL(p) % unit == 0 && p.churn % unit == 0 && interval % unit == 0
    ensures MemberTTL(domain, p) >= interval + timeout + SECOND
  {
    WholeUnits(BaseTTL(p), interval, unit);
    if p.churn > interval {
      WholeUnits(p.churn, interval, unit);
    }
  }

  lemma WholeUnits(a: int, b: int, unit: nat)
    requires unit > 0 && a > b && a % unit == 0 && b % unit == 0
    ensures a >= b + unit
  {
    PositiveMultiple(unit, a / unit - b / unit);
  }

  lemma PositiveMultiple(unit: nat, k: int)
    requires unit > 0
    ensures unit * k > 0 ==> unit * k >= unit
  {
    if k >= 1 {
      assert unit * k == unit + unit * (k - 1);
    }
  }

  // In general the check is not enough: the shortest churn window and an interval just below it, and
  // when a sync takes its time, an interval a second below it.
  lemma CheckedConfigWithoutMargin()
    ensures var churn := ChurnTTLFromDays(2).value;
            && ChurnFits(churn, 2 * DAY - 1) && !Outlives(churn, 2 * DAY - 1)
            && ChurnFits(churn, 2 * DAY - SECOND)
            && forall age :: age > 2 * DAY - SECOND ==> !Outlives(churn, age)
  {
    MarginExactly(2 * DAY, 2 * DAY - 1);
    forall age: int | age > 2 * DAY - SECOND
      ensures !Outlives(2 * DAY, age)
    {
      MarginExactly(2 * DAY, age);
    }
  }

  // Configured windows are whole days.
  lemma ConfiguredWindowsAreWhole(days: int)
    ensures TTLFromDays(days).Some? ==> TTLFromDays(days).value % SECOND == 0 && TTLFromDays(days).value > 0
    ensures ChurnTTLFromDays(days).Some? ==>
              ChurnTTLFromDays(days).value % SECOND == 0 && (days > 0 ==> ChurnTTLFromDays(days).value >= 2 * DAY)
  {
    assert DAY == SECOND * 86_400;
    assert days * DAY == SECOND * (86_400 * days);
    MultipleOfSecond(86_400 * days);
  }

  lemma MultipleOfSecond(k: int)
    ensures (SECOND * k) % SECOND == 0
  {
  }
}
