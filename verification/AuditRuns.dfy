/**
 What the audit cursor protocol guarantees over a service's whole life.
 */
module AuditRuns {
  import opened Text
  import opened AuditState

  /* ---------- Pages ---------- */

  lemma {:induction false} DomainsAre(log: seq<Entry>)
    ensures Ascending(Domains(log)) && forall e :: e in log ==> e.domain in Domains(log)
  {
    if log != [] {
      DomainsAre(log[..|log| - 1]);
      InsertIs(Domains(log[..|log| - 1]), log[|log| - 1].domain);
      assert log == log[..|log| - 1] + [log[|log| - 1]];
    }
  }

  lemma {:induction false} CountedIsLogged(log: seq<Entry>, domain: string, end: int, lookback: int)
    ensures Count(log, domain, end, lookback) > 0 ==> exists e :: e in log && e.domain == domain
  {
    if log != [] && Count(log, domain, end, lookback) > 0 {
      CountedIsLogged(log[..|log| - 1], domain, end, lookback);
      var e := log[|log| - 1];
      if e.domain != domain {
        var x :| x in log[..|log| - 1] && x.domain == domain;
        assert x in log;
      } else {
        assert e in log;
      }
    }
  }

  lemma {:induction false} SelectedAre(names: seq<string>, log: seq<Entry>, cfg: Config, end: int, after: string)
    requires Ascending(names)
    ensures var all := Selected(names, log, cfg, end, after);
            && Ascending(all)
            && forall x :: x in all <==> x in names && Qualifies(log, cfg, x, end) && (after == "" || Less(after, x))
    decreases |names|
  {
    hide Less, Qualifies;
    if names != [] {
      SelectedAre(names[1..], log, cfg, end, after);
      var rest := Selected(names[1..], log, cfg, end, after);
      forall j | 0 <= j < |rest|
        ensures Less(names[0], rest[j])
      {
        assert rest[j] in rest;
      }
    }
  }

  // A page holds the qualifying domains after the resume point in order, and only a full page leaves
  // any out, all of them greater.
  lemma PageIs(log: seq<Entry>, cfg: Config, end: int, after: string)
    requires cfg.maxPerCycle > 0 && cfg.minOccurrences > 0
    ensures var page := Page(log, cfg, end, after);
            && Ascending(page) && |page| <= cfg.maxPerCycle
            && (forall x :: x in page ==> Qualifies(log, cfg, x, end) && (after == "" || Less(after, x)))
            && forall x :: Qualifies(log, cfg, x, end) && (after == "" || Less(after, x)) ==>
                 x in page || (|page| == cfg.maxPerCycle && Less(page[|page| - 1], x))
  {
    hide Less, Domains, Selected, Count;
    DomainsAre(log);
    SelectedAre(Domains(log), log, cfg, end, after);
    var all := Selected(Domains(log), log, cfg, end, after);
    var page := Page(log, cfg, end, after);
    assert forall i :: 0 <= i < |page| ==> page[i] == all[i] && all[i] in all;
    forall x | Qualifies(log, cfg, x, end) && (after == "" || Less(after, x))
      ensures x in page || (|page| == cfg.maxPerCycle && Less(page[|page| - 1], x))
    {
      CountedIsLogged(log, x, end, cfg.lookback);
      assert x in all;
      var i :| 0 <= i < |all| && all[i] == x;
      if i < |page| {
        assert page[i] == x;
      }
    }
  }

  /* ---------- Invariants ---------- */

  // A cursor with progress vouches for its window: every qualifying domain up to it was audited in
  // that window.
  ghost predicate Vouches(s: State, cfg: Config, c: Cursor) {
    c.last != "" ==>
      c.end.Some? && forall d :: Qualifies(s.log, cfg, d, c.end.value) && !Less(c.last, d) ==>
        Audit(c.end.value, d) in s.audited
  }

  // A retired window had every qualifying domain audited.
  ghost predicate RetiredAudited(s: State, cfg: Config) {
    forall r, d :: r in s.retired && Qualifies(r.log, cfg, d, r.end) ==> Audit(r.end, d) in s.audited
  }

  ghost predicate Inv(s: State, cfg: Config) {
    && (s.up ==> Vouches(s, cfg, s.cursor)) && (s.stored.Some? ==> Vouches(s, cfg, s.stored.value))
    && RetiredAudited(s, cfg)
  }

  /* ---------- A cycle ---------- */

  lemma {:induction false} ReachIs(page: seq<string>, outcomes: seq<Outcome>)
    ensures var n := Reach(page, outcomes).0;
            n <= |outcomes| && (forall i :: 0 <= i < n ==> outcomes[i] == Audited)
  {
    if page != [] && outcomes != [] && outcomes[0] == Audited {
      ReachIs(page[1..], outcomes[1..]);
    }
  }

  // The audited prefix of a page, with what came before, is everything up to its last domain.
  lemma PrefixAudited(s: State, cfg: Config, end: int, page: seq<string>, n: nat, d: string)
    requires cfg.maxPerCycle > 0 && cfg.minOccurrences > 0 && page == Page(s.log, cfg, end, s.cursor.last)
    requires Vouches(s, cfg, s.cursor) && (s.cursor.last != "" ==> s.cursor.end == Some(end))
    requires n <= |page| && Qualifies(s.log, cfg, d, end)
    requires (n > 0 && !Less(page[n - 1], d)) || (n == |page| < cfg.maxPerCycle)
    ensures Audit(end, d) in s.audited + Audits(page, n, end)
  {
    hide Less, Page, Qualifies;
    PageIs(s.log, cfg, end, s.cursor.last);
    if s.cursor.last == "" || Less(s.cursor.last, d) {
      if d in page {
        var i :| 0 <= i < |page| && page[i] == d;
        assert i < n;
      } else {
        if 0 < n < |page| {
          LessTransitive(page[n - 1], page[|page| - 1], d);
        }
        assert false;
      }
    }
  }

  lemma WindowKept(c: Cursor, now: int, lookback: int)
    requires c.last != "" && c.end.Some?
    ensures Some(WindowEnd(c, now, lookback)) == c.end
  {
  }

  // More audits and more time change nothing a cursor vouches for.
  lemma VouchesStill(s: State, s': State, cfg: Config, c: Cursor)
    requires Vouches(s, cfg, c) && s'.log == s.log && s.audited <= s'.audited
    ensures Vouches(s', cfg, c)
  {
    hide Qualifies, Less;
  }

  lemma RetiredStill(s: State, s': State, cfg: Config)
    requires RetiredAudited(s, cfg) && s'.retired == s.retired && s.audited <= s'.audited
    ensures RetiredAudited(s', cfg)
  {
    hide Qualifies;
  }

  lemma InvStill(s: State, s': State, cfg: Config)
    requires Inv(s, cfg) && s'.log == s.log && s'.retired == s.retired && s.audited <= s'.audited
    requires s'.stored == s.stored && (s'.up ==> s.up && s'.cursor == s.cursor)
    ensures Inv(s', cfg)
  {
    hide Vouches, RetiredAudited;
    RetiredStill(s, s', cfg);
    if s'.up {
      VouchesStill(s, s', cfg, s.cursor);
    }
    if s.stored.Some? {
      VouchesStill(s, s', cfg, s.stored.value);
    }
  }

  lemma StoreKeeps(s: State, cfg: Config, c: Cursor, written: bool)
    requires Inv(s, cfg) && s.up && Vouches(s, cfg, c)
    ensures Inv(Store(s, c, written), cfg)
  {
    hide Vouches, RetiredAudited;
    var s' := Store(s, c, written);
    VouchesStill(s, s', cfg, c);
    RetiredStill(s, s', cfg);
    if s.stored.Some? {
      VouchesStill(s, s', cfg, s.stored.value);
    }
  }

  lemma RetireKeeps(s: State, cfg: Config, end: int, written: bool)
    requires Inv(s, cfg) && s.up && forall d :: Qualifies(s.log, cfg, d, end) ==> Audit(end, d) in s.audited
    ensures Inv(Retire(s, end, written), cfg)
  {
    hide Qualifies;
    var c := Cursor(Some(s.now), "");
    StoreKeeps(s, cfg, c, written);
    var stored := Store(s, c, written);
    var s' := Retire(s, end, written);
    VouchesStill(stored, s', cfg, c);
    if stored.stored.Some? {
      VouchesStill(stored, s', cfg, stored.stored.value);
    }
  }

  lemma RunKeeps(s: State, cfg: Config, script: Script)
    requires Inv(s, cfg) && s.up && cfg.maxPerCycle > 0 && cfg.minOccurrences > 0
    ensures Inv(RunCycle(s, cfg, script).0, cfg)
  {
    hide Page, Reach, Audits, Store, Retire, Inv, Vouches, Qualifies, Less, WindowEnd;
    var end := WindowEnd(s.cursor, s.now, cfg.lookback);
    UpVouches(s, cfg);
    if s.cursor.last != "" {
      WindowKept(s.cursor, s.now, cfg.lookback);
    }
    InvStill(s, s.(now := s.now + script.took), cfg);
    var page := Page(s.log, cfg, end, s.cursor.last);
    var (n, stop) := Reach(page, script.outcomes);
    var s1 := s.(now := s.now + script.took, audited := s.audited + Audits(page, n, end));
    InvStill(s, s1, cfg);
    InvStill(s, s1.(up := false), cfg);
    if n > 0 {
      var c := Cursor(Some(end), page[n - 1]);
      PrefixVouches(s, s1, cfg, end, page, n);
      StoreKeeps(s1, cfg, c, script.written);
    }
    if n == |page| < cfg.maxPerCycle {
      forall d | Qualifies(s1.log, cfg, d, end)
        ensures Audit(end, d) in s1.audited
      {
        PrefixAudited(s, cfg, end, page, n, d);
      }
      RetireKeeps(s1, cfg, end, script.written);
    }
  }

  lemma UpVouches(s: State, cfg: Config)
    requires Inv(s, cfg) && s.up
    ensures Vouches(s, cfg, s.cursor) && (s.cursor.last != "" ==> s.cursor.end.Some?)
  {
  }

  lemma PrefixVouches(s: State, s1: State, cfg: Config, end: int, page: seq<string>, n: nat)
    requires cfg.maxPerCycle > 0 && cfg.minOccurrences > 0 && page == Page(s.log, cfg, end, s.cursor.last)
    requires Vouches(s, cfg, s.cursor) && (s.cursor.last != "" ==> s.cursor.end == Some(end))
    requires 0 < n <= |page| && s1.log == s.log && s1.audited == s.audited + Audits(page, n, end)
    ensures Vouches(s1, cfg, Cursor(Some(end), page[n - 1]))
  {
    hide Page, Audits, Qualifies, Less;
    forall d | Qualifies(s1.log, cfg, d, end) && !Less(page[n - 1], d)
      ensures Audit(end, d) in s1.audited
    {
      PrefixAudited(s, cfg, end, page, n, d);
    }
  }

  /* ---------- A life ---------- */

  lemma CountGrows(log: seq<Entry>, e: Entry, d: string, end: int, lookback: int)
    ensures Count(log + [e], d, end, lookback)
         == Count(log, d, end, lookback) + if e.suspicious && e.domain == d && InWindow(e.at, end, lookback) then 1 else 0
  {
    assert (log + [e])[..|log|] == log;
  }

  // The entry makes a domain the cursor has passed qualify, unaudited.
  predicate Overtaken(s: State, cfg: Config, c: Cursor, e: Entry)
    requires c.end.Some?
  {
    && e.suspicious && InWindow(e.at, c.end.value, cfg.lookback) && !Less(c.last, e.domain)
    && Count(s.log, e.domain, c.end.value, cfg.lookback) == cfg.minOccurrences - 1
    && Audit(c.end.value, e.domain) !in s.audited
  }

  // An entry that arrives keeps a cursor's claim exactly when it overtakes no passed domain.
  lemma LateEntryExactly(s: State, cfg: Config, c: Cursor, e: Entry)
    requires Vouches(s, cfg, c) && c.last != ""
    ensures Vouches(s.(log := s.log + [e]), cfg, c) <==> !Overtaken(s, cfg, c, e)
  {
    hide Less, InWindow, Count;
    forall d
      ensures Count(s.log + [e], d, c.end.value, cfg.lookback) == Count(s.log, d, c.end.value, cfg.lookback)
              + if e.suspicious && e.domain == d && InWindow(e.at, c.end.value, cfg.lookback) then 1 else 0
    {
      CountGrows(s.log, e, d, c.end.value, cfg.lookback);
    }
  }

  // The step adds an entry that overtakes a domain the cursor has passed, in memory or stored.
  predicate Overtakes(s: State, cfg: Config, op: Op) {
    op.Arrives? &&
      ((s.up && Passes(s, cfg, s.cursor, op.entry)) || (s.stored.Some? && Passes(s, cfg, s.stored.value, op.entry)))
  }

  predicate Passes(s: State, cfg: Config, c: Cursor, e: Entry) {
    c.last != "" && c.end.Some? && Overtaken(s, cfg, c, e)
  }

  lemma ArrivalExactly(s: State, cfg: Config, c: Cursor, e: Entry)
    requires Vouches(s, cfg, c)
    ensures Vouches(s.(log := s.log + [e]), cfg, c) <==> !Passes(s, cfg, c, e)
  {
    hide Less, InWindow, Count, Overtaken;
    if c.last != "" {
      LateEntryExactly(s, cfg, c, e);
    }
  }

  // A step keeps every claim exactly when it overtakes no passed domain.
  lemma StepExactly(s: State, cfg: Config, op: Op)
    requires Inv(s, cfg) && cfg.maxPerCycle > 0 && cfg.minOccurrences > 0
    ensures Inv(Step(s, cfg, op), cfg) <==> !Overtakes(s, cfg, op)
  {
    hide RunCycle, Vouches, RetiredAudited, Passes;
    match op
    case Runs(script) =>
      if s.up {
        RunKeeps(s, cfg, script);
      }
    case Arrives(e) =>
      if s.up {
        ArrivalExactly(s, cfg, s.cursor, e);
      }
      if s.stored.Some? {
        ArrivalExactly(s, cfg, s.stored.value, e);
      }
      RetiredStill(s, s.(log := s.log + [e]), cfg);
    case Restarts(loads) =>
      if !s.up {
        RestartKeeps(s, cfg, loads);
      }
    case _ => InvStill(s, Step(s, cfg, op), cfg);
  }

  lemma RestartKeeps(s: State, cfg: Config, loads: bool)
    requires Inv(s, cfg)
    ensures Inv(Restart(s, loads), cfg)
  {
    hide Qualifies, Less;
  }

  lemma {:induction false} LiveStep(s: State, cfg: Config, ops: seq<Op>, n: nat)
    requires cfg.maxPerCycle > 0 && n < |ops|
    ensures Live(s, cfg, ops[..n + 1]) == Step(Live(s, cfg, ops[..n]), cfg, ops[n])
    decreases n
  {
    hide Step;
    assert ops[..n + 1][0] == ops[0] && ops[..n + 1][1..] == ops[1..][..n];
    if n == 0 {
      NoSteps(s, cfg, ops[..0]);
      NoSteps(Step(s, cfg, ops[0]), cfg, ops[1..][..0]);
    } else {
      assert ops[..n][1..] == ops[1..][..n - 1];
      LiveStep(Step(s, cfg, ops[0]), cfg, ops[1..], n - 1);
    }
  }

  lemma NoSteps(s: State, cfg: Config, ops: seq<Op>)
    requires cfg.maxPerCycle > 0 && |ops| == 0
    ensures Live(s, cfg, ops) == s
  {
  }

  // The claims hold after every step of a life.
  ghost predicate AlwaysClaimed(s: State, cfg: Config, ops: seq<Op>)
    requires cfg.maxPerCycle > 0
  {
    forall n :: 0 <= n <= |ops| ==> Inv(Live(s, cfg, ops[..n]), cfg)
  }

  // No step of a life overtakes a passed domain.
  ghost predicate NeverOvertaken(s: State, cfg: Config, ops: seq<Op>)
    requires cfg.maxPerCycle > 0
  {
    forall n :: 0 <= n < |ops| ==> !Overtakes(Live(s, cfg, ops[..n]), cfg, ops[n])
  }

  lemma {:induction false} ClaimsUpTo(s: State, cfg: Config, ops: seq<Op>, n: nat)
    requires Inv(s, cfg) && cfg.maxPerCycle > 0 && cfg.minOccurrences > 0 && n <= |ops| && NeverOvertaken(s, cfg, ops)
    ensures Inv(Live(s, cfg, ops[..n]), cfg)
  {
    hide Inv, Step, Overtakes, Live;
    if n == 0 {
      NoSteps(s, cfg, ops[..0]);
    } else {
      ClaimsUpTo(s, cfg, ops, n - 1);
      LiveStep(s, cfg, ops, n - 1);
      StepExactly(Live(s, cfg, ops[..n - 1]), cfg, ops[n - 1]);
    }
  }

  lemma LifeExactly(s: State, cfg: Config, ops: seq<Op>)
    requires Inv(s, cfg) && cfg.maxPerCycle > 0 && cfg.minOccurrences > 0
    ensures AlwaysClaimed(s, cfg, ops) <==> NeverOvertaken(s, cfg, ops)
  {
    hide Inv, Step, Overtakes, Live;
    if NeverOvertaken(s, cfg, ops) {
      forall n | 0 <= n <= |ops|
        ensures Inv(Live(s, cfg, ops[..n]), cfg)
      {
        ClaimsUpTo(s, cfg, ops, n);
      }
    }
    if AlwaysClaimed(s, cfg, ops) {
      forall n | 0 <= n < |ops|
        ensures !Overtakes(Live(s, cfg, ops[..n]), cfg, ops[n])
      {
        LiveStep(s, cfg, ops, n);
        StepExactly(Live(s, cfg, ops[..n]), cfg, ops[n]);
      }
    }
  }

  /* ---------- Theorems ---------- */

  function Fresh(log: seq<Entry>, now: int): State {
    State(log, None, now, Cursor(None, ""), true, {}, [])
  }

  // Across cancellations, audit errors, failed writes, crashes and restarts, at every point of a life:
  // whenever the cursor, in memory or stored, is at a domain of a window, every qualifying domain up
  // to it was audited in that window, and a window was retired only after all its qualifying domains
  // were; exactly when no entry ever arrives that makes a passed domain qualify unaudited.
  lemma AuditedUpToTheCursor(log: seq<Entry>, now: int, c: Config, ops: seq<Op>)
    ensures var (cfg, s) := (Defaulted(c), Fresh(log, now));
            && (AlwaysClaimed(s, cfg, ops) <==> NeverOvertaken(s, cfg, ops))
            && (NeverOvertaken(s, cfg, ops) ==>
                  var r := Live(s, cfg, ops);
                  && (r.up ==> Vouches(r, cfg, r.cursor)) && (r.stored.Some? ==> Vouches(r, cfg, r.stored.value))
                  && RetiredAudited(r, cfg))
  {
    hide Live, Vouches, RetiredAudited, Defaulted, NeverOvertaken, AlwaysClaimed;
    var (cfg, s) := (Defaulted(c), Fresh(log, now));
    FreshHolds(s, cfg);
    LifeExactly(s, cfg, ops);
    if NeverOvertaken(s, cfg, ops) {
      ClaimsUpTo(s, cfg, ops, |ops|);
      assert ops[..|ops|] == ops;
    }
  }

  lemma FreshHolds(s: State, cfg: Config)
    requires s.cursor.last == "" && s.stored == None && s.retired == []
    ensures Inv(s, cfg)
  {
  }

  // A window with progress is never replaced: the next cycle works in the same window.
  lemma ProgressKeepsTheWindow(s: State, cfg: Config, script: Script)
    requires s.cursor.last != "" && s.cursor.end.Some? && cfg.maxPerCycle > 0
    ensures var (r, end) := RunCycle(s, cfg, script);
            || r.cursor == s.cursor
            || (r.cursor.end == s.cursor.end && r.retired == s.retired)
            || (|r.retired| == |s.retired| + 1 && r.retired[|s.retired|].end == s.cursor.end.value)
  {
    hide Page, Reach, Audits;
  }

  // The window is not frozen at its end: the text comparison admits entries logged up to two whole
  // seconds later, except exactly on the next second.
  lemma FreezesExactly(at: int, end: int, lookback: int)
    requires at >= end && lookback >= 0
    ensures InWindow(at, end, lookback)
       <==> (at < (end / SECOND + 2) * SECOND && at != (end / SECOND + 1) * SECOND
             && (lookback >= SECOND || !TextBefore(at, (end - lookback) / SECOND)))
  {
    var (q, r) := (at / SECOND, at % SECOND);
    assert at == q * SECOND + r;
  }

  const ONE_AT_A_TIME := Config(1, 1, DAY)

  const CLEAN := Script(true, 0, [Audited], true)

  const LATE := Entry("a", SECOND / 2, true)

  // The state after "b" was audited in the window ending at 0.
  function AfterB(): State {
    var c := Cursor(Some(0), "b");
    State([Entry("b", 0, true)], Some(c), 0, c, true, {Audit(0, "b")}, [])
  }

  lemma BIsAudited()
    ensures RunCycle(Fresh([Entry("b", 0, true)], 0), ONE_AT_A_TIME, CLEAN) == (AfterB(), Done)
  {
    hide Reach, Audits, Domains, Selected;
    var s := Fresh([Entry("b", 0, true)], 0);
    OnlyB();
    OneReached();
    assert Page(s.log, ONE_AT_A_TIME, 0, "") == ["b"];
    assert s.audited + Audits(["b"], 1, 0) == {Audit(0, "b")};
  }

  lemma OneReached()
    ensures Reach(["b"], [Audited]) == (1, Audited) && Audits(["b"], 1, 0) == {Audit(0, "b")}
  {
    assert Reach([], []) == (0, Audited);
    assert Audit(0, ["b"][0]) in Audits(["b"], 1, 0);
  }

  lemma OnlyB()
    ensures Domains([Entry("b", 0, true)]) == ["b"] && Count([Entry("b", 0, true)], "b", 0, DAY) == 1
    ensures Selected(["b"], [Entry("b", 0, true)], ONE_AT_A_TIME, 0, "") == ["b"]
  {
    var log := [Entry("b", 0, true)];
    assert log[..0] == [] && Domains([]) == [] && Count([], "b", 0, DAY) == 0;
    assert InWindow(0, 0, DAY);
    assert Selected([], log, ONE_AT_A_TIME, 0, "") == [];
  }

  lemma AIsPassed()
    ensures var log := [Entry("b", 0, true), LATE];
            Count(log, "a", 0, DAY) == 1 && Page(log, ONE_AT_A_TIME, 0, "b") == []
  {
    var log := [Entry("b", 0, true), LATE];
    assert log[..1] == [Entry("b", 0, true)] && [Entry("b", 0, true)][..0] == [];
    assert Count([], "a", 0, DAY) == 0;
    assert InWindow(SECOND / 2, 0, DAY);
    OnlyB();
    assert Less("a", "b") && !Less("b", "a") && !Less("b", "b");
    assert Domains(log) == ["a", "b"];
    assert ["a", "b"][1..] == ["b"] && ["b"][1..] == [];
    assert Selected(["b"], log, ONE_AT_A_TIME, 0, "b") == [] + Selected([], log, ONE_AT_A_TIME, 0, "b");
  }

  // Such an entry exists: with pages of one domain and a count of one, "b" is audited, then "a" is
  // logged half a second after the window's end, and the next cycle retires the window without it.
  lemma LateEntryIsSkipped()
    ensures var ops := [Runs(CLEAN), Waits(SECOND / 2), Arrives(LATE), Runs(CLEAN)];
            var r := Live(Fresh([Entry("b", 0, true)], 0), ONE_AT_A_TIME, ops);
            && Defaulted(ONE_AT_A_TIME) == ONE_AT_A_TIME
            && r.retired == [Retired(0, SECOND / 2, [Entry("b", 0, true), LATE])]
            && Qualifies(r.retired[0].log, ONE_AT_A_TIME, "a", 0) && Audit(0, "a") !in r.audited
  {
    hide RunCycle, Live, Count, Page;
    var s := Fresh([Entry("b", 0, true)], 0);
    var ops := [Runs(CLEAN), Waits(SECOND / 2), Arrives(LATE), Runs(CLEAN)];
    NoSteps(s, ONE_AT_A_TIME, ops[..0]);
    LiveStep(s, ONE_AT_A_TIME, ops, 0);
    LiveStep(s, ONE_AT_A_TIME, ops, 1);
    LiveStep(s, ONE_AT_A_TIME, ops, 2);
    LiveStep(s, ONE_AT_A_TIME, ops, 3);
    assert ops[..4] == ops;
    BIsAudited();
    AIsPassed();
    var late := AfterB().(now := SECOND / 2, log := [Entry("b", 0, true), LATE]);
    assert AfterB().log + [LATE] == late.log;
    assert Live(s, ONE_AT_A_TIME, ops[..3]) == late;
    RetiresEmpty(late);
  }

  // An empty page retires the window.
  lemma RetiresEmpty(s: State)
    requires s.cursor == Cursor(Some(0), "b") && Page(s.log, ONE_AT_A_TIME, 0, "b") == []
    ensures var r := RunCycle(s, ONE_AT_A_TIME, CLEAN).0;
            r.retired == s.retired + [Retired(0, s.now, s.log)] && r.audited == s.audited
  {
    hide Page;
    assert Reach([], [Audited]) == (0, Audited);
    assert Audits([], 0, 0) == {};
  }

  // The window after a retired or lost one begins a lookback before its own end, not where the old
  // one ended: every time from the old start to the new end is in one of the two exactly when the
  // new end is at most about a lookback later than the old one.
  lemma WindowsMeetExactly(former: int, next: int, lookback: int)
    requires next >= former && lookback > 0
    ensures Meet(former, next, lookback) <==> (next - lookback) / SECOND <= former / SECOND + 1
  {
    var (u, v) := (former / SECOND + 1, (next - lookback) / SECOND);
    if v > u {
      var at := u * SECOND;
      assert at / SECOND == u && at % SECOND == 0;
      DivMono(former - lookback, former);
      DivMono(next - lookback, next);
      assert Spanned(at, former, next, lookback) && !InWindow(at, former, lookback) && !InWindow(at, next, lookback);
    }
  }

  // From the start of the former window to the end of the next.
  predicate Spanned(at: int, former: int, next: int, lookback: int) {
    !TextBefore(at, (former - lookback) / SECOND) && TextBefore(at, next / SECOND + 1)
  }

  ghost predicate Meet(former: int, next: int, lookback: int) {
    forall at :: Spanned(at, former, next, lookback) ==> InWindow(at, former, lookback) || InWindow(at, next, lookback)
  }

  lemma DivMono(a: int, b: int)
    requires a <= b
    ensures a / SECOND <= b / SECOND
  {
  }

  /* ---------- Cycles without failures ---------- */

  // The qualifying domains a cursor in this window still has ahead.
  function Remaining(s: State, cfg: Config, end: int, last: string): seq<string> {
    Selected(Domains(s.log), s.log, cfg, end, last)
  }

  lemma RemainingAfter(s: State, cfg: Config, end: int, last: string, n: nat)
    requires 0 < n <= |Remaining(s, cfg, end, last)| && Remaining(s, cfg, end, last)[n - 1] != ""
    ensures Remaining(s, cfg, end, Remaining(s, cfg, end, last)[n - 1]) == Remaining(s, cfg, end, last)[n..]
  {
    hide Less, Domains, Selected, Qualifies, Ascending;
    DomainsAre(s.log);
    var all := Remaining(s, cfg, end, last);
    var next := all[n - 1];
    SelectedAre(Domains(s.log), s.log, cfg, end, last);
    SelectedAre(Domains(s.log), s.log, cfg, end, next);
    assert next in all;
    Later(all, n, last, next);
    AscendingIsUnique(Remaining(s, cfg, end, next), all[n..]);
  }

  // The elements after the n-th of an ascending listing are those greater than it.
  lemma Later(all: seq<string>, n: nat, last: string, next: string)
    requires Ascending(all) && 0 < n <= |all| && next == all[n - 1] && (last == "" || Less(last, next))
    ensures Ascending(all[n..])
    ensures forall x :: x in all[n..] <==> x in all && Less(next, x)
    ensures forall x :: Less(next, x) ==> last == "" || Less(last, x)
  {
    hide Less;
    forall i | 0 <= i < n
      ensures !Less(next, all[i])
    {
      LessIsStrict(all[i], next);
      LessIsStrict(next, all[i]);
    }
    forall x | Less(next, x)
      ensures last == "" || Less(last, x)
    {
      if last != "" {
        LessTransitive(last, next, x);
      }
    }
  }

  // A cycle in which nothing fails audits the next page and moves past it, or retires the window.
  lemma CleanCycleAdvances(s: State, cfg: Config, script: Script)
    requires s.up && cfg.maxPerCycle > 0 && cfg.minOccurrences > 0 && script.queryOk
    requires |script.outcomes| >= cfg.maxPerCycle && forall o :: o in script.outcomes ==> o == Audited
    requires forall e :: e in s.log ==> e.domain != ""
    ensures var end := WindowEnd(s.cursor, s.now, cfg.lookback);
            var all := Remaining(s, cfg, end, s.cursor.last);
            var (r, how) := RunCycle(s, cfg, script);
            && how == Done
            && if |all| < cfg.maxPerCycle then
                 |r.retired| == |s.retired| + 1 && r.retired[|s.retired|].end == end
                 && r.audited == s.audited + Audits(all, |all|, end)
               else
                 r.cursor.end == Some(end) && Remaining(r, cfg, end, r.cursor.last) == all[cfg.maxPerCycle..]
                 && r.audited == s.audited + Audits(all, cfg.maxPerCycle, end)
  {
    hide Selected, Domains, Qualifies, Reach, Audits, WindowEnd, Less;
    var end := WindowEnd(s.cursor, s.now, cfg.lookback);
    var all := Remaining(s, cfg, end, s.cursor.last);
    var page := Page(s.log, cfg, end, s.cursor.last);
    AllAudited(page, script.outcomes);
    SameAudits(all, page, end);
    if |all| >= cfg.maxPerCycle {
      assert page[|page| - 1] == all[cfg.maxPerCycle - 1];
      NamesNotEmpty(s, cfg, end, s.cursor.last, cfg.maxPerCycle - 1);
      RemainingAfter(s, cfg, end, s.cursor.last, cfg.maxPerCycle);
    }
  }

  lemma NamesNotEmpty(s: State, cfg: Config, end: int, last: string, i: nat)
    requires i < |Remaining(s, cfg, end, last)| && cfg.minOccurrences > 0 && forall e :: e in s.log ==> e.domain != ""
    ensures Remaining(s, cfg, end, last)[i] != ""
  {
    hide Less, Selected, Domains, Count;
    DomainsAre(s.log);
    SelectedAre(Domains(s.log), s.log, cfg, end, last);
    var x := Remaining(s, cfg, end, last)[i];
    assert x in Remaining(s, cfg, end, last);
    CountedIsLogged(s.log, x, end, cfg.lookback);
  }

  lemma {:induction false} AllAudited(page: seq<string>, outcomes: seq<Outcome>)
    requires |outcomes| >= |page| && forall o :: o in outcomes ==> o == Audited
    ensures Reach(page, outcomes) == (|page|, Audited)
  {
    if page != [] {
      assert outcomes[0] in outcomes && forall o :: o in outcomes[1..] ==> o in outcomes;
      AllAudited(page[1..], outcomes[1..]);
    }
  }

  lemma SameAudits(all: seq<string>, page: seq<string>, end: int)
    requires |page| <= |all| && page == all[..|page|]
    ensures Audits(page, |page|, end) == Audits(all, |page|, end)
  {
    assert forall i :: 0 <= i < |page| ==> page[i] == all[i];
  }

  /* ---------- The window of a cycle, and how it ends ---------- */

  // A fresh cursor starts a window now; one with progress resumes its own; an idle one keeps its window
  // unless that ended more than a lookback ago.
  lemma WindowExactly(c: Cursor, now: int, lookback: nat)
    ensures c.end == None ==> WindowEnd(c, now, lookback) == now
    ensures c.end.Some? && (c.last != "" || c.end.value >= now - lookback) ==> WindowEnd(c, now, lookback) == c.end.value
    ensures c.end.Some? && c.last == "" && c.end.value < now - lookback ==> WindowEnd(c, now, lookback) == now
  {
  }

  // The times a window holds: from its start, cut to the second, of which only the very beginning counts,
  // to the end of the second after its end, without the beginning of that one.
  lemma InWindowExactly(at: int, end: int, lookback: int)
    ensures var (first, last) := ((end - lookback) / SECOND * SECOND, end / SECOND * SECOND + SECOND);
            InWindow(at, end, lookback)
            <==> (at == first || at >= first + SECOND) && (at < last || last < at < last + SECOND)
  {
    var (q, r) := (at / SECOND, at % SECOND);
    assert at == q * SECOND + r;
  }

  // Where the log holds suspicious entries of a domain in the window.
  function Positions(log: seq<Entry>, domain: string, end: int, lookback: int): set<int> {
    set i | 0 <= i < |log| && log[i].suspicious && log[i].domain == domain && InWindow(log[i].at, end, lookback)
  }

  // What is compared with the threshold is their number.
  lemma {:induction false} CountsOccurrences(log: seq<Entry>, domain: string, end: int, lookback: int)
    ensures Count(log, domain, end, lookback) == |Positions(log, domain, end, lookback)|
  {
    hide InWindow, Positions;
    if log == [] {
      NoPositions(log, domain, end, lookback);
    } else {
      CountsOccurrences(log[..|log| - 1], domain, end, lookback);
      PositionsStep(log, domain, end, lookback);
    }
  }

  lemma NoPositions(log: seq<Entry>, domain: string, end: int, lookback: int)
    requires log == []
    ensures Positions(log, domain, end, lookback) == {}
  {
  }

  lemma PositionsStep(log: seq<Entry>, domain: string, end: int, lookback: int)
    requires log != []
    ensures var n := |log| - 1;
            && n !in Positions(log[..n], domain, end, lookback)
            && Positions(log, domain, end, lookback)
               == Positions(log[..n], domain, end, lookback)
                  + if log[n].suspicious && log[n].domain == domain && InWindow(log[n].at, end, lookback) then {n} else {}
  {
    hide InWindow;
    var n := |log| - 1;
    assert forall i :: 0 <= i < n ==> log[..n][i] == log[i];
  }

  // What a cycle does whose first n audits succeed: when the next one fails or is cancelled, the cycle
  // reports it and commits the audited prefix, if there is one; after a full page it moves past it, and
  // after a page that is not full it retires the window.
  lemma CycleEnds(s: State, cfg: Config, script: Script, n: nat)
    requires cfg.maxPerCycle > 0 && script.queryOk
    requires var page := Page(s.log, cfg, WindowEnd(s.cursor, s.now, cfg.lookback), s.cursor.last);
             && n <= |page| && n <= |script.outcomes| && (forall i :: 0 <= i < n ==> script.outcomes[i] == Audited)
             && (forall d :: d in page ==> d != "")
             && (n == |page| || (n < |script.outcomes| && script.outcomes[n] in {Fails, Cancelled}))
    ensures var window := WindowEnd(s.cursor, s.now, cfg.lookback);
            var page := Page(s.log, cfg, window, s.cursor.last);
            var (r, end) := RunCycle(s, cfg, script);
            var moved := if n == |page| < cfg.maxPerCycle then Cursor(Some(r.now), "")
                         else if n == 0 then s.cursor else Cursor(Some(window), page[n - 1]);
            && r.up == s.up && r.now == s.now + script.took && r.log == s.log
            && (end == Failed <==> n < |page|) && (end == Done <==> n == |page|)
            && (forall d :: Audit(window, d) in r.audited <==> Audit(window, d) in s.audited || d in page[..n])
            && r.cursor == moved
            && r.stored == (if script.written && (n > 0 || n == |page|) then Some(moved)
                            else s.stored)
  {
    hide Page, Reach, WindowEnd;
    var window := WindowEnd(s.cursor, s.now, cfg.lookback);
    var page := Page(s.log, cfg, window, s.cursor.last);
    ReachOf(page, script.outcomes, n);
    assert n > 0 ==> page[n - 1] in page;
    assert forall d :: Audit(window, d) in Audits(page, n, window) <==> d in page[..n];
  }

  lemma {:induction false} ReachOf(page: seq<string>, outcomes: seq<Outcome>, n: nat)
    requires n <= |page| && n <= |outcomes| && forall j :: 0 <= j < n ==> outcomes[j] == Audited
    ensures n == |page| ==> Reach(page, outcomes) == (n, Audited)
    ensures n < |page| && n < |outcomes| && outcomes[n] != Audited ==> Reach(page, outcomes) == (n, outcomes[n])
  {
    if n > 0 {
      ReachOf(page[1..], outcomes[1..], n - 1);
    }
  }

  // Settings that are not positive are three occurrences, fifty domains a cycle and a day.
  lemma DefaultsAre(c: Config)
    ensures Defaulted(c) == Config(if c.minOccurrences > 0 then c.minOccurrences else 3,
                                   if c.maxPerCycle > 0 then c.maxPerCycle else 50,
                                   if c.lookback > 0 then c.lookback else 24 * 3600 * 1_000_000_000)
  {
  }
}
