/**
 The AuditTask object of internal/agent/audit.go: its construction, storeCursor and the page loop of
 Run, proved to do what AuditState says a cycle does.
 */
module AuditTask {
  import opened Text
  import opened AuditState

  class Task {
    const cfg: Config
    var cursor: Cursor
    // The database and the clock.
    var log: seq<Entry>
    var stored: Option<Cursor>
    var now: int

    ghost var up: bool
    ghost var audited: set<Audit>
    ghost var retired: seq<Retired>

    ghost function View(): State
      reads this
    {
      State(log, stored, now, cursor, up, audited, retired)
    }

    // NewAuditTask with loadCursor, on the database a former process left.
    constructor (config: Config, former: State, loads: bool)
      ensures cfg == Defaulted(config) && View() == Restart(former, loads)
    {
      cfg := Defaulted(config);
      cursor, log, stored, now := Cursor(None, ""), former.log, former.stored, former.now;
      up, audited, retired := true, former.audited, former.retired;
      new;
      if loads && stored.Some? {
        cursor := stored.value;
      }
    }

    // storeCursor
    method StoreCursor(c: Cursor, written: bool)
      modifies this`cursor, this`stored
      ensures View() == Store(old(View()), c, written)
    {
      cursor := c;
      if written {
        stored := Some(c);
      }
    }

    method Run(script: Script) returns (end: End)
      requires up && cfg.maxPerCycle > 0
      modifies this
      ensures (View(), end) == RunCycle(old(View()), cfg, script)
    {
      hide Page, Reach, Audits;
      var windowEnd := now;
      if cursor.end.Some? {
        windowEnd := cursor.end.value;
        if cursor.last == "" && windowEnd < now - cfg.lookback {
          windowEnd := now;
        }
      }
      var domains := Page(log, cfg, windowEnd, cursor.last);
      now := now + script.took;
      if !script.queryOk {
        return Failed;
      }
      var lastDone := "";
      ghost var before := audited;
      NoAudits(domains, windowEnd);
      var i := 0;
      while i < |domains|
        invariant 0 <= i <= |domains| && i <= |script.outcomes|
        invariant View() == old(View()).(now := now, audited := before + Audits(domains, i, windowEnd))
        invariant now == old(now) + script.took
        invariant lastDone == if i == 0 then "" else domains[i - 1]
        invariant forall j :: 0 <= j < i ==> script.outcomes[j] == Audited
      {
        ReachStops(domains, script.outcomes, i);
        if i == |script.outcomes| || script.outcomes[i] == Dies {
          up := false;
          return Died;
        }
        if script.outcomes[i] != Audited {
          if lastDone != "" {
            StoreCursor(Cursor(Some(windowEnd), lastDone), script.written);
          }
          return Failed;
        }
        OneMoreAudit(domains, i, windowEnd);
        audited := audited + {Audit(windowEnd, domains[i])};
        lastDone := domains[i];
        i := i + 1;
      }
      ReachStops(domains, script.outcomes, i);
      if |domains| < cfg.maxPerCycle {
        StoreCursor(Cursor(Some(now), ""), script.written);
        retired := retired + [Retired(windowEnd, now, log)];
      } else {
        StoreCursor(Cursor(Some(windowEnd), lastDone), script.written);
      }
      return Done;
    }
  }

  lemma NoAudits(page: seq<string>, end: int)
    ensures Audits(page, 0, end) == {}
  {
  }

  lemma OneMoreAudit(page: seq<string>, n: nat, end: int)
    requires n < |page|
    ensures Audits(page, n + 1, end) == Audits(page, n, end) + {Audit(end, page[n])}
  {
    assert Audit(end, page[n]) in Audits(page, n + 1, end);
  }

  // Where a page stops: at its end, or at the first outcome that is not an audit.
  lemma {:induction false} ReachStops(page: seq<string>, outcomes: seq<Outcome>, n: nat)
    requires n <= |page| && n <= |outcomes| && forall j :: 0 <= j < n ==> outcomes[j] == Audited
    ensures n == |page| ==> Reach(page, outcomes) == (n, Audited)
    ensures n < |page| && n == |outcomes| ==> Reach(page, outcomes) == (n, Dies)
    ensures n < |page| && n < |outcomes| && outcomes[n] != Audited ==> Reach(page, outcomes) == (n, outcomes[n])
  {
    if n > 0 {
      ReachStops(page[1..], outcomes[1..], n - 1);
    }
  }
}
