/**
 The audit cursor protocol of internal/agent/audit.go over the analysis log of
 internal/store/telemetry.go: pages of suspicious domains in a frozen window, and a cursor that
 moves past the audited prefix of a page.

 Query errors, audit errors, cancellation, failed writes of the cursor, crashes, restarts and
 entries arriving are scripted.  Times are nanoseconds.
 */
module AuditState {
  import opened Text

  datatype Entry = Entry(domain: string, at: int, suspicious: bool)

  // The exclusive upper end of the frozen window, if there is one, and the last audited domain.
  datatype Cursor = Cursor(end: Option<int>, last: string)

  datatype Config = Config(minOccurrences: int, maxPerCycle: int, lookback: int)

  const SECOND := 1_000_000_000
  const DAY := 86_400 * SECOND

  // The defaults NewAuditTask fills in.
  function Defaulted(c: Config): (r: Config)
    ensures r.minOccurrences > 0 && r.maxPerCycle > 0 && r.lookback > 0
  {
    Config(if c.minOccurrences <= 0 then 3 else c.minOccurrences,
           if c.maxPerCycle <= 0 then 50 else c.maxPerCycle,
           if c.lookback <= 0 then DAY else c.lookback)
  }

  /* ---------- The window query ---------- */

  // Log times are compared as text with a whole second: there a fraction sorts before the closing
  // Z, so an entry inside second s comes before s itself.
  predicate TextBefore(at: int, second: int) {
    at / SECOND < second || (at / SECOND == second && at % SECOND != 0)
  }

  // The bounds of the query: the lower one cut to the second, the upper one raised to the next.
  predicate InWindow(at: int, end: int, lookback: int) {
    !TextBefore(at, (end - lookback) / SECOND) && TextBefore(at, end / SECOND + 1)
  }

  function Count(log: seq<Entry>, domain: string, end: int, lookback: int): nat {
    if log == [] then 0
    else
      var e := log[|log| - 1];
      Count(log[..|log| - 1], domain, end, lookback)
      + if e.suspicious && e.domain == domain && InWindow(e.at, end, lookback) then 1 else 0
  }

  predicate Qualifies(log: seq<Entry>, cfg: Config, domain: string, end: int) {
    Count(log, domain, end, cfg.lookback) >= cfg.minOccurrences
  }

  // GROUP BY domain ... ORDER BY domain
  function Domains(log: seq<Entry>): seq<string> {
    if log == [] then [] else Insert(Domains(log[..|log| - 1]), log[|log| - 1].domain)
  }

  function Selected(names: seq<string>, log: seq<Entry>, cfg: Config, end: int, after: string): seq<string>
    decreases |names|
  {
    if names == [] then []
    else
      (if Qualifies(log, cfg, names[0], end) && (after == "" || Less(after, names[0])) then [names[0]] else [])
      + Selected(names[1..], log, cfg, end, after)
  }

  // QuerySuspiciousDomainsPage
  function Page(log: seq<Entry>, cfg: Config, end: int, after: string): seq<string>
    requires cfg.maxPerCycle > 0
  {
    var all := Selected(Domains(log), log, cfg, end, after);
    if |all| <= cfg.maxPerCycle then all else all[..cfg.maxPerCycle]
  }

  /* ---------- State ---------- */

  datatype Audit = Audit(end: int, domain: string)

  // A retired window, and the log as its last page saw it.
  datatype Retired = Retired(end: int, at: int, log: seq<Entry>)

  /**
   `cursor` is the position in memory, meaningful while the process is up.  `audited` and `retired`
   are history: every successful audit with the window it was made in, and every retired window.
   */
  datatype State = State(log: seq<Entry>, stored: Option<Cursor>, now: int, cursor: Cursor, up: bool,
                         audited: set<Audit>, retired: seq<Retired>)

  /* ---------- One cycle ---------- */

  datatype Outcome = Audited | Fails | Cancelled | Dies

  // `took`: how long the cycle runs; `outcomes`: one per domain of the page; `written`: whether the
  // cursor reaches the database.
  datatype Script = Script(queryOk: bool, took: nat, outcomes: seq<Outcome>, written: bool)

  datatype End = Done | Failed | Died

  // The window a cycle works in.
  function WindowEnd(c: Cursor, now: int, lookback: int): int {
    match c.end
    case None => now
    case Some(end) => if c.last == "" && end < now - lookback then now else end
  }

  // storeCursor: memory first, then the database, which may refuse.
  function Store(s: State, c: Cursor, written: bool): State {
    s.(cursor := c, stored := if written then Some(c) else s.stored)
  }

  function Retire(s: State, end: int, written: bool): State {
    Store(s, Cursor(Some(s.now), ""), written).(retired := s.retired + [Retired(end, s.now, s.log)])
  }

  // How far a page gets: the number of domains audited, and what stopped it, if anything did.
  function Reach(page: seq<string>, outcomes: seq<Outcome>): (r: (nat, Outcome))
    ensures r.0 <= |page| && (r.1 == Audited <==> r.0 == |page|)
  {
    if page == [] then (0, Audited)
    else if outcomes == [] then (0, Dies)
    else if outcomes[0] != Audited then (0, outcomes[0])
    else
      var (n, stop) := Reach(page[1..], outcomes[1..]);
      (n + 1, stop)
  }

  // The first n domains of a page, audited in one window.
  function Audits(page: seq<string>, n: nat, end: int): set<Audit>
    requires n <= |page|
  {
    set i | 0 <= i < n :: Audit(end, page[i])
  }

  function RunCycle(s: State, cfg: Config, script: Script): (State, End)
    requires cfg.maxPerCycle > 0
  {
    var end := WindowEnd(s.cursor, s.now, cfg.lookback);
    var s0 := s.(now := s.now + script.took);
    if !script.queryOk then (s0, Failed)
    else
      var page := Page(s.log, cfg, end, s.cursor.last);
      var (n, stop) := Reach(page, script.outcomes);
      var s1 := s0.(audited := s.audited + Audits(page, n, end));
      if stop == Dies then (s1.(up := false), Died)
      else if n < |page| then
        (if n == 0 || page[n - 1] == "" then s1 else Store(s1, Cursor(Some(end), page[n - 1]), script.written), Failed)
      else if n < cfg.maxPerCycle then (Retire(s1, end, script.written), Done)
      else (Store(s1, Cursor(Some(end), page[n - 1]), script.written), Done)
  }

  /* ---------- A life of the service ---------- */

  // NewAuditTask with loadCursor.
  function Restart(s: State, loads: bool): State {
    s.(cursor := if loads && s.stored.Some? then s.stored.value else Cursor(None, ""), up := true)
  }

  datatype Op = Runs(script: Script) | Arrives(entry: Entry) | Waits(time: nat) | Crashes | Restarts(loads: bool)

  function Step(s: State, cfg: Config, op: Op): State
    requires cfg.maxPerCycle > 0
  {
    match op
    case Runs(script) => if s.up then RunCycle(s, cfg, script).0 else s
    case Arrives(entry) => s.(log := s.log + [entry])
    case Waits(time) => s.(now := s.now + time)
    case Crashes => s.(up := false)
    case Restarts(loads) => if s.up then s else Restart(s, loads)
  }

  function Live(s: State, cfg: Config, ops: seq<Op>): State
    requires cfg.maxPerCycle > 0
    decreases |ops|
  {
    if ops == [] then s else Live(Step(s, cfg, ops[0]), cfg, ops[1..])
  }
}
