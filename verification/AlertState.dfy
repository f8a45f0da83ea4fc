/**
 The alert cursor protocol of internal/agent/alert.go over the event log of
 internal/store/telemetry.go: keyset pages after a (created_at, id) cursor, a cursor that moves
 only past delivered pages, and a persisted copy of it.

 Query errors, send failures, failed writes of the cursor, crashes and events arriving between any
 two steps are scripted.  Times are whole seconds; ids grow, and the clock does not run backwards.
 */
module AlertState {
  import opened Text

  datatype Key = Key(at: int, id: int)

  predicate Less(a: Key, b: Key) {
    a.at < b.at || (a.at == b.at && a.id < b.id)
  }

  predicate AtMost(a: Key, b: Key) {
    a == b || Less(a, b)
  }

  datatype Event = Event(key: Key, kind: string)

  // The event types the task alerts on.
  predicate Wanted(e: Event) {
    e.kind == "auto_block" || e.kind == "feed_error"
  }

  // The database: the event log in key order, the stored cursor, the clock and the last id given out.
  datatype Db = Db(log: seq<Event>, stored: Option<Key>, now: int, lastId: int)

  /**
   `cursor` is the position in memory (its last value when the process is down).  The rest is
   history: every page delivered on all channels, the cursor this process started from, and the
   events it has delivered.
   */
  datatype State = State(db: Db, cursor: Key, up: bool, delivered: seq<seq<Event>>, since: Key, sent: seq<Event>)

  const PAGE_SIZE := 100
  const MAX_PAGES := 20

  /* ---------- The store ---------- */

  // The wanted events after lo, up to hi if there is one.
  function Between(log: seq<Event>, lo: Key, hi: Option<Key>): seq<Event> {
    if log == [] then []
    else
      var e := log[|log| - 1];
      Between(log[..|log| - 1], lo, hi)
      + if Wanted(e) && Less(lo, e.key) && (hi == None || AtMost(e.key, hi.value)) then [e] else []
  }

  // CountAgentEventsAfter counts these; QueryAgentEventsPage returns the first of them.
  function Pending(db: Db, cursor: Key): seq<Event> {
    Between(db.log, cursor, None)
  }

  function Page(db: Db, cursor: Key): (r: seq<Event>)
    ensures |r| <= PAGE_SIZE
  {
    var pending := Pending(db, cursor);
    if |pending| <= PAGE_SIZE then pending else pending[..PAGE_SIZE]
  }

  // An event of some kind is logged after a while; ids may skip.
  datatype Arrival = Arrival(wait: nat, gap: nat, kind: string)

  function Arrive(db: Db, a: Arrival): Db {
    var (now, id) := (db.now + a.wait, db.lastId + 1 + a.gap);
    db.(now := now, lastId := id, log := db.log + [Event(Key(now, id), a.kind)])
  }

  function ArriveAll(db: Db, arrivals: seq<Arrival>): Db
    decreases |arrivals|
  {
    if arrivals == [] then db else ArriveAll(Arrive(db, arrivals[0]), arrivals[1..])
  }

  /* ---------- One page ---------- */

  datatype Outcome =
    | Dies
    | QueryFails
    | SendFails
    | DiesSent                    // delivered everywhere, cursor not yet moved
    | DiesStoring(written: bool)  // cursor moved in memory
    | Sent(written: bool)         // whether the moved cursor was persisted

  datatype PageScript = PageScript(arrivals: seq<Arrival>, outcome: Outcome)

  function Deliver(s: State, page: seq<Event>): State {
    s.(delivered := s.delivered + [page], sent := s.sent + page)
  }

  // advanceCursor: memory first, then the database, which may refuse.
  function Advance(s: State, last: Key, written: bool): State {
    s.(cursor := last, db := if written then s.db.(stored := Some(last)) else s.db)
  }

  // How a Run call ends.
  datatype End = Done | Failed | Died

  function Pages(s: State, script: seq<PageScript>, left: nat): (State, End)
    decreases left
  {
    if left == 0 then (s, Done)
    else if script == [] then (s.(up := false), Died)
    else
      var s0 := s.(db := ArriveAll(s.db, script[0].arrivals));
      var page := Page(s0.db, s0.cursor);
      var outcome := script[0].outcome;
      if outcome == Dies then (s0.(up := false), Died)
      else if outcome == QueryFails then (s0, Failed)
      else if page == [] then (s0, Done)
      else if outcome == SendFails then (s0, Failed)
      else if outcome == DiesSent then (Deliver(s0, page).(up := false), Died)
      else
        var s1 := Advance(Deliver(s0, page), page[|page| - 1].key, outcome.written);
        if outcome.DiesStoring? then (s1.(up := false), Died)
        else if |page| < PAGE_SIZE then (s1, Done)
        else Pages(s1, script[1..], left - 1)
  }

  // Pages, unfolded once.
  lemma PagesStep(s: State, script: seq<PageScript>, left: nat)
    requires left > 0
    ensures Pages(s, script, left) ==
              if script == [] then (s.(up := false), Died)
              else
                var s0 := s.(db := ArriveAll(s.db, script[0].arrivals));
                var page := Page(s0.db, s0.cursor);
                var outcome := script[0].outcome;
                if outcome == Dies then (s0.(up := false), Died)
                else if outcome == QueryFails then (s0, Failed)
                else if page == [] then (s0, Done)
                else if outcome == SendFails then (s0, Failed)
                else if outcome == DiesSent then (Deliver(s0, page).(up := false), Died)
                else
                  var s1 := Advance(Deliver(s0, page), page[|page| - 1].key, outcome.written);
                  if outcome.DiesStoring? then (s1.(up := false), Died)
                  else if |page| < PAGE_SIZE then (s1, Done)
                  else Pages(s1, script[1..], left - 1)
  {
  }

  /* ---------- One cycle, and a life of the service ---------- */

  // `channels`: whether any alert channel is configured.
  datatype RunScript = RunScript(channels: bool, minEvents: int, arrivals: seq<Arrival>, countOk: bool,
                                 pages: seq<PageScript>)

  function RunCycle(s: State, r: RunScript): (State, End) {
    var s0 := s.(db := ArriveAll(s.db, r.arrivals));
    if !r.channels then (s0, Done)
    else if !r.countOk then (s0, Failed)
    else if |Pending(s0.db, s0.cursor)| < r.minEvents then (s0, Done)
    else Pages(s0, r.pages, MAX_PAGES)
  }

  // A process starts with its cursor at the current second, then tries to load the stored one.
  function Start(db: Db, loads: bool, delivered: seq<seq<Event>>): State {
    var cursor := if loads && db.stored.Some? then db.stored.value else Key(db.now, 0);
    State(db, cursor, true, delivered, cursor, [])
  }

  datatype Op = Runs(script: RunScript) | Arrives(arrivals: seq<Arrival>) | Waits(time: nat) | Crashes
              | Restarts(loads: bool)

  function Step(s: State, op: Op): State {
    match op
    case Runs(script) => if s.up then RunCycle(s, script).0 else s
    case Arrives(arrivals) => s.(db := ArriveAll(s.db, arrivals))
    case Waits(time) => s.(db := s.db.(now := s.db.now + time))
    case Crashes => s.(up := false)
    case Restarts(loads) => if s.up then s else Start(s.db, loads, s.delivered)
  }

  function Live(s: State, ops: seq<Op>): State
    decreases |ops|
  {
    if ops == [] then s else Live(Step(s, ops[0]), ops[1..])
  }
}
