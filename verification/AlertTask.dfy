/**
 The AlertTask object of internal/agent/alert.go: its construction, the paging loop of Run and
 advanceCursor, proved to do what AlertState says a cycle does.
 */
module AlertTask {
  import opened Text
  import opened AlertState

  class Task {
    const minEvents: int
    var db: Db
    var cursor: Key

    ghost var up: bool
    ghost var delivered: seq<seq<Event>>
    ghost var since: Key
    ghost var sent: seq<Event>

    ghost function View(): State
      reads this
    {
      State(db, cursor, up, delivered, since, sent)
    }

    // NewAlertTask with loadCursor; `loads` tells whether a stored cursor can be read and decoded.
    constructor (database: Db, loads: bool, min: int, ghost history: seq<seq<Event>>)
      ensures View() == Start(database, loads, history)
      ensures minEvents == if min <= 0 then 1 else min
    {
      minEvents := if min <= 0 then 1 else min;
      db, cursor, up, delivered, since, sent := database, Key(database.now, 0), true, history, Key(database.now, 0), [];
      new;
      if loads && db.stored.Some? {
        cursor, since := db.stored.value, db.stored.value;
      }
    }

    // advanceCursor: a failed write keeps the progress in memory.
    method AdvanceCursor(last: Key, written: bool)
      modifies this`cursor, this`db
      ensures View() == Advance(old(View()), last, written)
    {
      cursor := last;
      if written {
        db := db.(stored := Some(last));
      }
    }

    method Run(channels: bool, arrivals: seq<Arrival>, countOk: bool, pages: seq<PageScript>) returns (end: End)
      requires up
      modifies this
      ensures (View(), end) == RunCycle(old(View()), RunScript(channels, minEvents, arrivals, countOk, pages))
    {
      hide Pages, Page, Pending, ArriveAll;
      db := ArriveAll(db, arrivals);
      if !channels {
        return Done;
      }
      if !countOk {
        return Failed;
      }
      if |Pending(db, cursor)| < minEvents {
        return Done;
      }
      ghost var start := View();
      assert pages[0..] == pages;
      var page := 0;
      while page < MAX_PAGES
        invariant 0 <= page <= MAX_PAGES && page <= |pages|
        invariant up && Pages(start, pages, MAX_PAGES) == Pages(View(), pages[page..], MAX_PAGES - page)
      {
        PagesStep(View(), pages[page..], MAX_PAGES - page);
        if page == |pages| {
          up := false;
          return Died;
        }
        var script := pages[page];
        db := ArriveAll(db, script.arrivals);
        if script.outcome == Dies {
          up := false;
          return Died;
        }
        if script.outcome == QueryFails {
          return Failed;
        }
        var events := Page(db, cursor);
        if events == [] {
          return Done;
        }
        if script.outcome == SendFails {
          return Failed;
        }
        delivered, sent := delivered + [events], sent + events;
        if script.outcome == DiesSent {
          up := false;
          return Died;
        }
        AdvanceCursor(events[|events| - 1].key, script.outcome.written);
        if script.outcome.DiesStoring? {
          up := false;
          return Died;
        }
        if |events| < PAGE_SIZE {
          return Done;
        }
        assert pages[page..][1..] == pages[page + 1..];
        page := page + 1;
      }
      PagesEnd(View(), pages[page..]);
      return Done;
    }
  }

  lemma PagesEnd(s: State, script: seq<PageScript>)
    ensures Pages(s, script, 0) == (s, Done)
  {
  }
}
