/**
 The validation loop, the two-level index and its lookup in internal/risk/adblock_exceptions.go.
 The lookup is proved to answer what a scan of all entries answers (ExceptionRules.Verdict).
 */
module Exceptions {
  import opened Text
  import opened TrieRules
  import opened ExceptionRules

  datatype Rejection = InvalidVersion | TooManyEntries | InvalidEntry

  datatype Result = Accepted(entries: seq<Entry>) | Rejected(why: Rejection)

  /* ---------- validateAdblockExceptions ---------- */

  // What a file must satisfy for all its entries to be accepted.
  ghost predicate Acceptable(env: Env, raws: seq<RawEntry>) {
    && (forall i :: 0 <= i < |raws| ==> Check(env, raws[i]).Some?)
    && (forall i, j :: 0 <= i < j < |raws| ==> raws[i].id != raws[j].id)
    && forall i, j :: 0 <= i < j < |raws| ==>
         SelectorOf(Check(env, raws[i]).value) != SelectorOf(Check(env, raws[j]).value)
  }

  // entries are the checked forms of raws, in file order.
  ghost predicate Checked(env: Env, raws: seq<RawEntry>, entries: seq<Entry>) {
    |entries| == |raws| && forall i :: 0 <= i < |raws| ==> Check(env, raws[i]) == Some(entries[i])
  }

  method Validate(env: Env, version: int, raws: seq<RawEntry>) returns (r: Result)
    ensures r == Rejected(InvalidVersion) <==> version != 1
    ensures r == Rejected(TooManyEntries) <==> version == 1 && |raws| > 1024
    ensures r.Accepted? <==> version == 1 && |raws| <= 1024 && Acceptable(env, raws)
    ensures r.Accepted? ==> Checked(env, raws, r.entries) && Distinct(r.entries)
  {
    hide Check, SelectorKey, PlainFields;
    if version != 1 {
      return Rejected(InvalidVersion);
    }
    if |raws| > MAX_ENTRIES {
      return Rejected(TooManyEntries);
    }
    var entries: seq<Entry> := [];
    var seenIds: set<string>, seenSelectors: set<string> := {}, {};
    for i := 0 to |raws|
      invariant Checked(env, raws[..i], entries) && Acceptable(env, raws[..i])
      invariant forall x :: x in seenIds <==> exists j :: 0 <= j < i && raws[j].id == x
      invariant forall k :: k in seenSelectors <==> exists j :: 0 <= j < i && SelectorKey(entries[j]) == k
    {
      var checked := Check(env, raws[i]);
      if raws[i].id in seenIds || checked == None {
        FirstFault(env, raws, i);
        return Rejected(InvalidEntry);
      }
      var entry := checked.value;
      KeysTellApart(env, raws, entries, i);
      if SelectorKey(entry) in seenSelectors {
        FirstFault(env, raws, i);
        return Rejected(InvalidEntry);
      }
      assert raws[..i + 1] == raws[..i] + [raws[i]];
      seenIds := seenIds + {raws[i].id};
      seenSelectors := seenSelectors + {SelectorKey(entry)};
      entries := entries + [entry];
    }
    assert raws[..|raws|] == raws;
    DistinctEntries(env, raws, entries);
    return Accepted(entries);
  }

  // A prefix that cannot be accepted rejects the file.
  lemma FirstFault(env: Env, raws: seq<RawEntry>, i: nat)
    requires i < |raws| && !Acceptable(env, raws[..i + 1])
    ensures !Acceptable(env, raws)
  {
    hide Check;
  }

  lemma KeysTellApart(env: Env, raws: seq<RawEntry>, entries: seq<Entry>, i: nat)
    requires i < |raws| && Checked(env, raws[..i], entries) && Check(env, raws[i]).Some?
    ensures var e := Check(env, raws[i]).value;
            forall j :: 0 <= j < i ==>
              (SelectorKey(entries[j]) == SelectorKey(e) <==> SelectorOf(entries[j]) == SelectorOf(e))
  {
    hide Check, SelectorKey, PlainFields;
    CheckedEntry(env, raws[i]);
    forall j | 0 <= j < i
      ensures SelectorKey(entries[j]) == SelectorKey(Check(env, raws[i]).value)
         <==> SelectorOf(entries[j]) == SelectorOf(Check(env, raws[i]).value)
    {
      assert raws[..i][j] == raws[j];
      CheckedEntry(env, raws[j]);
      SelectorKeyIsInjective(entries[j], Check(env, raws[i]).value);
    }
  }

  lemma DistinctEntries(env: Env, raws: seq<RawEntry>, entries: seq<Entry>)
    requires Checked(env, raws, entries) && Acceptable(env, raws)
    ensures Distinct(entries)
  {
    hide Check, PlainFields, Host, SelectorsIntersect;
    forall e | e in entries
      ensures IsScope(e.scope)
    {
      var i :| 0 <= i < |entries| && entries[i] == e;
      CheckedEntry(env, raws[i]);
    }
  }

  /* ---------- Buckets ---------- */

  // The entries of one query domain: those with a category, and those without.
  datatype Bucket = Bucket(specific: map<Key, string>, wildcard: map<Key, string>)

  type Index = map<string, Bucket>

  // The exception ID stored under a key.
  function Held(m: Index, domain: string, key: Key): Option<string> {
    if domain !in m then None
    else if key.category == "" then (if key in m[domain].wildcard then Some(m[domain].wildcard[key]) else None)
    else if key in m[domain].specific then Some(m[domain].specific[key]) else None
  }

  predicate At(e: Entry, exact: bool, domain: string) {
    (e.scope == EXACT <==> exact) && e.domain == domain
  }

  // The last entry listed for a key.
  function LastFor(entries: seq<Entry>, exact: bool, domain: string, key: Key): Option<string> {
    if entries == [] then None
    else
      var e := entries[|entries| - 1];
      if At(e, exact, domain) && KeyOf(e) == key then Some(e.id)
      else LastFor(entries[..|entries| - 1], exact, domain, key)
  }

  ghost predicate Indexes(m: Index, entries: seq<Entry>, exact: bool) {
    && (forall d, k :: Held(m, d, k) == LastFor(entries, exact, d, k))
    && forall d, k :: d in m && k in m[d].specific ==> k.category != ""
  }

  // matchBucket
  function MatchBucket(b: Bucket, rule: Rule): Option<string> {
    var key := Key(rule.domain, rule.sourceId, rule.scope, rule.category);
    if key in b.specific then Some(b.specific[key])
    else
      var wild := key.(category := "");
      if wild in b.wildcard then Some(b.wildcard[wild]) else None
  }

  function Looked(m: Index, domain: string, rule: Rule): Option<string> {
    if domain in m then MatchBucket(m[domain], rule) else None
  }

  /* ---------- Building ---------- */

  // The bucket write of the build loop.
  function Put(m: Index, e: Entry): Index {
    var bucket := if e.domain in m then m[e.domain] else Bucket(map[], map[]);
    m[e.domain := if e.category == "" then bucket.(wildcard := bucket.wildcard[KeyOf(e) := e.id])
                  else bucket.(specific := bucket.specific[KeyOf(e) := e.id])]
  }

  lemma PutIndexes(m: Index, entries: seq<Entry>, e: Entry, exact: bool)
    requires Indexes(m, entries, exact)
    ensures Indexes(if e.scope == EXACT <==> exact then Put(m, e) else m, entries + [e], exact)
  {
    var m' := if e.scope == EXACT <==> exact then Put(m, e) else m;
    assert (entries + [e])[..|entries|] == entries;
    forall d, k
      ensures Held(m', d, k) == LastFor(entries + [e], exact, d, k)
    {
      assert Held(m, d, k) == LastFor(entries, exact, d, k);
    }
  }

  /* ---------- What a bucket answers ---------- */

  lemma {:induction false} LastForFacts(entries: seq<Entry>, exact: bool, domain: string, key: Key)
    ensures match LastFor(entries, exact, domain, key)
            case None => forall j :: 0 <= j < |entries| ==> !(At(entries[j], exact, domain) && KeyOf(entries[j]) == key)
            case Some(x) => exists i: nat :: IsLast(entries, exact, domain, key, i) && entries[i].id == x
  {
    hide At;
    if entries != [] {
      var n := |entries| - 1;
      LastForFacts(entries[..n], exact, domain, key);
      if At(entries[n], exact, domain) && KeyOf(entries[n]) == key {
        assert IsLast(entries, exact, domain, key, n);
      } else if LastFor(entries, exact, domain, key).Some? {
        var i: nat :| IsLast(entries[..n], exact, domain, key, i)
                   && entries[..n][i].id == LastFor(entries, exact, domain, key).value;
        assert IsLast(entries, exact, domain, key, i);
      }
    }
  }

  ghost predicate IsLast(entries: seq<Entry>, exact: bool, domain: string, key: Key, i: nat) {
    && i < |entries| && At(entries[i], exact, domain) && KeyOf(entries[i]) == key
    && forall j :: i < j < |entries| ==> !(At(entries[j], exact, domain) && KeyOf(entries[j]) == key)
  }

  // Entry i is the one a bucket's two lookups settle on.
  ghost predicate Leader(entries: seq<Entry>, exact: bool, domain: string, rule: Rule, i: nat) {
    && i < |entries| && At(entries[i], exact, domain) && Provenance(entries[i], rule)
    && forall j :: 0 <= j < |entries| && At(entries[j], exact, domain) && Provenance(entries[j], rule) ==>
         (entries[i].category == "" ==> entries[j].category == "") && (Same(entries[j], entries[i]) ==> j <= i)
  }

  lemma LookedExactly(m: Index, entries: seq<Entry>, exact: bool, domain: string, rule: Rule)
    requires Indexes(m, entries, exact)
    ensures match Looked(m, domain, rule)
            case None => forall j :: 0 <= j < |entries| && At(entries[j], exact, domain) ==> !Provenance(entries[j], rule)
            case Some(x) => exists i: nat :: Leader(entries, exact, domain, rule, i) && entries[i].id == x
  {
    hide LastFor;
    var key := Key(rule.domain, rule.sourceId, rule.scope, rule.category);
    var wild := key.(category := "");
    assert Held(m, domain, key) == LastFor(entries, exact, domain, key);
    assert Held(m, domain, wild) == LastFor(entries, exact, domain, wild);
    LastForFacts(entries, exact, domain, key);
    LastForFacts(entries, exact, domain, wild);
    if domain in m && key in m[domain].specific {
      var i: nat :| IsLast(entries, exact, domain, key, i) && entries[i].id == m[domain].specific[key];
      assert Leader(entries, exact, domain, rule, i);
    } else if domain in m && wild in m[domain].wildcard {
      var i: nat :| IsLast(entries, exact, domain, wild, i) && entries[i].id == m[domain].wildcard[wild];
      assert Leader(entries, exact, domain, rule, i);
    }
  }

  /* ---------- The walk to the parents ---------- */

  // strings.IndexByte(s, '.')
  function FirstDot(s: string): (r: int)
    ensures -1 <= r < |s|
    ensures forall i :: 0 <= i < r ==> s[i] != '.'
    ensures r >= 0 ==> s[r] == '.'
    ensures r < 0 ==> '.' !in s
  {
    if s == "" then -1
    else if s[0] == '.' then 0
    else
      var rest := FirstDot(s[1..]);
      assert forall i :: 0 < i < |s| ==> s[i] == s[1..][i - 1];
      if rest < 0 then -1 else rest + 1
  }

  predicate AtOrBelow(q: string, d: string) {
    q == d || IsSub(q, d)
  }

  // Of two names at or above the query, the shorter is cut from the longer at a dot.
  lemma CutAtDot(q: string, c: string, d: string)
    requires AtOrBelow(q, c) && AtOrBelow(q, d) && |d| < |c|
    ensures c[|c| - |d| - 1] == '.' && '.' in c
  {
    assert q[|q| - |c|..][|c| - |d| - 1] == q[|q| - |d| - 1];
  }

  lemma SubOfParent(q: string, c: string, f: nat)
    requires AtOrBelow(q, c) && f < |c| && c[f] == '.'
    ensures AtOrBelow(q, c[f + 1..])
  {
    var k := |q| - |c|;
    assert c == q[k..];
    assert q[k + f] == c[f];
    assert q[k + f + 1..] == q[k..][f + 1..];
  }

  // No name at or above the query lies strictly between a candidate and its parent.
  lemma NextParent(q: string, c: string)
    requires AtOrBelow(q, c) && FirstDot(c) >= 0
    ensures var p := c[FirstDot(c) + 1..]; AtOrBelow(q, p)
    ensures forall d :: AtOrBelow(q, d) && |d| < |c| ==> |d| <= |c| - FirstDot(c) - 1
  {
    hide FirstDot, AtOrBelow;
    SubOfParent(q, c, FirstDot(c));
    forall d | AtOrBelow(q, d) && |d| < |c|
      ensures |d| <= |c| - FirstDot(c) - 1
    {
      CutAtDot(q, c, d);
    }
  }

  lemma NoParent(q: string, c: string)
    requires AtOrBelow(q, c) && FirstDot(c) < 0
    ensures forall d :: AtOrBelow(q, d) ==> |d| >= |c|
  {
    hide FirstDot, AtOrBelow;
    forall d | AtOrBelow(q, d)
      ensures |d| >= |c|
    {
      if |d| < |c| {
        CutAtDot(q, c, d);
      }
    }
  }

  // Nothing has fired among the exact selectors and the suffix selectors longer than n.
  ghost predicate SilentAbove(entries: seq<Entry>, q: string, rule: Rule, n: int) {
    forall j :: 0 <= j < |entries| && Fires(entries[j], q, rule) ==> entries[j].scope != EXACT && |entries[j].domain| <= n
  }

  lemma ExactStep(entries: seq<Entry>, q: string, rule: Rule, id: Option<string>)
    requires match id
             case None => forall j :: 0 <= j < |entries| && At(entries[j], true, q) ==> !Provenance(entries[j], rule)
             case Some(x) => exists i: nat :: Leader(entries, true, q, rule, i) && entries[i].id == x
    ensures if id == None then SilentAbove(entries, q, rule, |q|) else Verdict(entries, q, rule, id)
  {
    hide Provenance;
    if id.Some? {
      var i: nat :| Leader(entries, true, q, rule, i) && entries[i].id == id.value;
      assert Wins(entries, q, rule, i);
    }
  }

  lemma SuffixStep(entries: seq<Entry>, q: string, rule: Rule, c: string, id: Option<string>)
    requires AtOrBelow(q, c) && SilentAbove(entries, q, rule, |c|)
    requires match id
             case None => forall j :: 0 <= j < |entries| && At(entries[j], false, c) ==> !Provenance(entries[j], rule)
             case Some(x) => exists i: nat :: Leader(entries, false, c, rule, i) && entries[i].id == x
    ensures if id == None then SilentAbove(entries, q, rule, |c| - 1) else Verdict(entries, q, rule, id)
  {
    hide Provenance, IsSub;
    forall j | 0 <= j < |entries| && Fires(entries[j], q, rule) && |entries[j].domain| == |c|
      ensures entries[j].domain == c
    {
      SameLength(q, entries[j].domain, c);
    }
    if id.Some? {
      var i: nat :| Leader(entries, false, c, rule, i) && entries[i].id == id.value;
      assert Wins(entries, q, rule, i);
    }
  }

  lemma ParentStep(entries: seq<Entry>, q: string, rule: Rule, c: string)
    requires AtOrBelow(q, c) && SilentAbove(entries, q, rule, |c| - 1)
    ensures if FirstDot(c) < 0 then Verdict(entries, q, rule, None)
            else AtOrBelow(q, c[FirstDot(c) + 1..]) && SilentAbove(entries, q, rule, |c[FirstDot(c) + 1..]|)
  {
    hide Provenance, IsSub, FirstDot;
    if FirstDot(c) < 0 {
      NoParent(q, c);
      assert forall j :: 0 <= j < |entries| && Fires(entries[j], q, rule) ==> AtOrBelow(q, entries[j].domain);
    } else {
      NextParent(q, c);
      assert forall j :: 0 <= j < |entries| && Fires(entries[j], q, rule) ==> AtOrBelow(q, entries[j].domain);
    }
  }

  /* ---------- The published snapshot ---------- */

  class Snapshot {
    var count: nat
    var exact: Index
    var suffix: Index

    // The entries the snapshot was built from.
    ghost const entries: seq<Entry>

    ghost predicate Valid()
      reads this
    {
      count == |entries| && Indexes(exact, entries, true) && Indexes(suffix, entries, false)
    }

    // buildAdblockExceptionSnapshot
    constructor (list: seq<Entry>)
      ensures Valid() && entries == list
    {
      hide Indexes, Put;
      count := |list|;
      exact, suffix, entries := map[], map[], list;
      new;
      EmptyIndexes();
      assert list[..0] == [];
      for i := 0 to |list|
        invariant count == |list| && entries == list
        invariant Indexes(exact, list[..i], true) && Indexes(suffix, list[..i], false)
      {
        var e := list[i];
        PutIndexes(exact, list[..i], e, true);
        PutIndexes(suffix, list[..i], e, false);
        assert list[..i + 1] == list[..i] + [e];
        if e.scope == EXACT {
          exact := Put(exact, e);
        } else {
          suffix := Put(suffix, e);
        }
      }
      assert list[..|list|] == list;
    }

    // The lookup answers what a scan of all entries answers.
    method Match(query: string, rule: Rule) returns (id: Option<string>)
      requires Valid()
      ensures Verdict(entries, query, rule, id)
    {
      hide Indexes, Leader, At, Provenance, Fires, Wins, SilentAbove, MatchBucket, FirstDot, AtOrBelow;
      if count == 0 {
        return None;
      }
      id := Looked(exact, query, rule);
      LookedExactly(exact, entries, true, query, rule);
      ExactStep(entries, query, rule, id);
      if id.Some? {
        return id;
      }
      var candidate := query;
      SelfAtOrBelow(query);
      while true
        invariant AtOrBelow(query, candidate) && SilentAbove(entries, query, rule, |candidate|)
        decreases |candidate|
      {
        id := Looked(suffix, candidate, rule);
        LookedExactly(suffix, entries, false, candidate, rule);
        SuffixStep(entries, query, rule, candidate, id);
        if id.Some? {
          return id;
        }
        var dot := FirstDot(candidate);
        ParentStep(entries, query, rule, candidate);
        if dot < 0 {
          return None;
        }
        candidate := candidate[dot + 1..];
      }
    }
  }

  lemma EmptyIndexes()
    ensures Indexes(map[], [], true) && Indexes(map[], [], false)
  {
  }

  lemma SelfAtOrBelow(q: string)
    ensures AtOrBelow(q, q)
  {
  }
}
