/**
 The contents of a domain trie as a table from slots to rules: a slot is a label path and a scope.
 AddRule is first-wins per slot, MatchRuleDetail picks the best slot for a query.  The trie object
 that holds this table is in DomainTrie.dfy.
 */
module TrieTable {
  import opened Text
  import opened TrieRules

  datatype Slot = Slot(path: seq<string>, exact: bool)

  type Table = map<Slot, Rule>

  function SlotOf(r: Rule): Slot {
    Slot(Path(r.domain), r.scope == EXACT)
  }

  // Every rule sits in the slot its own fields name.
  ghost predicate Placed(t: Table) {
    forall k :: k in t ==> SlotOf(t[k]) == k && t[k].scope == if k.exact then EXACT else SUFFIX
  }

  /* ---------- AddRule ---------- */

  predicate Adds(env: Env, t: Table, rule: Rule) {
    Normalize(env, rule).Some? && SlotOf(Normalize(env, rule).value) !in t
  }

  function Add(env: Env, t: Table, rule: Rule): Table {
    if Adds(env, t, rule) then t[SlotOf(Normalize(env, rule).value) := Normalize(env, rule).value] else t
  }

  function Ingest(env: Env, t: Table, rules: seq<Rule>): Table
    decreases |rules|
  {
    if rules == [] then t else Ingest(env, Add(env, t, rules[0]), rules[1..])
  }

  // The rules of a list that are not rejected, in their stored form.
  function Accepted(env: Env, rules: seq<Rule>): (r: seq<Rule>)
    ensures forall x :: x in r ==> x.scope == EXACT || x.scope == SUFFIX
  {
    if rules == [] then []
    else match Normalize(env, rules[0])
      case None => Accepted(env, rules[1..])
      case Some(x) => [x] + Accepted(env, rules[1..])
  }

  function FirstIn(rules: seq<Rule>, k: Slot): Option<Rule> {
    if rules == [] then None else if SlotOf(rules[0]) == k then Some(rules[0]) else FirstIn(rules[1..], k)
  }

  // A slot holds what it held before, else the earliest accepted rule for it.
  lemma {:induction false} IngestLookup(env: Env, t: Table, rules: seq<Rule>, k: Slot)
    ensures var r := Ingest(env, t, rules);
            if k in t then k in r && r[k] == t[k]
            else match FirstIn(Accepted(env, rules), k)
              case None => k !in r
              case Some(x) => k in r && r[k] == x
    decreases |rules|
  {
    hide Normalize, Path;
    if rules != [] {
      IngestLookup(env, Add(env, t, rules[0]), rules[1..], k);
    }
  }

  lemma {:induction false} IngestPlaced(env: Env, t: Table, rules: seq<Rule>)
    requires Placed(t)
    ensures Placed(Ingest(env, t, rules))
    decreases |rules|
  {
    hide Normalize, Path;
    if rules != [] {
      IngestPlaced(env, Add(env, t, rules[0]), rules[1..]);
    }
  }

  // Ingesting into a table adds what ingesting alone would give, and never overwrites.
  lemma IngestIsUnion(env: Env, t: Table, rules: seq<Rule>)
    ensures Ingest(env, t, rules) == Ingest(env, map[], rules) + t
  {
    forall k
      ensures var r, u := Ingest(env, t, rules), Ingest(env, map[], rules) + t;
              (k in r <==> k in u) && (k in r ==> r[k] == u[k])
    {
      IngestLookup(env, t, rules, k);
      IngestLookup(env, map[], rules, k);
    }
  }

  lemma {:induction false} IngestConcat(env: Env, t: Table, a: seq<Rule>, b: seq<Rule>)
    ensures Ingest(env, t, a + b) == Ingest(env, Ingest(env, t, a), b)
    decreases |a|
  {
    hide Add;
    if a == [] {
      assert a + b == b;
    } else {
      assert (a + b)[1..] == a[1..] + b && (a + b)[0] == a[0];
      IngestConcat(env, Add(env, t, a[0]), a[1..], b);
    }
  }

  /* ---------- MergeFrom ---------- */

  ghost predicate AllStable(env: Env, t: Table) {
    forall k :: k in t ==> Stable(env, t[k])
  }

  // rules lists the rules of t, in any order.
  ghost predicate Lists(rules: seq<Rule>, t: Table) {
    && (forall r :: r in rules ==> SlotOf(r) in t && t[SlotOf(r)] == r)
    && (forall k :: k in t ==> t[k] in rules)
  }

  lemma {:induction false} StableAccepted(env: Env, rules: seq<Rule>)
    requires forall r :: r in rules ==> Stable(env, r)
    ensures Accepted(env, rules) == rules
  {
    hide Normalize;
    if rules != [] {
      assert rules[0] in rules && forall r :: r in rules[1..] ==> r in rules;
      StableAccepted(env, rules[1..]);
    }
  }

  lemma {:induction false} FirstOf(rules: seq<Rule>, k: Slot)
    ensures match FirstIn(rules, k)
            case None => forall r :: r in rules ==> SlotOf(r) != k
            case Some(x) => x in rules && SlotOf(x) == k
  {
    if rules != [] {
      FirstOf(rules[1..], k);
    }
  }

  lemma StableAll(env: Env, src: Table, rules: seq<Rule>)
    requires AllStable(env, src) && Lists(rules, src)
    ensures forall r :: r in rules ==> Stable(env, r)
  {
  }

  // Merging a trie of stable rules yields the union in which the destination wins, whatever the
  // order of the walk.
  lemma MergeIsUnion(env: Env, dst: Table, src: Table, rules: seq<Rule>)
    requires Placed(src) && AllStable(env, src) && Lists(rules, src)
    ensures Ingest(env, dst, rules) == src + dst
  {
    hide Stable, Ingest, Accepted, FirstIn, Normalize, Path;
    StableAll(env, src, rules);
    StableAccepted(env, rules);
    forall k
      ensures var r, u := Ingest(env, dst, rules), src + dst;
              (k in r <==> k in u) && (k in r ==> r[k] == u[k])
    {
      IngestLookup(env, dst, rules, k);
      FirstOf(rules, k);
    }
  }

  // Staging a source and merging it is the same as ingesting it directly.
  lemma StagingIsTransparent(env: Env, dst: Table, rules: seq<Rule>, walk: seq<Rule>)
    requires AllStable(env, Ingest(env, map[], rules)) && Lists(walk, Ingest(env, map[], rules))
    ensures Ingest(env, dst, walk) == Ingest(env, dst, rules)
  {
    IngestPlaced(env, map[], rules);
    MergeIsUnion(env, dst, Ingest(env, map[], rules), walk);
    IngestIsUnion(env, dst, rules);
  }

  // Accepted rules are normalised ones of the list.
  lemma {:induction false} AcceptedFrom(env: Env, rules: seq<Rule>, x: Rule)
    requires x in Accepted(env, rules)
    ensures exists r :: r in rules && Normalize(env, r) == Some(x)
  {
    hide Normalize;
    if Normalize(env, rules[0]) == Some(x) {
      assert rules[0] in rules;
    } else {
      AcceptedFrom(env, rules[1..], x);
      var r :| r in rules[1..] && Normalize(env, r) == Some(x);
      assert r in rules;
    }
  }

  // Where a rule of an ingested table comes from.
  lemma IngestedFrom(env: Env, rules: seq<Rule>, k: Slot)
    requires k in Ingest(env, map[], rules)
    ensures exists r :: r in rules && Normalize(env, r) == Some(Ingest(env, map[], rules)[k])
  {
    hide Ingest, Accepted, FirstIn, Normalize, Path;
    IngestLookup(env, map[], rules, k);
    FirstOf(Accepted(env, rules), k);
    AcceptedFrom(env, rules, Ingest(env, map[], rules)[k]);
  }

  // Feed entries, which are split at white space, are all stable once stored.
  predicate PlainRule(rule: Rule) {
    Ascii(rule.domain) && forall c :: c in rule.domain ==> !IsSpace(c)
  }

  // The empty name is never registrable.
  ghost predicate EnvOk(env: Env) {
    AsciiIdentity(env) && !env.registrable("")
  }

  lemma {:induction false} PlainIngestStable(env: Env, t: Table, rules: seq<Rule>)
    requires EnvOk(env) && AllStable(env, t) && forall r :: r in rules ==> PlainRule(r)
    ensures AllStable(env, Ingest(env, t, rules))
    decreases |rules|
  {
    hide Stable, Normalize, PlainRule, EnvOk;
    if rules != [] {
      assert rules[0] in rules && forall r :: r in rules[1..] ==> r in rules;
      AddStable(env, t, rules[0]);
      PlainIngestStable(env, Add(env, t, rules[0]), rules[1..]);
    }
  }

  lemma AddStable(env: Env, t: Table, rule: Rule)
    requires EnvOk(env) && AllStable(env, t) && PlainRule(rule)
    ensures AllStable(env, Add(env, t, rule))
  {
    hide Stable, Normalize, SlotOf;
    if Adds(env, t, rule) {
      NormalizedNotEmpty(env, rule);
      PlainRulesAreStable(env, rule, Normalize(env, rule).value);
    }
  }

  lemma NormalizedNotEmpty(env: Env, rule: Rule)
    requires !env.registrable("") && Normalize(env, rule).Some?
    ensures Normalize(env, rule).value.domain != "" && env.registrable(Normalize(env, rule).value.domain)
  {
  }

  /* ---------- Exactly which tables merge unchanged ---------- */

  ghost predicate AllKept(env: Env, t: Table) {
    forall k :: k in t ==> Kept(env, t[k])
  }

  // No stored domain has white space around it.
  predicate Trimmed(t: Table) {
    forall k :: k in t ==> TrimSpace(t[k].domain) == t[k].domain
  }

  lemma {:induction false} IngestKept(env: Env, t: Table, rules: seq<Rule>)
    requires EnvOk(env) && Placed(t) && AllKept(env, t) && forall r :: r in rules ==> Ascii(r.domain)
    ensures Placed(Ingest(env, t, rules)) && AllKept(env, Ingest(env, t, rules))
    decreases |rules|
  {
    hide Normalize, Path, Kept, Ascii, AsciiIdentity;
    if rules != [] {
      assert rules[0] in rules && forall r :: r in rules[1..] ==> r in rules;
      if Adds(env, t, rules[0]) {
        NormalizedNotEmpty(env, rules[0]);
        StoredIsKept(env, rules[0], Normalize(env, rules[0]).value);
      }
      IngestKept(env, Add(env, t, rules[0]), rules[1..]);
    } else {
      NothingAdded(env, t);
    }
  }

  lemma NothingAdded(env: Env, t: Table)
    ensures Ingest(env, t, []) == t
  {
  }

  lemma LongestOf(t: Table, s: set<Slot>) returns (k: Slot)
    requires s != {} && s <= t.Keys
    ensures k in s && forall j :: j in s ==> |t[j].domain| <= |t[k].domain|
    decreases |s|
  {
    k :| k in s;
    if s != {k} {
      var rest := LongestOf(t, s - {k});
      if |t[rest].domain| > |t[k].domain| {
        k := rest;
      }
    }
  }

  // Re-adding a rule gives back a longest untrimmed one for no rule of the table: a trimmed rule gives
  // itself, an untrimmed one something shorter.
  lemma NothingGives(env: Env, t: Table, k: Slot, w: Rule)
    requires EnvOk(env) && AllKept(env, t) && k in t && TrimSpace(t[k].domain) != t[k].domain && Kept(env, w)
    requires TrimSpace(w.domain) != w.domain ==> |w.domain| <= |t[k].domain|
    ensures Normalize(env, w) != Some(t[k])
  {
    hide Normalize, TrimSpace, Kept, AsciiIdentity;
    KeptStable(env, w);
    if TrimSpace(w.domain) != w.domain && Normalize(env, w).Some? {
      UnstableShrinks(env, w, Normalize(env, w).value);
    }
  }

  // Merging a table of ASCII rules into an empty one gives it back exactly when no white space
  // surrounds a stored domain, whatever the order of the walk.
  lemma MergeExactly(env: Env, t: Table, walk: seq<Rule>)
    requires EnvOk(env) && Placed(t) && AllKept(env, t) && Lists(walk, t)
    ensures Ingest(env, map[], walk) == t <==> Trimmed(t)
  {
    hide Ingest, Normalize, TrimSpace, Kept, SlotOf, AsciiIdentity, Stable;
    if Trimmed(t) {
      forall k | k in t
        ensures Stable(env, t[k])
      {
        KeptStable(env, t[k]);
      }
      MergeIsUnion(env, map[], t, walk);
      assert t + map[] == t;
    } else {
      var untrimmed := set k | k in t && TrimSpace(t[k].domain) != t[k].domain;
      var some :| some in t && TrimSpace(t[some].domain) != t[some].domain;
      assert some in untrimmed;
      var k := LongestOf(t, untrimmed);
      forall w | w in walk
        ensures Normalize(env, w) != Some(t[k])
      {
        assert SlotOf(w) in t;
        assert TrimSpace(w.domain) != w.domain ==> SlotOf(w) in untrimmed;
        NothingGives(env, t, k, w);
      }
      if k in Ingest(env, map[], walk) {
        IngestedFrom(env, walk, k);
      }
    }
  }

  lemma ListingExists(t: Table) returns (walk: seq<Rule>)
    requires Placed(t)
    ensures Lists(walk, t)
    decreases |t|
  {
    hide Path;
    if t == map[] {
      walk := [];
    } else {
      var k :| k in t;
      var rest := ListingExists(t - {k});
      walk := rest + [t[k]];
    }
  }

  // A table ingested from ASCII rules merges back to itself, in every order, exactly when it is
  // trimmed.
  lemma MergesBackExactly(env: Env, rules: seq<Rule>)
    requires EnvOk(env) && forall r :: r in rules ==> Ascii(r.domain)
    ensures var t := Ingest(env, map[], rules);
            (forall walk :: Lists(walk, t) ==> Ingest(env, map[], walk) == t)
            <==> forall k :: k in t ==> TrimSpace(t[k].domain) == t[k].domain
  {
    hide Ingest, Lists, Kept, TrimSpace, EnvOk, Ascii, SlotOf;
    var t := Ingest(env, map[], rules);
    IngestKept(env, map[], rules);
    var one := ListingExists(t);
    forall walk | Lists(walk, t)
      ensures Ingest(env, map[], walk) == t <==> Trimmed(t)
    {
      MergeExactly(env, t, walk);
    }
  }

  // Staging ASCII rules and merging them is inserting them directly, into every table and in every
  // order, exactly when the staged table is trimmed.
  lemma StagingIsTransparentExactly(env: Env, rules: seq<Rule>)
    requires EnvOk(env) && forall r :: r in rules ==> Ascii(r.domain)
    ensures var t := Ingest(env, map[], rules);
            (forall dst, walk :: Lists(walk, t) ==> Ingest(env, dst, walk) == Ingest(env, dst, rules)) <==> Trimmed(t)
  {
    hide Ingest, Lists, Kept, TrimSpace, AsciiIdentity, Ascii, SlotOf, Stable;
    var t := Ingest(env, map[], rules);
    IngestKept(env, map[], rules);
    if Trimmed(t) {
      forall k | k in t
        ensures Stable(env, t[k])
      {
        KeptStable(env, t[k]);
      }
      forall dst, walk | Lists(walk, t)
        ensures Ingest(env, dst, walk) == Ingest(env, dst, rules)
      {
        StagingIsTransparent(env, dst, rules, walk);
      }
    } else {
      var walk := ListingExists(t);
      MergeExactly(env, t, walk);
      assert Ingest(env, map[], walk) != Ingest(env, map[], rules);
    }
  }

  // A merge that goes wrong: the legacy cache line "*. a.b" stages a rule for " a.b", which merges as
  // a rule for "a.b".
  lemma BlankIsLostInMerge(env: Env, rule: Rule, stored: Rule)
    requires EnvOk(env) && env.registrable(" a.b") && env.registrable("a.b")
    requires rule == Rule("*. a.b", SUFFIX, "legacy-cache", UNKNOWN, BLOCK, LegacyCache)
    requires stored == Rule(" a.b", SUFFIX, "legacy-cache", UNKNOWN, BLOCK, Wildcard)
    ensures Ingest(env, map[], [rule]) == map[SlotOf(stored) := stored]
    ensures Ingest(env, map[], [stored]) == map[SlotOf(stored.(domain := "a.b")) := stored.(domain := "a.b")]
    ensures Lists([stored], Ingest(env, map[], [rule])) && Ingest(env, map[], [stored]) != Ingest(env, map[], [rule])
  {
    hide Normalize, Path, Ingest, AsciiIdentity;
    BlankAfterWildcardIsUnstable(env, "legacy-cache", LegacyCache);
    OneRule(env, rule, stored);
    OneRule(env, stored, stored.(domain := "a.b"));
    assert SlotOf(stored) in map[SlotOf(stored) := stored];
  }

  lemma OneRule(env: Env, rule: Rule, stored: Rule)
    requires Normalize(env, rule) == Some(stored)
    ensures Ingest(env, map[], [rule]) == map[SlotOf(stored) := stored]
  {
    hide Normalize, Path;
    assert [rule][1..] == [];
    NothingAdded(env, Add(env, map[], rule));
  }

  /* ---------- MatchRuleDetail ---------- */

  // The deepest suffix rule on the first n labels of the query.
  function Deepest(t: Table, q: seq<string>, n: nat): Option<Rule>
    requires n <= |q|
  {
    if n == 0 then None
    else if Slot(q[..n], false) in t then Some(t[Slot(q[..n], false)])
    else Deepest(t, q, n - 1)
  }

  // The query's own exact rule, else the deepest suffix rule at or above it.
  function Best(t: Table, q: seq<string>): Option<Rule> {
    if Slot(q, true) in t then Some(t[Slot(q, true)]) else Deepest(t, q, |q|)
  }

  // A rule covers a query: same labels, or for a suffix rule the same labels from the top.
  predicate Covers(r: Rule, q: seq<string>) {
    if r.scope == EXACT then Path(r.domain) == q else Path(r.domain) <= q && Path(r.domain) != []
  }

  // Rule i of a flat list answers the query: it covers it, no exact rule is passed over for a
  // suffix rule, no deeper suffix rule for a shallower one, no earlier rule for a later duplicate.
  ghost predicate Answers(rules: seq<Rule>, q: seq<string>, i: nat) {
    && i < |rules| && Covers(rules[i], q)
    && forall j :: 0 <= j < |rules| && Covers(rules[j], q) ==>
         && (rules[j].scope == EXACT ==> rules[i].scope == EXACT)
         && (rules[i].scope != EXACT ==> |Path(rules[j].domain)| <= |Path(rules[i].domain)|)
         && (SlotOf(rules[j]) == SlotOf(rules[i]) ==> i <= j)
  }

  lemma {:induction false} DeepestExactly(t: Table, q: seq<string>, n: nat)
    requires n <= |q|
    ensures match Deepest(t, q, n)
            case None => forall m :: 0 < m <= n ==> Slot(q[..m], false) !in t
            case Some(r) => exists m :: 0 < m <= n && Slot(q[..m], false) in t && t[Slot(q[..m], false)] == r
                              && forall m' :: m < m' <= n ==> Slot(q[..m'], false) !in t
  {
    if n > 0 {
      DeepestExactly(t, q, n - 1);
    }
  }

  lemma {:induction false} FirstIndex(rules: seq<Rule>, k: Slot) returns (i: nat)
    requires FirstIn(rules, k).Some?
    ensures i < |rules| && rules[i] == FirstIn(rules, k).value && SlotOf(rules[i]) == k
    ensures forall j :: 0 <= j < i ==> SlotOf(rules[j]) != k
  {
    hide SlotOf;
    if SlotOf(rules[0]) == k {
      i := 0;
    } else {
      var before := FirstIndex(rules[1..], k);
      i := before + 1;
      assert rules[i] == rules[1..][before];
      forall j | 0 <= j < i
        ensures SlotOf(rules[j]) != k
      {
        if j > 0 {
          assert rules[j] == rules[1..][j - 1];
        }
      }
    }
  }

  // The answer a scan gives: none when nothing covers the query, else the rule that answers it.
  ghost predicate ScanResult(rules: seq<Rule>, q: seq<string>, r: Option<Rule>) {
    match r
    case None => forall i :: 0 <= i < |rules| ==> !Covers(rules[i], q)
    case Some(x) => exists i: nat :: Answers(rules, q, i) && rules[i] == x
  }

  lemma Scanned(rules: seq<Rule>, q: seq<string>, i: nat)
    requires Answers(rules, q, i)
    ensures ScanResult(rules, q, Some(rules[i]))
  {
  }

  // A trie built from any list of rules answers like a scan of the accepted rules.
  lemma MatchIsScan(env: Env, rules: seq<Rule>, q: seq<string>)
    ensures ScanResult(Accepted(env, rules), q, Best(Ingest(env, map[], rules), q))
  {
    hide Ingest, Accepted, FirstIn, Deepest, Covers, Path, Answers;
    var t, accepted := Ingest(env, map[], rules), Accepted(env, rules);
    forall k
      ensures k in t <==> FirstIn(accepted, k).Some?
      ensures k in t ==> t[k] == FirstIn(accepted, k).value
    {
      IngestLookup(env, map[], rules, k);
    }
    DeepestExactly(t, q, |q|);
    CoveringSlots(t, accepted, q);
    forall j | 0 <= j < |accepted| && Covers(accepted[j], q)
      ensures Best(t, q).Some?
    {
      CoveredIsFound(t, accepted[j], q);
    }
    if Slot(q, true) in t {
      var i := FirstIndex(accepted, Slot(q, true));
      ExactAnswers(accepted, q, i);
      Scanned(accepted, q, i);
    } else if Best(t, q).Some? {
      var m: nat :| 0 < m <= |q| && Slot(q[..m], false) in t && t[Slot(q[..m], false)] == Best(t, q).value
                 && forall m' :: m < m' <= |q| ==> Slot(q[..m'], false) !in t;
      var i := FirstIndex(accepted, Slot(q[..m], false));
      assert accepted[i] in accepted;
      SuffixAnswers(t, accepted, q, i, m);
      Scanned(accepted, q, i);
    }
  }

  lemma ExactAnswers(accepted: seq<Rule>, q: seq<string>, i: nat)
    requires i < |accepted| && SlotOf(accepted[i]) == Slot(q, true)
    requires forall j :: 0 <= j < i ==> SlotOf(accepted[j]) != Slot(q, true)
    ensures Answers(accepted, q, i)
  {
    hide Path;
  }

  lemma SuffixAnswers(t: Table, accepted: seq<Rule>, q: seq<string>, i: nat, m: nat)
    requires i < |accepted| && 0 < m <= |q| && SlotOf(accepted[i]) == Slot(q[..m], false)
    requires accepted[i].scope == SUFFIX
    requires forall j :: 0 <= j < i ==> SlotOf(accepted[j]) != Slot(q[..m], false)
    requires Slot(q, true) !in t && forall m' :: m < m' <= |q| ==> Slot(q[..m'], false) !in t
    requires forall j :: 0 <= j < |accepted| && Covers(accepted[j], q) ==> Occupied(t, accepted[j], q)
    ensures Answers(accepted, q, i)
  {
    hide Path;
  }

  // The rule's slot is taken, and is the query's exact slot or one on its suffix walk.
  ghost predicate Occupied(t: Table, r: Rule, q: seq<string>) {
    var k := SlotOf(r);
    && k in t
    && if r.scope == EXACT then k == Slot(q, true) else 0 < |k.path| <= |q| && k == Slot(q[..|k.path|], false)
  }

  lemma CoveredIsFound(t: Table, r: Rule, q: seq<string>)
    requires Occupied(t, r, q)
    ensures Best(t, q).Some?
  {
    hide Path, Deepest;
    DeepestExactly(t, q, |q|);
  }

  lemma CoveringSlots(t: Table, accepted: seq<Rule>, q: seq<string>)
    requires forall k :: k in t <==> FirstIn(accepted, k).Some?
    requires forall x :: x in accepted ==> x.scope == EXACT || x.scope == SUFFIX
    ensures forall j :: 0 <= j < |accepted| && Covers(accepted[j], q) ==> Occupied(t, accepted[j], q)
  {
    hide FirstIn, Path;
    forall j | 0 <= j < |accepted| && Covers(accepted[j], q)
      ensures Occupied(t, accepted[j], q)
    {
      assert accepted[j] in accepted;
      FirstOf(accepted, SlotOf(accepted[j]));
    }
  }

  // The order of preference leaves no choice.
  lemma AnswerIsUnique(rules: seq<Rule>, q: seq<string>, i: nat, j: nat)
    requires Answers(rules, q, i) && Answers(rules, q, j)
    ensures rules[i].scope == rules[j].scope == EXACT || (rules[i].scope != EXACT && rules[j].scope != EXACT)
    ensures i == j
  {
    hide Path;
    var a, b := Path(rules[i].domain), Path(rules[j].domain);
    assert a == q[..|a|] && b == q[..|b|];
  }

  // A trie with one rule answers a query, in the form it was normalised to, exactly when that form is the
  // stored name or, for a suffix rule, ends in a dot and the stored name; and with that rule.  So a name
  // and its other spellings match exactly when they are normalised to what was stored, or below it.
  lemma OneRuleAnswersExactly(env: Env, rule: Rule, r: Rule, domain: string)
    requires Normalize(env, rule) == Some(r) && Host(r.domain) && Host(NormalizeDomain(env, domain))
    ensures var q := NormalizeDomain(env, domain);
            Best(Ingest(env, map[], [rule]), Path(q))
            == if q == r.domain || (r.scope == SUFFIX && IsSub(q, r.domain)) then Some(r) else None
  {
    hide Ingest, Deepest, Normalize, NormalizeDomain, Path, Host, IsSub;
    var q := NormalizeDomain(env, domain);
    var t, p := Ingest(env, map[], [rule]), Path(q);
    OneRule(env, rule, r);
    NormalScope(env, rule, r);
    PathPrefixIsSuffix(r.domain, q);
    HostPathNotEmpty(r.domain);
    DeepestExactly(t, p, |p|);
    if r.scope == SUFFIX && Path(r.domain) <= p {
      assert SUFFIX != EXACT && p[..|Path(r.domain)|] == Path(r.domain);
      assert Slot(p[..|Path(r.domain)|], false) in t;
    }
  }

  lemma NormalScope(env: Env, rule: Rule, r: Rule)
    requires Normalize(env, rule) == Some(r)
    ensures r.scope == EXACT || r.scope == SUFFIX
  {
    hide NormalizeDomain;
  }

  // The trie that holds an international name behind a wildcard does not answer a query for that name,
  // in either form.
  lemma InternationalWildcardMisses(env: Env, rule: Rule, domain: string)
    requires env.idna("*.\U{fc}.b") == None && env.idna("\U{fc}.b") == Some("xn--tda.b") && env.registrable("\U{fc}.b")
    requires rule == Rule("*.\U{fc}.b", SUFFIX, rule.sourceId, UNKNOWN, BLOCK, GlobalDefault)
    requires domain == "\U{fc}.b" || NormalizeDomain(env, domain) == "xn--tda.b"
    ensures var t := Ingest(env, map[], [rule]);
            t != map[] && Best(t, Path(NormalizeDomain(env, domain))) == None
  {
    hide Ingest, Deepest, Normalize, NormalizeDomain, Path;
    var stored := Rule("\U{fc}.b", SUFFIX, rule.sourceId, UNKNOWN, BLOCK, Wildcard);
    WildcardSkipsIdna(env, rule.sourceId);
    OneRule(env, rule, stored);
    assert SlotOf(stored) in Ingest(env, map[], [rule]);
    OneRuleAnswersExactly(env, rule, stored, domain);
    assert "xn--tda.b"[6..] == "a.b" != "\U{fc}.b";
  }
}
