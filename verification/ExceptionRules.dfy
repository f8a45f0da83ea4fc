/**
 Scoped exceptions of internal/risk/adblock_exceptions.go: what an accepted entry is, when it
 fires, which of several firing entries wins, and that the selector test accepts exactly the
 entries that can fire.

 IDNA and the public-suffix test are parameters; JSON decoding is not part of this model.
 */
module ExceptionRules {
  import opened Text
  import opened TrieRules
  import opened TrieTable

  const MAX_ENTRIES := 1024
  const MAX_ID := 64
  const MAX_REASON := 256
  const MAX_HOST := 253
  const MAX_LABEL := 63

  datatype RawEntry = RawEntry(id: string, domain: string, scope: string, matchedRule: string, sourceId: string,
                               matchType: string, category: string, reason: string)

  // A validated entry; the empty category matches every category.
  datatype Entry = Entry(id: string, domain: string, scope: string, matchedRule: string, sourceId: string,
                         matchType: string, category: string, reason: string)

  // What an entry asks of the rule.
  datatype Key = Key(matchedRule: string, sourceId: string, matchType: string, category: string)

  datatype Selector = Selector(domain: string, scope: string, key: Key)

  function KeyOf(e: Entry): Key {
    Key(e.matchedRule, e.sourceId, e.matchType, e.category)
  }

  function SelectorOf(e: Entry): Selector {
    Selector(e.domain, e.scope, KeyOf(e))
  }

  /* ---------- Validation of one entry ---------- */

  predicate HostChar(c: char) {
    'a' <= c <= 'z' || '0' <= c <= '9' || c == '-'
  }

  predicate LabelOk(s: string) {
    0 < |s| <= MAX_LABEL && (forall c :: c in s ==> HostChar(c)) && s[0] != '-' && s[|s| - 1] != '-'
  }

  predicate LabelsOk(s: string) {
    forall l :: l in Split(s, '.') ==> LabelOk(l)
  }

  // normalizeExceptionDomain
  function ExceptionDomain(env: Env, raw: string): Option<string> {
    var trimmed := ToLower(TrimSpace(raw));
    if trimmed == "" || (exists c :: c in trimmed && c in "/?#@:* \t\n\r") then None
    else match env.idna(trimmed)
      case None => None
      case Some(converted) =>
        var ascii := TrimSpace(converted);
        if ascii == "" || |ascii| > MAX_HOST || !LabelsOk(ascii) then None else Some(ascii)
  }

  predicate IdOk(id: string) {
    0 < |id| <= MAX_ID
    && forall c :: c in id ==> 'a' <= c <= 'z' || 'A' <= c <= 'Z' || '0' <= c <= '9' || c == '-' || c == '_'
  }

  predicate Hex(c: char) {
    '0' <= c <= '9' || 'a' <= c <= 'f' || 'A' <= c <= 'F'
  }

  // canonicalExceptionSourceID
  function ExceptionSource(raw: string): Option<string> {
    var trimmed := TrimSpace(raw);
    if trimmed == "legacy" || trimmed == "legacy-cache" then Some(trimmed)
    else if |trimmed| != 32 || (exists c :: c in trimmed && !Hex(c)) then None
    else Some(ToLower(trimmed))
  }

  function IsScope(s: string): bool {
    s == EXACT || s == SUFFIX
  }

  // selectorsIntersect
  predicate SelectorsIntersect(domain: string, scope: string, ruleDomain: string, ruleScope: string) {
    domain == ruleDomain
    || if scope == EXACT && ruleScope == EXACT then false
       else if scope == EXACT then IsSub(domain, ruleDomain)
       else if ruleScope == EXACT then IsSub(ruleDomain, domain)
       else IsSub(domain, ruleDomain) || IsSub(ruleDomain, domain)
  }

  // The checks of the loop body that look at one entry alone.
  function Check(env: Env, raw: RawEntry): Option<Entry> {
    var reason := TrimSpace(raw.reason);
    var domain := ExceptionDomain(env, raw.domain);
    var matchedRule := ExceptionDomain(env, raw.matchedRule);
    var scope := ToLower(TrimSpace(raw.scope));
    var matchType := ToLower(TrimSpace(raw.matchType));
    var sourceId := ExceptionSource(raw.sourceId);
    var category := ToLower(TrimSpace(raw.category));
    if !IdOk(raw.id) || reason == "" || |reason| > MAX_REASON || domain == None || matchedRule == None then None
    else if !IsScope(scope) || !IsScope(matchType) || sourceId == None then None
    else if category != "" && !ValidCategory(category) then None
    else if scope == SUFFIX && !env.registrable(domain.value) then None
    else if !SelectorsIntersect(domain.value, scope, matchedRule.value, matchType) then None
    else Some(Entry(raw.id, domain.value, scope, matchedRule.value, sourceId.value, matchType, category, reason))
  }

  /* ---------- Duplicate selectors ---------- */

  // The string under which the code looks for duplicate selectors.
  function SelectorKey(e: Entry): string {
    e.domain + "\0" + (e.scope + "\0" + (e.matchedRule + "\0" + (e.sourceId + "\0" + (e.matchType + "\0" + e.category))))
  }

  predicate Plain(s: string) {
    '\0' !in s
  }

  lemma LongerFieldDiffers(a: string, b: string, a': string, b': string)
    requires Plain(a') && |a| < |a'|
    ensures a + "\0" + b != a' + "\0" + b'
  {
    assert (a' + "\0" + b')[|a|] == a'[|a|] && a'[|a|] in a';
    assert (a + "\0" + b)[|a|] == '\0';
  }

  lemma CutAtNul(a: string, b: string, a': string, b': string)
    requires Plain(a) && Plain(a')
    ensures a + "\0" + b == a' + "\0" + b' <==> a == a' && b == b'
  {
    var s, s' := a + "\0" + b, a' + "\0" + b';
    if |a| < |a'| {
      LongerFieldDiffers(a, b, a', b');
    } else if |a'| < |a| {
      LongerFieldDiffers(a', b', a, b);
    } else {
      assert s[..|a|] == a && s'[..|a|] == a';
      assert s[|a| + 1..] == b && s'[|a| + 1..] == b';
    }
  }

  predicate PlainFields(e: Entry) {
    Plain(e.domain) && Plain(e.scope) && Plain(e.matchedRule) && Plain(e.sourceId) && Plain(e.matchType)
  }

  // The key identifies the selector.
  lemma SelectorKeyIsInjective(a: Entry, b: Entry)
    requires PlainFields(a) && PlainFields(b)
    ensures SelectorKey(a) == SelectorKey(b) <==> SelectorOf(a) == SelectorOf(b)
  {
    hide Plain;
    var a1, b1 := a.matchType + "\0" + a.category, b.matchType + "\0" + b.category;
    var a2, b2 := a.sourceId + "\0" + a1, b.sourceId + "\0" + b1;
    var a3, b3 := a.matchedRule + "\0" + a2, b.matchedRule + "\0" + b2;
    var a4, b4 := a.scope + "\0" + a3, b.scope + "\0" + b3;
    CutAtNul(a.matchType, a.category, b.matchType, b.category);
    CutAtNul(a.sourceId, a1, b.sourceId, b1);
    CutAtNul(a.matchedRule, a2, b.matchedRule, b2);
    CutAtNul(a.scope, a3, b.scope, b3);
    CutAtNul(a.domain, a4, b.domain, b4);
  }

  /* ---------- What a checked entry looks like ---------- */

  lemma {:induction false} LabelChars(s: string, sep: char)
    ensures forall c :: c in s ==> c == sep || exists l :: l in Split(s, sep) && c in l
  {
    hide Split;
    if s != "" {
      SplitStep(s, sep);
      LabelChars(s[1..], sep);
      var rest := Split(s[1..], sep);
      forall c | c in s && c != sep
        ensures exists l :: l in Split(s, sep) && c in l
      {
        if c == s[0] {
          assert c in Split(s, sep)[0];
        } else {
          assert c in s[1..];
          var l :| l in rest && c in l;
          var i :| 0 <= i < |rest| && rest[i] == l;
          assert Split(s, sep)[if s[0] == sep then i + 1 else i] in Split(s, sep);
          assert c in Split(s, sep)[if s[0] == sep then i + 1 else i];
        }
      }
    }
  }

  // Every piece after the first is non-empty.
  predicate Filled(parts: seq<string>) {
    forall i :: 1 <= i < |parts| ==> parts[i] != ""
  }

  lemma FilledStep(s: string)
    requires s != "" && Filled(Split(s, '.'))
    ensures Filled(Split(s[1..], '.'))
    ensures s[0] == '.' ==> Split(s[1..], '.')[0] != "" && Split(s, '.')[0] == ""
    ensures s[0] != '.' ==> Split(s, '.')[0] != ""
  {
    hide Split;
    SplitStep(s, '.');
    var rest := Split(s[1..], '.');
    if s[0] == '.' {
      assert forall i :: 0 <= i < |rest| ==> rest[i] == Split(s, '.')[i + 1];
      assert Split(s, '.')[1] == rest[0];
    } else {
      assert forall i :: 1 <= i < |rest| ==> rest[i] == Split(s, '.')[i];
    }
  }

  // No empty piece after the first: no separator is last or next to another.
  lemma {:induction false} NoEmptyPiece(s: string)
    requires s != "" && Filled(Split(s, '.'))
    ensures s[|s| - 1] != '.' && !HasDoubleDot(s) && (s[0] == '.' <==> Split(s, '.')[0] == "")
  {
    hide HasDoubleDot, Filled;
    FilledStep(s);
    DoubleDotStep(s);
    if s[1..] != "" {
      NoEmptyPiece(s[1..]);
    }
  }

  lemma DoubleDotStep(s: string)
    requires s != ""
    ensures HasDoubleDot(s) <==> |s| > 1 && ((s[0] == '.' && s[1] == '.') || HasDoubleDot(s[1..]))
  {
    if HasDoubleDot(s) {
      var i :| 0 <= i < |s| - 1 && s[i] == '.' && s[i + 1] == '.';
      if i > 0 {
        assert s[1..][i - 1] == '.' && s[1..][i] == '.';
      }
    }
    if |s| > 1 && HasDoubleDot(s[1..]) {
      var i :| 0 <= i < |s[1..]| - 1 && s[1..][i] == '.' && s[1..][i + 1] == '.';
      assert s[i + 1] == '.' && s[i + 2] == '.';
    }
  }

  lemma LabelsMakeHost(s: string)
    requires s != "" && LabelsOk(s)
    ensures Host(s) && Plain(s)
  {
    var parts := Split(s, '.');
    assert forall i :: 0 <= i < |parts| ==> parts[i] in parts;
    NoEmptyPiece(s);
    LabelChars(s, '.');
  }

  lemma SourceIsPlain(raw: string)
    requires ExceptionSource(raw).Some?
    ensures Plain(ExceptionSource(raw).value)
  {
    var trimmed := TrimSpace(raw);
    if trimmed != "legacy" && trimmed != "legacy-cache" {
      assert forall i :: 0 <= i < |trimmed| ==> trimmed[i] in trimmed;
    }
  }

  // Every accepted entry has host names for both domains and can meet its rule.
  lemma CheckedEntry(env: Env, raw: RawEntry)
    requires Check(env, raw).Some?
    ensures var e := Check(env, raw).value;
            && PlainFields(e) && Host(e.domain) && Host(e.matchedRule) && IsScope(e.scope) && IsScope(e.matchType)
            && SelectorsIntersect(e.domain, e.scope, e.matchedRule, e.matchType)
            && (e.scope == SUFFIX ==> env.registrable(e.domain))
            && (e.category == "" || ValidCategory(e.category)) && e.id == raw.id
  {
    hide Host, LabelsOk, ExceptionSource, ToLower, TrimSpace, IsSub;
    var e := Check(env, raw).value;
    LabelsMakeHost(e.domain);
    LabelsMakeHost(e.matchedRule);
    SourceIsPlain(raw.sourceId);
  }

  /* ---------- Which queries a selector covers ---------- */

  // Equal, or for a suffix selector below it at a label boundary.
  predicate CoveredBy(q: string, domain: string, scope: string) {
    q == domain || (scope != EXACT && IsSub(q, domain))
  }

  lemma SubsNest(q: string, a: string, b: string)
    requires (q == a || IsSub(q, a)) && (q == b || IsSub(q, b)) && |a| >= |b|
    ensures a == b || IsSub(a, b)
  {
    assert a == q[|q| - |a|..] && b == q[|q| - |b|..];
    assert a[|a| - |b|..] == b;
  }

  // The selector test is exact: it holds exactly when some name is covered by both selectors.
  lemma IntersectExactly(domain: string, scope: string, ruleDomain: string, ruleScope: string)
    ensures SelectorsIntersect(domain, scope, ruleDomain, ruleScope)
        <==> exists q :: CoveredBy(q, domain, scope) && CoveredBy(q, ruleDomain, ruleScope)
  {
    hide IsSub;
    if SelectorsIntersect(domain, scope, ruleDomain, ruleScope) {
      var q := if domain == ruleDomain || (ruleScope != EXACT && IsSub(domain, ruleDomain)) then domain else ruleDomain;
      assert CoveredBy(q, domain, scope) && CoveredBy(q, ruleDomain, ruleScope);
    }
    forall q | CoveredBy(q, domain, scope) && CoveredBy(q, ruleDomain, ruleScope)
      ensures SelectorsIntersect(domain, scope, ruleDomain, ruleScope)
    {
      if |domain| >= |ruleDomain| {
        SubsNest(q, domain, ruleDomain);
      } else {
        SubsNest(q, ruleDomain, domain);
      }
      NotSubOfItself(q, domain);
      NotSubOfItself(q, ruleDomain);
    }
  }

  lemma NotSubOfItself(q: string, d: string)
    ensures IsSub(q, d) ==> |q| > |d| && q != d
    ensures q == d ==> !IsSub(q, d)
  {
  }

  /* ---------- When an entry fires ---------- */

  // The rule is the one the entry names.
  predicate Provenance(e: Entry, rule: Rule) {
    && e.matchedRule == rule.domain && e.sourceId == rule.sourceId && e.matchType == rule.scope
    && (e.category == "" || e.category == rule.category)
  }

  predicate Fires(e: Entry, q: string, rule: Rule) {
    CoveredBy(q, e.domain, e.scope) && Provenance(e, rule)
  }

  // An entry the selector test rejects fires for no rule that any trie returns for any query, empty
  // labels in the query included.
  lemma RejectedNeverFires(e: Entry, t: Table, q: string, rule: Rule)
    requires Host(e.domain) && Host(e.matchedRule) && Placed(t) && Best(t, Path(q)) == Some(rule)
    requires !SelectorsIntersect(e.domain, e.scope, e.matchedRule, e.matchType)
    ensures !Fires(e, q, rule)
  {
    hide Path, Host, Deepest, IsSub;
    BestCovers(t, Path(q), rule);
    if Fires(e, q, rule) {
      SubSharesPath(e.domain, q);
      NestedHosts(rule.domain, e.domain, Path(q));
      if e.scope == EXACT {
        PathPrefixIsSuffix(rule.domain, q);
      }
    }
  }

  // What the trie returns covers the query by labels.
  lemma BestCovers(t: Table, q: seq<string>, rule: Rule)
    requires Placed(t) && Best(t, q) == Some(rule)
    ensures if rule.scope == EXACT then Path(rule.domain) == q else Path(rule.domain) <= q
  {
    hide Path, Deepest;
    if Slot(q, true) !in t {
      DeepestExactly(t, q, |q|);
      var m :| 0 < m <= |q| && Slot(q[..m], false) in t && t[Slot(q[..m], false)] == rule;
      assert SlotOf(rule) == Slot(q[..m], false);
    }
  }

  // Tries only return registrable rules.
  lemma ReturnedIsRegistrable(env: Env, rules: seq<Rule>, q: seq<string>, rule: Rule)
    requires Best(Ingest(env, map[], rules), q) == Some(rule)
    ensures env.registrable(rule.domain)
  {
    hide Normalize, Deepest, Ingest;
    var t := Ingest(env, map[], rules);
    DeepestExactly(t, q, |q|);
    var k :| k in t && t[k] == rule;
    IngestedFrom(env, rules, k);
    var r :| r in rules && Normalize(env, r) == Some(rule);
    NormalizedIsRegistrable(env, r);
  }

  lemma NormalizedIsRegistrable(env: Env, rule: Rule)
    requires Normalize(env, rule).Some?
    ensures env.registrable(Normalize(env, rule).value.domain)
  {
  }

  // A feed can list the rule an entry names; an entry without a category fits a rule of any.
  function NamedRule(e: Entry): Rule {
    Rule(e.matchedRule, e.matchType, e.sourceId, if e.category == "" then UNKNOWN else e.category, BLOCK, Unspecified)
  }

  lemma NamedRuleIsStored(env: Env, raw: RawEntry)
    requires AsciiIdentity(env) && Check(env, raw).Some? && env.registrable(Check(env, raw).value.matchedRule)
    ensures var rule := NamedRule(Check(env, raw).value); Normalize(env, rule) == Some(rule)
  {
    hide Check, TrimSpace, ToLower, Sanitize, Host, HasDoubleDot, SelectorsIntersect;
    var e := Check(env, raw).value;
    var d := e.matchedRule;
    CheckedEntry(env, raw);
    MatchedRuleChars(env, raw);
    HostIsKept(d);
    CategoriesArePlain(NamedRule(e).category);
    BlockIsPlain();
    NormalizeAscii(env, d);
    ToLowerIdentity(d);
    StarredHasStar(d);
    NoDoubleDots(d);
  }

  lemma MatchedRuleChars(env: Env, raw: RawEntry)
    requires Check(env, raw).Some?
    ensures forall c :: c in Check(env, raw).value.matchedRule ==> HostChar(c) || c == '.'
  {
    hide TrimSpace, ToLower, SelectorsIntersect, ExceptionSource, Split;
    var d := Check(env, raw).value.matchedRule;
    LabelChars(d, '.');
  }

  lemma HostIsKept(d: string)
    requires Host(d) && forall c :: c in d ==> HostChar(c) || c == '.'
    ensures d != "" && Ascii(d) && Lower(d) && '*' !in d && TrimSpace(d) == d && CutDots(d) == d && !HasDoubleDot(d)
  {
    hide HasDoubleDot;
    assert d[0] in d && d[|d| - 1] in d;
  }

  // The entry fires for a rule that some trie returns for some query.
  ghost predicate CanFire(env: Env, e: Entry) {
    exists rules, q, rule :: Best(Ingest(env, map[], rules), Path(q)) == Some(rule) && Fires(e, q, rule)
  }

  // An accepted entry can fire exactly when the rule it names is registrable: validation asks that of
  // suffix selectors only, and no trie stores a rule that is not.
  lemma AcceptedFiresExactly(env: Env, raw: RawEntry, e: Entry)
    requires AsciiIdentity(env) && Check(env, raw) == Some(e)
    ensures CanFire(env, e) <==> env.registrable(e.matchedRule)
  {
    hide Check, Best, Ingest, Path, Normalize, AsciiIdentity, CoveredBy;
    if CanFire(env, e) {
      var rules, q, rule :| Best(Ingest(env, map[], rules), Path(q)) == Some(rule) && Fires(e, q, rule);
      ReturnedIsRegistrable(env, rules, Path(q), rule);
    }
    if env.registrable(e.matchedRule) {
      NamedRuleIsStored(env, raw);
      CheckedEntry(env, raw);
      var rule := NamedRule(e);
      OneRule(env, rule, rule);
      var q := CoveredByBoth(e, rule);
      assert Best(Ingest(env, map[], [rule]), Path(q)) == Some(rule) && Fires(e, q, rule);
    }
  }

  // A host that the selector covers and for which a trie holding just the named rule returns it.
  lemma CoveredByBoth(e: Entry, rule: Rule) returns (q: string)
    requires Host(e.domain) && Host(e.matchedRule) && rule == NamedRule(e)
    requires SelectorsIntersect(e.domain, e.scope, e.matchedRule, e.matchType)
    ensures Host(q) && Fires(e, q, rule) && Best(map[SlotOf(rule) := rule], Path(q)) == Some(rule)
  {
    hide Path, Host, Deepest, IsSub;
    var t := map[SlotOf(rule) := rule];
    q := if e.domain == e.matchedRule || (e.matchType != EXACT && IsSub(e.domain, e.matchedRule)) then e.domain
         else e.matchedRule;
    PathPrefixIsSuffix(e.matchedRule, q);
    HostPathNotEmpty(e.matchedRule);
    var p := Path(e.matchedRule);
    assert Path(q)[..|p|] == p;
    DeepestExactly(t, Path(q), |Path(q)|);
    if e.matchType != EXACT {
      assert Slot(Path(q)[..|p|], false) in t;
    }
  }

  // An accepted entry that can never fire: it names the public suffix "com".
  lemma UnregistrableRuleIsAccepted(env: Env)
    requires AsciiIdentity(env) && env.idna("a.com") == Some("a.com") && env.idna("com") == Some("com")
    requires !env.registrable("com")
    ensures var raw := RawEntry("x", "a.com", "exact", "com", "legacy", "suffix", "", "r");
            var e := Entry("x", "a.com", "exact", "com", "legacy", "suffix", "", "r");
            Check(env, raw) == Some(e) && !CanFire(env, e)
  {
    var raw := RawEntry("x", "a.com", "exact", "com", "legacy", "suffix", "", "r");
    var e := Entry("x", "a.com", "exact", "com", "legacy", "suffix", "", "r");
    ComIsChecked(env);
    AcceptedFiresExactly(env, raw, e);
  }

  lemma ComIsChecked(env: Env)
    requires env.idna("a.com") == Some("a.com") && env.idna("com") == Some("com")
    ensures Check(env, RawEntry("x", "a.com", "exact", "com", "legacy", "suffix", "", "r"))
         == Some(Entry("x", "a.com", "exact", "com", "legacy", "suffix", "", "r"))
  {
    hide TrimSpace, ToLower, Split, LabelOk;
    PlainIsWhole("a.com");
    PlainIsWhole("com");
    PlainIsWhole("exact");
    PlainIsWhole("suffix");
    PlainIsWhole("legacy");
    PlainIsWhole("r");
    EmptyIsWhole();
    ComLabels();
    assert "a.com"[2..] == "com" && "a.com"[1] == '.';
  }

  lemma PlainIsWhole(s: string)
    requires s != "" && forall i :: 0 <= i < |s| ==> 'a' <= s[i] <= 'z' || s[i] == '.'
    ensures TrimSpace(s) == s && ToLower(s) == s
  {
    ToLowerIdentity(s);
  }

  lemma EmptyIsWhole()
    ensures TrimSpace("") == "" && ToLower("") == ""
  {
  }

  lemma ComLabels()
    ensures LabelsOk("a.com") && LabelsOk("com")
  {
    hide Split;
    SplitCut("a", "com", '.');
    assert "a" + ['.'] + "com" == "a.com";
    assert '.' !in "com";
    assert |Split("com", '.')| == 1;
    assert LabelOk("a") && LabelOk("com");
  }

  /* ---------- Which firing entry wins ---------- */

  // Exact selectors before suffix selectors, deeper before shallower, a category before none.
  predicate Above(a: Entry, b: Entry) {
    if a.scope == EXACT && b.scope != EXACT then true
    else if a.scope != EXACT && b.scope == EXACT then false
    else |a.domain| > |b.domain| || (|a.domain| == |b.domain| && a.category != "" && b.category == "")
  }

  // Of two entries with the same selector the later one counts; validation admits no such pair.
  ghost predicate Wins(entries: seq<Entry>, q: string, rule: Rule, i: nat) {
    && i < |entries| && Fires(entries[i], q, rule)
    && forall j :: 0 <= j < |entries| && Fires(entries[j], q, rule) ==>
         !Above(entries[j], entries[i]) && (Same(entries[j], entries[i]) ==> j <= i)
  }

  predicate Same(a: Entry, b: Entry) {
    (a.scope == EXACT <==> b.scope == EXACT) && a.domain == b.domain && KeyOf(a) == KeyOf(b)
  }

  // What a scan of all entries answers.
  ghost predicate Verdict(entries: seq<Entry>, q: string, rule: Rule, id: Option<string>) {
    match id
    case None => forall i :: 0 <= i < |entries| ==> !Fires(entries[i], q, rule)
    case Some(x) => exists i: nat :: Wins(entries, q, rule, i) && entries[i].id == x
  }

  // Entries that fire for one query and rank equally have the same selector.
  lemma TiesAreSame(a: Entry, b: Entry, q: string, rule: Rule)
    requires Fires(a, q, rule) && Fires(b, q, rule) && !Above(a, b) && !Above(b, a)
    ensures Same(a, b)
  {
    hide IsSub;
    SameLength(q, a.domain, b.domain);
  }

  lemma SameLength(q: string, a: string, b: string)
    requires (q == a || IsSub(q, a)) && (q == b || IsSub(q, b)) && |a| == |b|
    ensures a == b
  {
  }

  lemma WinnerIsUnique(entries: seq<Entry>, q: string, rule: Rule, i: nat, j: nat)
    requires Wins(entries, q, rule, i) && Wins(entries, q, rule, j)
    ensures i == j
  {
    hide Fires, Above, Same;
    TiesAreSame(entries[i], entries[j], q, rule);
    TiesAreSame(entries[j], entries[i], q, rule);
  }

  ghost predicate Distinct(entries: seq<Entry>) {
    && (forall e :: e in entries ==> IsScope(e.scope))
    && forall i, j :: 0 <= i < j < |entries| ==> SelectorOf(entries[i]) != SelectorOf(entries[j])
  }

  // With distinct selectors the answer does not depend on the order of the entries.
  lemma OrderDoesNotMatter(a: seq<Entry>, b: seq<Entry>, q: string, rule: Rule, x: Option<string>, y: Option<string>)
    requires Distinct(a) && multiset(a) == multiset(b)
    requires Verdict(a, q, rule, x) && Verdict(b, q, rule, y)
    ensures x == y
  {
    hide Fires, Above, Same;
    if x == None {
      SilentToo(b, a, q, rule);
    } else if y == None {
      SilentToo(a, b, q, rule);
    } else {
      var i: nat :| Wins(a, q, rule, i) && a[i].id == x.value;
      var j: nat :| Wins(b, q, rule, j) && b[j].id == y.value;
      SameElements(a, b, a[i]);
      SameElements(a, b, b[j]);
      TiesAreSame(a[i], b[j], q, rule);
      OneOfEach(a, a[i], b[j]);
    }
  }

  lemma SameElements(a: seq<Entry>, b: seq<Entry>, e: Entry)
    requires multiset(a) == multiset(b)
    ensures e in a <==> e in b
  {
    assert e in a <==> e in multiset(a);
  }

  lemma SilentToo(a: seq<Entry>, b: seq<Entry>, q: string, rule: Rule)
    requires multiset(a) == multiset(b) && Verdict(b, q, rule, None)
    ensures Verdict(a, q, rule, None)
  {
    hide Fires;
    forall i | 0 <= i < |a|
      ensures !Fires(a[i], q, rule)
    {
      SameElements(a, b, a[i]);
    }
  }

  lemma OneOfEach(entries: seq<Entry>, a: Entry, b: Entry)
    requires Distinct(entries) && a in entries && b in entries && Same(a, b)
    ensures a == b
  {
    var i :| 0 <= i < |entries| && entries[i] == a;
    var j :| 0 <= j < |entries| && entries[j] == b;
    assert SelectorOf(a) == SelectorOf(b);
  }
}
