/**
 The version 2 text cache of internal/domaintrie/trie.go (WriteToV2, ParseCacheV2Line) and its
 loader parseAdblockCache in internal/risk/adblock_io.go: one tab-separated record a line.
 */
module TrieCache {
  import opened Text
  import opened TrieRules
  import opened TrieTable
  import opened DomainTrie

  const HEADER := "# safe-zone-adblock-cache-v2"
  const LEGACY_CACHE := "legacy-cache"

  // The scanner gives up on a line of this many bytes.
  const MAX_LINE: nat := 10485760

  /* ---------- Fields ---------- */

  // strings.TrimRight(s, "\r")
  function DropReturns(s: string): (r: string)
    ensures r <= s
    ensures r == s <==> s == "" || s[|s| - 1] != '\r'
  {
    if s != "" && s[|s| - 1] == '\r' then DropReturns(s[..|s| - 1]) else s
  }

  lemma {:induction false} DropReturnsConcat(a: string, b: string)
    requires a == "" || a[|a| - 1] != '\r'
    ensures DropReturns(a + b) == a + DropReturns(b)
    decreases |b|
  {
    if b != "" && b[|b| - 1] == '\r' {
      assert (a + b)[..|a + b| - 1] == a + b[..|b| - 1];
      DropReturnsConcat(a, b[..|b| - 1]);
    } else if b == "" {
      assert a + b == a;
    }
  }

  /* ---------- Records ---------- */

  function Line(r: Rule): string {
    r.domain + "\t" + (r.scope + "\t" + (r.category + "\t" + (r.action + "\t" + r.sourceId)))
  }

  function ParseCacheV2Line(line: string): Option<Rule> {
    var parts := Split(line, '\t');
    if |parts| != 5 then None
    else
      var rule := Rule(parts[0], parts[1], parts[4], parts[2], parts[3], CacheV2Unknown);
      if rule.domain == "" || rule.sourceId == "" then None
      else if rule.scope != EXACT && rule.scope != SUFFIX then None
      else if !ValidCategory(rule.category) then None
      else if rule.action != BLOCK then None
      else Some(rule)
  }

  // A rule as AddRule leaves it in a slot.
  predicate Stored(r: Rule) {
    (r.scope == EXACT || r.scope == SUFFIX) && ValidCategory(r.category) && r.action == BLOCK
  }

  // A stored rule whose record can be read back.
  predicate Cacheable(r: Rule) {
    && r.domain != "" && r.sourceId != ""
    && '\t' !in r.domain && '\t' !in r.sourceId
    && r.sourceId[|r.sourceId| - 1] != '\r'
  }

  lemma NoTabs(r: Rule)
    requires Stored(r)
    ensures '\t' !in r.scope && '\t' !in r.category && '\t' !in r.action
  {
    assert '\t' !in EXACT && '\t' !in SUFFIX && '\t' !in BLOCK;
    assert '\t' !in "ads" && '\t' !in "tracking" && '\t' !in "telemetry" && '\t' !in "nuisance" && '\t' !in UNKNOWN;
  }

  // The fields of a record once its domain has no tab.
  lemma RecordFields(domain: string, r: Rule, source: string)
    requires Stored(r) && '\t' !in domain
    ensures Split(domain + "\t" + (r.scope + "\t" + (r.category + "\t" + (r.action + "\t" + source))), '\t')
         == [domain, r.scope, r.category, r.action] + Split(source, '\t')
  {
    hide Split;
    NoTabs(r);
    SplitCut(r.action, source, '\t');
    SplitCut(r.category, r.action + "\t" + source, '\t');
    SplitCut(r.scope, r.category + "\t" + (r.action + "\t" + source), '\t');
    SplitCut(domain, r.scope + "\t" + (r.category + "\t" + (r.action + "\t" + source)), '\t');
  }

  lemma LineDropsReturns(r: Rule)
    ensures DropReturns(Line(r))
         == r.domain + "\t" + (r.scope + "\t" + (r.category + "\t" + (r.action + "\t" + DropReturns(r.sourceId))))
  {
    var a := r.domain + "\t" + (r.scope + "\t" + (r.category + "\t" + (r.action + "\t")));
    assert Line(r) == a + r.sourceId;
    DropReturnsConcat(a, r.sourceId);
  }

  // A stored rule comes back from its record, up to its origin, exactly when it is cacheable.
  lemma LineRoundTrip(r: Rule)
    requires Stored(r)
    ensures ParseCacheV2Line(DropReturns(Line(r))) == Some(r.(origin := CacheV2Unknown)) <==> Cacheable(r)
  {
    hide Split;
    LineDropsReturns(r);
    if '\t' !in r.domain {
      RecordFields(r.domain, r, DropReturns(r.sourceId));
    } else {
      assert forall p :: p in Split(DropReturns(Line(r)), '\t') ==> '\t' !in p;
    }
  }

  /* ---------- The cache file ---------- */

  function DropReturn(s: string): string {
    if s != "" && s[|s| - 1] == '\r' then s[..|s| - 1] else s
  }

  function DropAll(lines: seq<string>): seq<string> {
    if lines == [] then [] else [DropReturn(lines[0])] + DropAll(lines[1..])
  }

  // The pieces a scanner returns: an empty last one is none.
  function RawLines(pieces: seq<string>): (r: seq<string>)
    requires pieces != []
    ensures r <= pieces && (|pieces| > 1 ==> r != [])
  {
    var last := |pieces| - 1;
    if pieces[last] == "" then pieces[..last] else pieces
  }

  // bufio.Scanner over lines: None when a line is too long.
  function Scan(text: string): Option<seq<string>> {
    var lines := RawLines(Split(text, '\n'));
    if exists p :: p in lines && |p| >= MAX_LINE then None else Some(DropAll(lines))
  }

  function Body(rules: seq<Rule>): string {
    if rules == [] then "" else Line(rules[0]) + "\n" + Body(rules[1..])
  }

  function Serialize(rules: seq<Rule>): string {
    HEADER + "\n" + Body(rules)
  }

  // The rule one line of the file adds, if any: malformed version 2 records are skipped, and a line
  // of a domains-only file becomes a suffix rule.
  function RecordOf(v2: bool, text: string): seq<Rule> {
    var line := DropReturns(text);
    if TrimSpace(line) == "" then []
    else if v2 then
      match ParseCacheV2Line(line)
      case None => []
      case Some(r) => [r]
    else [Rule(TrimSpace(line), SUFFIX, LEGACY_CACHE, UNKNOWN, BLOCK, LegacyCache)]
  }

  function RecordsOf(v2: bool, lines: seq<string>): seq<Rule> {
    if lines == [] then [] else RecordOf(v2, lines[0]) + RecordsOf(v2, lines[1..])
  }

  // The rules the lines of a cache file add.
  function Records(lines: seq<string>): seq<Rule> {
    if lines != [] && HEADER <= DropReturns(lines[0]) then RecordsOf(true, lines[1..]) else RecordsOf(false, lines)
  }

  method Render(rules: seq<Rule>) returns (text: string)
    ensures text == Serialize(rules)
  {
    hide Line;
    text := HEADER + "\n";
    var i := 0;
    assert rules[i..] == rules;
    while i < |rules|
      invariant 0 <= i <= |rules| && text + Body(rules[i..]) == Serialize(rules)
    {
      assert rules[i..][0] == rules[i] && rules[i..][1..] == rules[i + 1..];
      Regroup(text, Line(rules[i]) + "\n", Body(rules[i + 1..]));
      text := text + (Line(rules[i]) + "\n");
      i := i + 1;
    }
    assert text + "" == text;
  }

  lemma Regroup(a: string, b: string, c: string)
    ensures a + (b + c) == (a + b) + c
  {
  }

  // The file of a table: its rules in walk order.
  ghost predicate Printed(t: Table, text: string) {
    exists rules :: InWalkOrder(t, rules) && Lists(rules, t) && text == Serialize(rules)
  }

  // WriteToV2
  method WriteToV2(trie: Trie) returns (text: string)
    requires trie.Valid()
    ensures Printed(trie.table, text)
  {
    hide Trie.Valid, Serialize, InWalkOrder, Lists;
    var walk := trie.ForEach();
    text := Render(walk);
  }

  method AddLine(staging: Trie, text: string, v2: bool)
    requires staging.Valid()
    modifies staging, staging.shape.nodes.Values
    ensures staging.Valid() && staging.table == Ingest(staging.env, old(staging.table), RecordOf(v2, text))
    ensures staging.Grew()
  {
    hide Trie.Valid, ParseCacheV2Line, DropReturns, TrimSpace, Add, Adds;
    var line := DropReturns(text);
    if TrimSpace(line) == "" {
      return;
    }
    if v2 {
      match ParseCacheV2Line(line) {
        case None =>
        case Some(rule) =>
          var _ := staging.AddRule(rule);
      }
      return;
    }
    var _ := staging.AddRule(Rule(TrimSpace(line), SUFFIX, LEGACY_CACHE, UNKNOWN, BLOCK, LegacyCache));
  }

  // Decodes every line into a new trie.
  method Decode(env: Env, lines: seq<string>) returns (staging: Trie)
    ensures staging.Valid() && staging.env == env && staging.table == Ingest(env, map[], Records(lines))
    ensures fresh(staging) && forall q :: q in staging.shape.nodes ==> fresh(staging.shape.nodes[q])
  {
    hide Trie.Valid, RecordOf, DropReturns, Ingest;
    staging := new Trie(env);
    var v2 := lines != [] && HEADER <= DropReturns(lines[0]);
    var i := if v2 then 1 else 0;
    IngestNothing(env, map[]);
    ghost var rest := lines[i..];
    while i < |lines|
      invariant 0 <= i <= |lines| && staging.Valid() && staging.env == env
      invariant fresh(staging) && forall q :: q in staging.shape.nodes ==> fresh(staging.shape.nodes[q])
      invariant Ingest(env, staging.table, RecordsOf(v2, lines[i..])) == Ingest(env, map[], RecordsOf(v2, rest))
    {
      assert lines[i..][0] == lines[i] && lines[i..][1..] == lines[i + 1..];
      IngestConcat(env, staging.table, RecordOf(v2, lines[i]), RecordsOf(v2, lines[i + 1..]));
      AddLine(staging, lines[i], v2);
      i := i + 1;
    }
    IngestNothing(env, staging.table);
    assert lines[0..] == lines;
  }

  lemma IngestNothing(env: Env, t: Table)
    ensures Ingest(env, t, []) == t
  {
  }

  // parseAdblockCache: all or nothing, through a staging trie that is merged at the end.
  method ParseAdblockCache(text: string, trie: Trie) returns (ok: bool, ghost walk: seq<Rule>)
    requires trie.Valid()
    modifies trie, trie.shape.nodes.Values
    ensures trie.Valid()
    ensures trie.Grew()
    ensures ok <==> Scan(text).Some? && Ingest(trie.env, map[], Records(Scan(text).value)) != map[]
    ensures !ok ==> trie.table == old(trie.table)
    ensures ok ==> Lists(walk, Ingest(trie.env, map[], Records(Scan(text).value)))
                   && trie.table == Ingest(trie.env, old(trie.table), walk)
  {
    hide Trie.Valid, Scan, Records, Ingest, Lists;
    walk := [];
    if Scan(text) == None {
      return false, [];
    }
    var staging := Decode(trie.env, Scan(text).value);
    if staging.Count() == 0 {
      return false, [];
    }
    var merged;
    merged, walk := trie.MergeFrom(staging);
    return true, walk;
  }

  /* ---------- Writing and reloading ---------- */

  function ReOrigin(r: Rule): Rule {
    r.(origin := CacheV2Unknown)
  }

  function ReOrigins(rules: seq<Rule>): (s: seq<Rule>)
    ensures |s| == |rules| && forall i :: 0 <= i < |rules| ==> s[i] == ReOrigin(rules[i])
  {
    if rules == [] then [] else [ReOrigin(rules[0])] + ReOrigins(rules[1..])
  }

  // The same rules with the origin the cache cannot keep.
  function Reloaded(t: Table): Table {
    map k | k in t :: ReOrigin(t[k])
  }

  function LinesOf(rules: seq<Rule>): seq<string> {
    if rules == [] then [] else [Line(rules[0])] + LinesOf(rules[1..])
  }

  // Records of one line each that the scanner accepts.
  ghost predicate OneLine(r: Rule) {
    '\n' !in Line(r) && |Line(r)| < MAX_LINE
  }

  lemma {:induction false} BodyPieces(rules: seq<Rule>)
    requires forall r :: r in rules ==> OneLine(r)
    ensures Split(Body(rules), '\n') == LinesOf(rules) + [""]
    ensures forall p :: p in LinesOf(rules) ==> |p| < MAX_LINE
  {
    hide Line;
    if rules != [] {
      assert rules[0] in rules && forall r :: r in rules[1..] ==> r in rules;
      BodyPieces(rules[1..]);
      SplitCut(Line(rules[0]), Body(rules[1..]), '\n');
      assert Line(rules[0]) + "\n" + Body(rules[1..]) == Line(rules[0]) + ['\n'] + Body(rules[1..]);
      assert [Line(rules[0])] + (LinesOf(rules[1..]) + [""]) == LinesOf(rules) + [""];
    }
  }

  lemma SerializeScans(rules: seq<Rule>)
    requires forall r :: r in rules ==> OneLine(r)
    ensures Scan(Serialize(rules)) == Some(DropAll([HEADER] + LinesOf(rules)))
  {
    hide Split, Line, OneLine, Body, DropAll;
    BodyPieces(rules);
    assert '\n' !in HEADER;
    SplitCut(HEADER, Body(rules), '\n');
    var lines := [HEADER] + LinesOf(rules);
    assert Split(Serialize(rules), '\n') == lines + [""];
    assert (lines + [""])[..|lines|] == lines;
    forall p | p in lines
      ensures |p| < MAX_LINE
    {
      assert p == HEADER || p in LinesOf(rules);
    }
  }

  lemma TwiceDropped(s: string)
    ensures DropReturns(DropReturn(s)) == DropReturns(s)
  {
  }

  lemma {:induction false} NotBlank(s: string, i: nat)
    requires i < |s| && !IsSpace(s[i])
    ensures TrimSpace(s) != ""
  {
    TrimLeftKeeps(s, i);
  }

  lemma {:induction false} TrimLeftKeeps(s: string, i: nat)
    requires i < |s| && !IsSpace(s[i])
    ensures TrimLeft(s) != "" && TrimRight(TrimLeft(s)) != ""
    decreases |s|
  {
    if IsSpace(s[0]) {
      TrimLeftKeeps(s[1..], i - 1);
    } else {
      TrimRightKeeps(s);
    }
  }

  lemma {:induction false} TrimRightKeeps(s: string)
    requires s != "" && !IsSpace(s[0])
    ensures TrimRight(s) != ""
    decreases |s|
  {
    if IsSpace(s[|s| - 1]) {
      TrimRightKeeps(s[..|s| - 1]);
    }
  }

  lemma RecordComesBack(r: Rule)
    requires Stored(r) && Cacheable(r)
    ensures RecordOf(true, DropReturn(Line(r))) == [ReOrigin(r)]
  {
    TwiceDropped(Line(r));
    LineRoundTrip(r);
    var line := DropReturns(Line(r));
    LineDropsReturns(r);
    assert line[|r.domain| + 1] == r.scope[0];
    assert !IsSpace(EXACT[0]) && !IsSpace(SUFFIX[0]);
    hide ParseCacheV2Line, TrimSpace, DropReturns, DropReturn;
    NotBlank(line, |r.domain| + 1);
  }

  lemma {:induction false} RecordsComeBack(rules: seq<Rule>)
    requires forall r :: r in rules ==> Stored(r) && Cacheable(r)
    ensures RecordsOf(true, DropAll(LinesOf(rules))) == ReOrigins(rules)
  {
    hide Line, DropReturn, RecordOf, Stored, Cacheable;
    if rules != [] {
      assert rules[0] in rules && forall r :: r in rules[1..] ==> r in rules;
      RecordsComeBack(rules[1..]);
      RecordComesBack(rules[0]);
      assert DropAll(LinesOf(rules))[1..] == DropAll(LinesOf(rules[1..])) by {
        assert LinesOf(rules)[1..] == LinesOf(rules[1..]);
      }
    }
  }

  lemma FileComesBack(rules: seq<Rule>)
    requires forall r :: r in rules ==> Stored(r) && Cacheable(r)
    ensures Records(DropAll([HEADER] + LinesOf(rules))) == ReOrigins(rules)
  {
    hide DropReturns, RecordsOf;
    RecordsComeBack(rules);
    var lines := DropAll([HEADER] + LinesOf(rules));
    assert HEADER[|HEADER| - 1] == '2';
    assert ([HEADER] + LinesOf(rules))[1..] == LinesOf(rules);
    assert lines[0] == HEADER && lines[1..] == DropAll(LinesOf(rules));
  }

  // The origin plays no part in how a stable rule is stored.
  lemma StableIsStored(env: Env, r: Rule)
    requires Stable(env, r)
    ensures Stored(r) && Stable(env, ReOrigin(r))
  {
    var raw := TrimSpace(r.domain);
    assert '*' !in r.domain by { StarFree(env, r); }
    StarredHasStar(raw);
  }

  lemma StarFree(env: Env, r: Rule)
    requires Normalize(env, r).Some?
    ensures '*' !in Normalize(env, r).value.domain
  {
    hide TrimSpace, ToLower, ValidCategory;
  }

  // Everything a cache needs to restore a trie.
  ghost predicate Savable(env: Env, t: Table) {
    Placed(t) && AllStable(env, t) && forall k :: k in t ==> Cacheable(t[k]) && OneLine(t[k])
  }

  // Writing a trie and reading the file back restores every rule's domain, scope, category, action
  // and source; only the origin is lost.
  lemma CacheRoundTrip(env: Env, t: Table, rules: seq<Rule>)
    requires Savable(env, t) && Lists(rules, t)
    ensures Scan(Serialize(rules)).Some?
    ensures Ingest(env, map[], Records(Scan(Serialize(rules)).value)) == Reloaded(t)
  {
    hide Serialize, Scan, Records, Cacheable, OneLine, Stored, AllStable, Placed, Lists, Ingest, Reloaded, ReOrigins;
    SavableRules(env, t, rules);
    SerializeScans(rules);
    FileComesBack(rules);
    ReloadedStable(env, t);
    ReloadedLists(t, rules);
    MergeIsUnion(env, map[], Reloaded(t), ReOrigins(rules));
    assert Reloaded(t) + map[] == Reloaded(t);
  }

  lemma SavableRules(env: Env, t: Table, rules: seq<Rule>)
    requires Savable(env, t) && Lists(rules, t)
    ensures forall r :: r in rules ==> OneLine(r) && Cacheable(r) && Stored(r)
  {
    hide Cacheable, OneLine, Stored, Stable, Path;
    forall r | r in rules
      ensures OneLine(r) && Cacheable(r) && Stored(r)
    {
      StableIsStored(env, r);
    }
  }

  lemma ReloadedStable(env: Env, t: Table)
    requires AllStable(env, t)
    ensures AllStable(env, Reloaded(t))
  {
    hide Stable;
    forall k | k in t
      ensures Stable(env, Reloaded(t)[k])
    {
      StableIsStored(env, t[k]);
    }
  }

  lemma ReloadedPlaced(t: Table)
    requires Placed(t)
    ensures Placed(Reloaded(t))
  {
    hide Path;
  }

  lemma ReloadedAt(t: Table, r: Rule)
    ensures SlotOf(ReOrigin(r)) == SlotOf(r)
    ensures SlotOf(r) in t && t[SlotOf(r)] == r ==>
              SlotOf(ReOrigin(r)) in Reloaded(t) && Reloaded(t)[SlotOf(ReOrigin(r))] == ReOrigin(r)
  {
  }

  lemma ReOriginsHas(rules: seq<Rule>, r: Rule)
    ensures r in rules ==> ReOrigin(r) in ReOrigins(rules)
    ensures r in ReOrigins(rules) ==> exists x :: x in rules && ReOrigin(x) == r
  {
    if r in rules {
      var i :| 0 <= i < |rules| && rules[i] == r;
      assert ReOrigins(rules)[i] == ReOrigin(r);
    }
    if r in ReOrigins(rules) {
      var i :| 0 <= i < |rules| && ReOrigins(rules)[i] == r;
      assert rules[i] in rules && ReOrigin(rules[i]) == r;
    }
  }

  lemma ReloadedHolds(rules: seq<Rule>, t: Table, r: Rule)
    requires Lists(rules, t) && r in ReOrigins(rules)
    ensures SlotOf(r) in Reloaded(t) && Reloaded(t)[SlotOf(r)] == r
  {
    hide SlotOf, Reloaded, ReOrigin;
    ReOriginsHas(rules, r);
    var x :| x in rules && ReOrigin(x) == r;
    ReloadedAt(t, x);
  }

  lemma ReloadedIn(rules: seq<Rule>, t: Table, k: Slot)
    requires Lists(rules, t) && k in Reloaded(t)
    ensures Reloaded(t)[k] in ReOrigins(rules)
  {
    hide SlotOf;
    ReOriginsHas(rules, t[k]);
  }

  lemma ReloadedLists(t: Table, rules: seq<Rule>)
    requires Placed(t) && Lists(rules, t)
    ensures Placed(Reloaded(t)) && Lists(ReOrigins(rules), Reloaded(t))
  {
    ReloadedPlaced(t);
    hide Placed, SlotOf, ReOrigin, Reloaded;
    forall k | k in Reloaded(t)
      ensures Reloaded(t)[k] in ReOrigins(rules)
    {
      ReloadedIn(rules, t, k);
    }
    forall r | r in ReOrigins(rules)
      ensures SlotOf(r) in Reloaded(t) && Reloaded(t)[SlotOf(r)] == r
    {
      ReloadedHolds(rules, t, r);
    }
  }

  /* ---------- Exactly which tables come back from their file ---------- */

  // An ASCII table: what a trie built from ASCII rules with ASCII source identifiers holds.
  ghost predicate AsciiTable(env: Env, t: Table) {
    Placed(t) && AllKept(env, t) && forall k :: k in t ==> Ascii(t[k].sourceId)
  }

  lemma IngestIsAscii(env: Env, rules: seq<Rule>)
    requires EnvOk(env) && forall r :: r in rules ==> Ascii(r.domain) && Ascii(r.sourceId)
    ensures AsciiTable(env, Ingest(env, map[], rules))
  {
    hide Ingest, Normalize, Path, Kept, Ascii, AsciiIdentity;
    IngestKept(env, map[], rules);
    var t := Ingest(env, map[], rules);
    forall k | k in t
      ensures Ascii(t[k].sourceId)
    {
      IngestedFrom(env, rules, k);
      var r :| r in rules && Normalize(env, r) == Some(t[k]);
      SourceKept(env, r, t[k]);
    }
  }

  lemma SourceKept(env: Env, rule: Rule, r: Rule)
    requires Normalize(env, rule) == Some(r)
    ensures r.sourceId == rule.sourceId && Stored(r)
  {
    hide TrimSpace, ToLower, Sanitize, Collapse, CutDots;
  }

  // The file can be scanned and holds the table, up to origins.
  ghost predicate Restores(env: Env, t: Table, text: string) {
    Scan(text).Some? && Ingest(env, map[], Records(Scan(text).value)) == Reloaded(t)
  }

  lemma {:induction false} RecordFrom(lines: seq<string>, w: Rule)
    requires w in RecordsOf(true, lines)
    ensures exists line :: line in lines && ParseCacheV2Line(DropReturns(line)) == Some(w)
  {
    hide ParseCacheV2Line, DropReturns;
    if w in RecordOf(true, lines[0]) {
      assert lines[0] in lines;
    } else {
      RecordFrom(lines[1..], w);
      var line :| line in lines[1..] && ParseCacheV2Line(DropReturns(line)) == Some(w);
      assert line in lines;
    }
  }

  // The fields of a record that was read.
  lemma ReadFields(line: string, w: Rule)
    requires ParseCacheV2Line(DropReturns(line)) == Some(w)
    ensures '\t' !in w.domain && '\t' !in w.sourceId && w.sourceId != "" && w.sourceId[|w.sourceId| - 1] != '\r'
    ensures forall c :: c in w.domain || c in w.sourceId ==> c in line
  {
    hide Split;
    var s := DropReturns(line);
    SplitPieces(s, '\t');
    var parts := Split(s, '\t');
    assert parts[0] in parts && parts[4] in parts;
    assert forall c :: c in s ==> c in line;
    ReturnsDropped(line);
  }

  lemma {:induction false} ReturnsDropped(s: string)
    ensures var r := DropReturns(s); r != "" ==> r[|r| - 1] != '\r'
    decreases |s|
  {
    if s != "" && s[|s| - 1] == '\r' {
      ReturnsDropped(s[..|s| - 1]);
    }
  }

  lemma {:induction false} DropAllChars(lines: seq<string>)
    ensures |DropAll(lines)| == |lines|
    ensures forall i :: 0 <= i < |lines| ==> DropAll(lines)[i] == DropReturn(lines[i])
  {
    if lines != [] {
      DropAllChars(lines[1..]);
      assert forall i :: 0 < i < |lines| ==> lines[i] == lines[1..][i - 1];
    }
  }

  // Lines read hold characters of the text and no line break; the first piece comes first.
  lemma ScanLines(text: string, first: string, more: seq<string>)
    requires Split(text, '\n') == [first] + more && more != [] && Scan(text).Some?
    ensures var lines := Scan(text).value;
            && lines != [] && lines[0] == DropReturn(first)
            && forall line, c :: line in lines && c in line ==> c in text && c != '\n'
  {
    hide Split, Scan, DropAll, DropReturn;
    var pieces := Split(text, '\n');
    SplitPieces(text, '\n');
    var raw := RawLines(pieces);
    Scanned(text);
    DropAllChars(raw);
    assert raw[0] == first && |raw| > 0;
    var lines := DropAll(raw);
    forall line | line in lines
      ensures forall c :: c in line ==> c in text && c != '\n'
    {
      var i :| 0 <= i < |lines| && lines[i] == line;
      assert raw[i] in pieces;
      DropReturnChars(raw[i]);
    }
  }

  lemma Scanned(text: string)
    requires Scan(text).Some?
    ensures Scan(text).value == DropAll(RawLines(Split(text, '\n')))
  {
    hide Split, DropAll;
  }

  lemma DropReturnChars(s: string)
    ensures forall c :: c in DropReturn(s) ==> c in s
  {
  }

  // The first line read is the header, and every other is a record of version 2.
  lemma LinesRead(rules: seq<Rule>)
    requires Scan(Serialize(rules)).Some?
    ensures var lines := Scan(Serialize(rules)).value;
            && lines != [] && lines[0] == HEADER && Records(lines) == RecordsOf(true, lines[1..])
            && forall line, c :: line in lines && c in line ==> c in Serialize(rules) && c != '\n'
  {
    hide Split, Scan, Body, RecordsOf;
    assert '\n' !in HEADER && HEADER[|HEADER| - 1] == '2';
    assert Serialize(rules) == HEADER + ['\n'] + Body(rules);
    SplitCut(HEADER, Body(rules), '\n');
    ScanLines(Serialize(rules), HEADER, Split(Body(rules), '\n'));
  }

  lemma {:induction false} BodyAscii(rules: seq<Rule>)
    requires forall r :: r in rules ==> Stored(r) && Ascii(r.domain) && Ascii(r.sourceId)
    ensures Ascii(Body(rules))
  {
    if rules != [] {
      assert rules[0] in rules && forall r :: r in rules[1..] ==> r in rules;
      BodyAscii(rules[1..]);
      LineAscii(rules[0]);
    }
  }

  lemma LineAscii(r: Rule)
    requires Stored(r) && Ascii(r.domain) && Ascii(r.sourceId)
    ensures Ascii(Line(r))
  {
    hide Ascii;
    PlainAscii(r);
    AsciiJoin(r.action, "\t" + r.sourceId);
    AsciiJoin("\t", r.sourceId);
    AsciiJoin(r.category, "\t" + (r.action + ("\t" + r.sourceId)));
    AsciiJoin("\t", r.action + ("\t" + r.sourceId));
    AsciiJoin(r.scope, "\t" + (r.category + ("\t" + (r.action + ("\t" + r.sourceId)))));
    AsciiJoin("\t", r.category + ("\t" + (r.action + ("\t" + r.sourceId))));
    AsciiJoin(r.domain, "\t" + (r.scope + ("\t" + (r.category + ("\t" + (r.action + ("\t" + r.sourceId)))))));
    AsciiJoin("\t", r.scope + ("\t" + (r.category + ("\t" + (r.action + ("\t" + r.sourceId))))));
    SameLine(r);
  }

  lemma SameLine(r: Rule)
    ensures Line(r) == r.domain + ("\t" + (r.scope + ("\t" + (r.category + ("\t" + (r.action + ("\t" + r.sourceId)))))))
  {
    assert r.action + "\t" + r.sourceId == r.action + ("\t" + r.sourceId);
    var a := r.action + ("\t" + r.sourceId);
    assert r.category + "\t" + a == r.category + ("\t" + a);
    var b := r.category + ("\t" + a);
    assert r.scope + "\t" + b == r.scope + ("\t" + b);
    var c := r.scope + ("\t" + b);
    assert r.domain + "\t" + c == r.domain + ("\t" + c);
  }

  lemma AsciiJoin(a: string, b: string)
    ensures Ascii(a + b) <==> Ascii(a) && Ascii(b)
  {
    assert forall c :: c in a + b <==> c in a || c in b;
  }

  lemma PlainAscii(r: Rule)
    requires Stored(r)
    ensures Ascii(r.scope) && Ascii(r.category) && Ascii(r.action) && Ascii("\t")
  {
    hide Ascii;
    LettersAscii(EXACT);
    LettersAscii(SUFFIX);
    LettersAscii(BLOCK);
    LettersAscii("ads");
    LettersAscii("tracking");
    LettersAscii("telemetry");
    LettersAscii("nuisance");
    LettersAscii(UNKNOWN);
    TabAscii();
  }

  lemma LettersAscii(s: string)
    requires forall i :: 0 <= i < |s| ==> 'a' <= s[i] <= 'z'
    ensures Ascii(s)
  {
  }

  lemma TabAscii()
    ensures Ascii("\t")
  {
  }

  lemma FileAscii(env: Env, t: Table, rules: seq<Rule>)
    requires AsciiTable(env, t) && Lists(rules, t)
    ensures Ascii(Serialize(rules))
  {
    hide Body, CutDots, HasDoubleDot, Path;
    BodyAscii(rules);
    assert Ascii(HEADER);
  }

  // What comes back whole had fields the format can hold.
  lemma RestoredField(env: Env, t: Table, rules: seq<Rule>, k: Slot)
    requires EnvOk(env) && AsciiTable(env, t) && Lists(rules, t) && Restores(env, t, Serialize(rules)) && k in t
    ensures Cacheable(t[k]) && '\n' !in t[k].domain && '\n' !in t[k].sourceId
  {
    hide Serialize, Scan, Records, RecordsOf, Ingest, Normalize, ParseCacheV2Line, DropReturns, AsciiIdentity,
         Path, CutDots, HasDoubleDot;
    var lines := Scan(Serialize(rules)).value;
    FileAscii(env, t, rules);
    LinesRead(rules);
    IngestedFrom(env, Records(lines), k);
    var w :| w in Records(lines) && Normalize(env, w) == Some(ReOrigin(t[k]));
    RecordFrom(lines[1..], w);
    var line :| line in lines[1..] && ParseCacheV2Line(DropReturns(line)) == Some(w);
    assert line in lines;
    ReadFields(line, w);
    SourceKept(env, w, ReOrigin(t[k]));
    NoNewChars(env, w, ReOrigin(t[k]), '\t');
    NoNewChars(env, w, ReOrigin(t[k]), '\n');
  }

  lemma NoBreak(r: Rule)
    requires Stored(r) && '\n' !in r.domain && '\n' !in r.sourceId
    ensures '\n' !in Line(r)
  {
    assert '\n' !in r.scope && '\n' !in r.category && '\n' !in r.action;
  }

  lemma {:induction false} UnbrokenPieces(rules: seq<Rule>)
    requires forall r :: r in rules ==> '\n' !in Line(r)
    ensures Split(Body(rules), '\n') == LinesOf(rules) + [""] && forall r :: r in rules ==> Line(r) in LinesOf(rules)
  {
    hide Line;
    if rules != [] {
      assert rules[0] in rules && forall r :: r in rules[1..] ==> r in rules;
      UnbrokenPieces(rules[1..]);
      SplitCut(Line(rules[0]), Body(rules[1..]), '\n');
      assert Line(rules[0]) + "\n" + Body(rules[1..]) == Line(rules[0]) + ['\n'] + Body(rules[1..]);
      assert [Line(rules[0])] + (LinesOf(rules[1..]) + [""]) == LinesOf(rules) + [""];
    }
  }

  // A file of unbroken records is scanned only if each fits on a line.
  lemma ScannedFits(rules: seq<Rule>, r: Rule)
    requires (forall x :: x in rules ==> '\n' !in Line(x)) && Scan(Serialize(rules)).Some? && r in rules
    ensures OneLine(r)
  {
    hide Split, Line, Body, Scan, LinesOf;
    UnbrokenPieces(rules);
    assert '\n' !in HEADER;
    assert Serialize(rules) == HEADER + ['\n'] + Body(rules);
    SplitCut(HEADER, Body(rules), '\n');
    var lines := [HEADER] + LinesOf(rules);
    assert [HEADER] + (LinesOf(rules) + [""]) == lines + [""];
    assert Line(r) in lines;
    ScanBounds(Serialize(rules), lines, Line(r));
  }

  lemma ScanBounds(text: string, lines: seq<string>, p: string)
    requires Split(text, '\n') == lines + [""] && Scan(text).Some? && p in lines
    ensures |p| < MAX_LINE
  {
    hide Split;
    assert (lines + [""])[..|lines|] == lines;
  }

  // The condition under which a stored rule survives the file.
  ghost predicate Survives(r: Rule) {
    Cacheable(r) && OneLine(r) && TrimSpace(r.domain) == r.domain
  }

  // A trie built from ASCII rules with ASCII sources, written in any order, comes back from its file
  // exactly when every stored rule has a domain without surrounding white space, fields without tabs and
  // line breaks, a non-empty source that does not end in a carriage return, and fits on a line.
  lemma CacheRoundTripExactly(env: Env, rules: seq<Rule>, walk: seq<Rule>)
    requires EnvOk(env) && forall r :: r in rules ==> Ascii(r.domain) && Ascii(r.sourceId)
    requires Lists(walk, Ingest(env, map[], rules))
    ensures var t := Ingest(env, map[], rules);
            Restores(env, t, Serialize(walk)) <==> forall k :: k in t ==> Survives(t[k])
  {
    hide Ingest, Lists, Survives, Serialize, AsciiTable, Restores, EnvOk;
    IngestIsAscii(env, rules);
    TableRoundTripExactly(env, Ingest(env, map[], rules), walk);
  }

  lemma TableRoundTripExactly(env: Env, t: Table, rules: seq<Rule>)
    requires EnvOk(env) && AsciiTable(env, t) && Lists(rules, t)
    ensures Restores(env, t, Serialize(rules)) <==> forall k :: k in t ==> Survives(t[k])
  {
    hide Serialize, Scan, Records, Ingest, Kept, Stable, Cacheable, OneLine, TrimSpace, SlotOf, AsciiIdentity, Ascii;
    if forall k :: k in t ==> Survives(t[k]) {
      forall k | k in t
        ensures Stable(env, t[k])
      {
        KeptStable(env, t[k]);
      }
      CacheRoundTrip(env, t, rules);
    }
    if Restores(env, t, Serialize(rules)) {
      forall r | r in rules
        ensures Cacheable(r) && '\n' !in Line(r) && Stored(r)
      {
        RestoredField(env, t, rules, SlotOf(r));
        KeptIsStored(env, r);
        NoBreak(r);
      }
      forall r | r in rules
        ensures OneLine(r)
      {
        ScannedFits(rules, r);
      }
      RestoredIsTrimmed(env, t, rules);
    }
  }

  lemma KeptIsStored(env: Env, r: Rule)
    requires Kept(env, r)
    ensures Stored(r) && Kept(env, ReOrigin(r))
  {
  }

  lemma RestoredIsTrimmed(env: Env, t: Table, rules: seq<Rule>)
    requires EnvOk(env) && AsciiTable(env, t) && Lists(rules, t) && Restores(env, t, Serialize(rules))
    requires forall r :: r in rules ==> Stored(r) && Cacheable(r) && OneLine(r)
    ensures Trimmed(t)
  {
    hide Serialize, Scan, Records, Ingest, Kept, Cacheable, OneLine, TrimSpace, SlotOf, AsciiIdentity, Ascii, Stored,
         Placed, Lists;
    SerializeScans(rules);
    FileComesBack(rules);
    ReloadedLists(t, rules);
    forall k | k in Reloaded(t)
      ensures Kept(env, Reloaded(t)[k])
    {
      KeptIsStored(env, t[k]);
    }
    MergeExactly(env, Reloaded(t), ReOrigins(rules));
    forall k | k in t
      ensures TrimSpace(t[k].domain) == t[k].domain
    {
      assert k in Reloaded(t) && Reloaded(t)[k].domain == t[k].domain;
    }
  }
}
