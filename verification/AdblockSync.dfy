/**
 Ingestion and publication of block lists: internal/risk/adblock_io.go and adblock_sync.go.

 What the network, the disk and the clock do is a script the methods take as a parameter; a stream
 is its text together with whether reading it failed.
 */
module AdblockSync {
  import opened Text
  import opened TrieRules
  import opened TrieTable
  import opened DomainTrie
  import opened TrieCache

  datatype Stream = Stream(text: string, broken: bool)

  // bufio.Scanner over the stream: None when it ends with an error.
  function ReadLines(s: Stream): Option<seq<string>> {
    if s.broken then None else Scan(s.text)
  }

  // How the rules of one source are labelled.
  datatype Policy = Policy(sourceId: string, category: string, scope: string, origin: Origin)

  /* ---------- Decoding one source ---------- */

  function WordLength(s: string): (n: nat)
    ensures n <= |s| && (s != "" && !IsSpace(s[0]) ==> n > 0)
    ensures forall i :: 0 <= i < n ==> !IsSpace(s[i])
  {
    if s == "" || IsSpace(s[0]) then 0 else 1 + WordLength(s[1..])
  }

  // strings.Fields
  function Fields(s: string): (r: seq<string>)
    ensures forall f :: f in r ==> f != "" && forall c :: c in f ==> !IsSpace(c) && c in s
    decreases |s|
  {
    if s == "" then []
    else if IsSpace(s[0]) then Fields(s[1..])
    else var n := WordLength(s); [s[..n]] + Fields(s[n..])
  }

  datatype Marker = NoMarker | Start(name: string) | End

  // parseAdblockSectionMarker
  function SectionMarker(raw: string): Marker {
    var line := TrimSpace(raw);
    if !("#" <= line) then NoMarker
    else
      var fields := Fields(TrimSpace(line[1..]));
      if fields == [] then NoMarker
      else if fields[0] == "Start" then (if |fields| == 2 then Start(fields[1]) else NoMarker)
      else if fields[0] == "End" then End
      else NoMarker
  }

  function IndexOf(s: string, c: char): (i: int)
    ensures -1 <= i < |s|
    ensures i >= 0 ==> s[i] == c && c !in s[..i]
    ensures i < 0 ==> c !in s
  {
    if s == "" then -1
    else if s[0] == c then 0
    else var r := IndexOf(s[1..], c); if r < 0 then -1 else r + 1
  }

  // The part of a line before its comment.
  function Uncommented(raw: string): string {
    var line := TrimSpace(raw);
    var idx := IndexOf(line, '#');
    if idx >= 0 then TrimSpace(line[..idx]) else line
  }

  function SectionCategory(section: string, category: string): string {
    if section == "adaway.org" then "tracking"
    else if section == "hostsVN" then "ads"
    else if section == "minecraft-hosts" then "tracking"
    else category
  }

  predicate Reserved(domain: string) {
    domain == "" || domain == "localhost" || domain == "local" || domain == "broadcasthost"
  }

  function DomainRules(p: Policy, category: string, names: seq<string>): seq<Rule> {
    if names == [] then []
    else
      var domain := ToLower(names[0]);
      (if Reserved(domain) then [] else [Rule(domain, p.scope, p.sourceId, category, BLOCK, p.origin)])
      + DomainRules(p, category, names[1..])
  }

  // The rules of one line inside a section.  An address in first place is hosts-file syntax.
  function LineRules(isIP: string -> bool, p: Policy, section: string, raw: string): seq<Rule> {
    var parts := Fields(Uncommented(raw));
    if parts == [] then []
    else
      DomainRules(p, if section == "" then p.category else SectionCategory(section, p.category),
                  if isIP(parts[0]) then parts[1..] else parts)
  }

  function NextSection(section: string, raw: string): string {
    match SectionMarker(raw)
    case NoMarker => section
    case Start(name) => name
    case End => ""
  }

  // The rules a list adds, in order.
  function SourceRules(isIP: string -> bool, p: Policy, section: string, lines: seq<string>): seq<Rule>
    decreases |lines|
  {
    if lines == [] then []
    else
      (if SectionMarker(lines[0]) == NoMarker then LineRules(isIP, p, section, lines[0]) else [])
      + SourceRules(isIP, p, NextSection(section, lines[0]), lines[1..])
  }

  /* ---------- ASCII lists give stable rules ---------- */

  // Comments may hold anything.
  predicate AsciiList(lines: seq<string>) {
    forall l :: l in lines ==> Ascii(Uncommented(l))
  }

  lemma {:induction false} DomainRulesPlain(p: Policy, category: string, names: seq<string>)
    requires forall f :: f in names ==> Ascii(f) && forall c :: c in f ==> !IsSpace(c)
    ensures forall r :: r in DomainRules(p, category, names) ==> PlainRule(r) && r.sourceId == p.sourceId
  {
    if names != [] {
      assert names[0] in names && forall f :: f in names[1..] ==> f in names;
      LoweredFrom(names[0], ToLower(names[0]));
      DomainRulesPlain(p, category, names[1..]);
    }
  }

  lemma {:induction false} SourceRulesPlain(isIP: string -> bool, p: Policy, section: string, lines: seq<string>)
    requires AsciiList(lines)
    ensures forall r :: r in SourceRules(isIP, p, section, lines) ==> PlainRule(r) && r.sourceId == p.sourceId
    decreases |lines|
  {
    hide SectionMarker, NextSection, DomainRules, PlainRule, TrimSpace;
    if lines != [] {
      assert lines[0] in lines && forall l :: l in lines[1..] ==> l in lines;
      var parts := Fields(Uncommented(lines[0]));
      if parts != [] {
        assert forall f :: f in parts[1..] ==> f in parts;
        DomainRulesPlain(p, if section == "" then p.category else SectionCategory(section, p.category),
                         if isIP(parts[0]) then parts[1..] else parts);
      }
      SourceRulesPlain(isIP, p, NextSection(section, lines[0]), lines[1..]);
    }
  }

  /* ---------- Source-level atomicity ---------- */

  // parseAdblockSourceInto, for a stream that scans to its end.
  method ParseInto(staging: Trie, isIP: string -> bool, p: Policy, lines: seq<string>)
    requires staging.Valid()
    modifies staging, staging.shape.nodes.Values
    ensures staging.Valid() && staging.table == Ingest(staging.env, old(staging.table), SourceRules(isIP, p, "", lines))
    ensures staging.Grew()
  {
    hide Trie.Valid, SectionMarker, Fields, Uncommented, SectionCategory, Add, Adds, Ingest;
    ghost var before := staging.table;
    var section := "";
    var i := 0;
    assert lines[i..] == lines;
    while i < |lines|
      invariant 0 <= i <= |lines| && staging.Valid()
      invariant Ingest(staging.env, before, SourceRules(isIP, p, "", lines))
             == Ingest(staging.env, staging.table, SourceRules(isIP, p, section, lines[i..]))
      invariant staging.Grew()
    {
      var raw := lines[i];
      assert lines[i..] == [raw] + lines[i + 1..];
      i := i + 1;
      SourceStep(isIP, p, section, raw, lines[i..]);
      NothingFirst(SourceRules(isIP, p, NextSection(section, raw), lines[i..]));
      match SectionMarker(raw) {
        case Start(name) => section := name; continue;
        case End => section := ""; continue;
        case NoMarker =>
      }
      IngestConcat(staging.env, staging.table, LineRules(isIP, p, section, raw), SourceRules(isIP, p, section, lines[i..]));
      ParseLine(staging, isIP, p, section, raw);
    }
    IngestNothing(staging.env, staging.table);
    assert lines[|lines|..] == [];
  }

  lemma SourceStep(isIP: string -> bool, p: Policy, section: string, raw: string, rest: seq<string>)
    ensures SourceRules(isIP, p, section, [raw] + rest)
         == (if SectionMarker(raw) == NoMarker then LineRules(isIP, p, section, raw) else [])
            + SourceRules(isIP, p, NextSection(section, raw), rest)
    ensures SourceRules(isIP, p, section, []) == []
  {
  }

  method ParseLine(staging: Trie, isIP: string -> bool, p: Policy, section: string, raw: string)
    requires staging.Valid()
    modifies staging, staging.shape.nodes.Values
    ensures staging.Valid() && staging.table == Ingest(staging.env, old(staging.table), LineRules(isIP, p, section, raw))
    ensures staging.Grew()
  {
    hide Trie.Valid, Fields, Uncommented, SectionCategory, Add, Adds, ToLower, Ingest, Reserved;
    ghost var before := staging.table;
    var parts := Fields(Uncommented(raw));
    IngestNothing(staging.env, before);
    if parts == [] {
      return;
    }
    var category := if section == "" then p.category else SectionCategory(section, p.category);
    var names := if isIP(parts[0]) then parts[1..] else parts;
    var i := 0;
    assert names[i..] == names;
    while i < |names|
      invariant 0 <= i <= |names| && staging.Valid()
      invariant Ingest(staging.env, before, DomainRules(p, category, names))
             == Ingest(staging.env, staging.table, DomainRules(p, category, names[i..]))
      invariant staging.Grew()
    {
      assert names[i..] == [names[i]] + names[i + 1..];
      var domain := ToLower(names[i]);
      i := i + 1;
      DomainStep(p, category, names[i - 1], names[i..]);
      NothingFirst(DomainRules(p, category, names[i..]));
      if !Reserved(domain) {
        var rule := Rule(domain, p.scope, p.sourceId, category, BLOCK, p.origin);
        IngestOne(staging.env, staging.table, rule, DomainRules(p, category, names[i..]));
        var _ := staging.AddRule(rule);
      }
    }
    IngestNothing(staging.env, staging.table);
  }

  lemma DomainStep(p: Policy, category: string, name: string, rest: seq<string>)
    ensures DomainRules(p, category, [name] + rest)
         == (if Reserved(ToLower(name)) then []
             else [Rule(ToLower(name), p.scope, p.sourceId, category, BLOCK, p.origin)])
            + DomainRules(p, category, rest)
  {
  }

  lemma NothingFirst(rules: seq<Rule>)
    ensures [] + rules == rules
  {
  }

  lemma IngestOne(env: Env, t: Table, rule: Rule, rest: seq<Rule>)
    ensures Ingest(env, t, [rule] + rest) == Ingest(env, Add(env, t, rule), rest)
  {
    assert ([rule] + rest)[1..] == rest;
  }

  // parseAdblockSource: decodes into a staging trie and merges it, or does nothing.
  method ParseAdblockSource(trie: Trie, isIP: string -> bool, p: Policy, stream: Stream) returns (ok: bool)
    requires trie.Valid()
    modifies trie, trie.shape.nodes.Values
    ensures trie.Valid() && ok == ReadLines(stream).Some?
    ensures !ok ==> trie.table == old(trie.table) && trie.shape == old(trie.shape)
    ensures ok ==>
              var rules := SourceRules(isIP, p, "", ReadLines(stream).value);
              AllStable(trie.env, Ingest(trie.env, map[], rules)) ==>
                trie.table == Ingest(trie.env, old(trie.table), rules)
    ensures trie.Grew()
  {
    hide Trie.Valid, ReadLines, SourceRules, Ingest, AllStable, Lists;
    if ReadLines(stream) == None {
      return false;
    }
    var lines := ReadLines(stream).value;
    ghost var before, rules := trie.table, SourceRules(isIP, p, "", lines);
    var staging := new Trie(trie.env);
    ParseInto(staging, isIP, p, lines);
    var merged; ghost var walk;
    merged, walk := trie.MergeFrom(staging);
    if AllStable(trie.env, Ingest(trie.env, map[], rules)) {
      StagingIsTransparent(trie.env, before, rules, walk);
    }
    return true;
  }

  /* ---------- One source of a sync ---------- */

  // How far saveAdblockSourceCache gets besides decoding the body.
  datatype Save = NoTempFile | CloseFailed | CommitFailed(oldKept: bool) | Committed

  // A fetch: an error, a 304 or otherwise bodiless response, or a body.
  datatype Fetch = FetchFailed | NotModified | NoBody | Body(stream: Stream, save: Save)

  // A configured source, with what its fetches will return; the second fetch of a remote source is
  // made only after a 304 without a usable cache.
  datatype Source = Local(policy: Policy, content: Option<Stream>)
                  | Remote(policy: Policy, key: string, first: Fetch, second: Fetch)

  type Caches = map<string, Stream>

  function CachedLines(caches: Caches, key: string): Option<seq<string>> {
    if key in caches then ReadLines(caches[key]) else None
  }

  // The fetch whose result decides.
  function Decisive(caches: Caches, src: Source): Fetch
    requires src.Remote?
  {
    if src.first == NotModified && CachedLines(caches, src.key) == None then src.second else src.first
  }

  // The list a source contributes, or None when it fails.  A body that cannot be saved contributes
  // nothing, even when an old cache exists.
  function Contribution(caches: Caches, src: Source): Option<seq<string>> {
    match src
    case Local(p, content) => if content == None then None else ReadLines(content.value)
    case Remote(p, key, _, _) =>
      match Decisive(caches, src)
      case Body(stream, save) => if save == Committed then ReadLines(stream) else None
      case _ => CachedLines(caches, key)
  }

  // The body of a fetch arrived whole and its cache file is in place.
  predicate BodySaved(f: Fetch) {
    f.Body? && f.save == Committed && ReadLines(f.stream).Some?
  }

  // A remote source contributes a list exactly when it has a body that was read and saved, or no body
  // and a readable cache; and that list.
  lemma RemoteContributesExactly(caches: Caches, src: Source)
    requires src.Remote?
    ensures var f := Decisive(caches, src);
            Contribution(caches, src) == if BodySaved(f) then ReadLines(f.stream)
                                         else if f.Body? then None else CachedLines(caches, src.key)
    ensures CachedLines(caches, src.key).Some? ==>
              Decisive(caches, src) == src.first
              && (Contribution(caches, src).Some? <==> !src.first.Body? || BodySaved(src.first))
  {
  }

  // A body that arrives and cannot be saved, next to a readable cache: the cache stays readable, and
  // is not used.
  lemma UnsavedBodyBlocksCache(policy: Policy, stream: Stream, cached: Stream, second: Fetch)
    requires ReadLines(stream).Some? && ReadLines(cached).Some?
    ensures var (caches, src) := (map["k" := cached], Remote(policy, "k", Body(stream, CommitFailed(true)), second));
            && Contribution(caches, src) == None && CachesAfter(caches, src) == caches
            && Contribution(caches, src.(first := FetchFailed)) == CachedLines(caches, "k") == ReadLines(cached)
  {
  }

  // The per-source cache files afterwards.  A failed commit can leave the old file removed.
  function CachesAfter(caches: Caches, src: Source): Caches {
    if src.Remote? && Decisive(caches, src).Body? && ReadLines(Decisive(caches, src).stream) != None then
      match Decisive(caches, src).save
      case Committed => caches[src.key := Decisive(caches, src).stream]
      case CommitFailed(oldKept) => if oldKept then caches else caches - {src.key}
      case _ => caches
    else caches
  }

  // Rules of the sources that succeed, in configuration order.
  function SyncRules(isIP: string -> bool, caches: Caches, sources: seq<Source>): seq<Rule>
    decreases |sources|
  {
    if sources == [] then []
    else
      (match Contribution(caches, sources[0])
       case None => []
       case Some(lines) => SourceRules(isIP, sources[0].policy, "", lines))
      + SyncRules(isIP, CachesAfter(caches, sources[0]), sources[1..])
  }

  function Successes(caches: Caches, sources: seq<Source>): nat
    decreases |sources|
  {
    if sources == [] then 0
    else (if Contribution(caches, sources[0]) == None then 0 else 1)
         + Successes(CachesAfter(caches, sources[0]), sources[1..])
  }

  function CachesAfterAll(caches: Caches, sources: seq<Source>): Caches
    decreases |sources|
  {
    if sources == [] then caches else CachesAfterAll(CachesAfter(caches, sources[0]), sources[1..])
  }

  // Every list that is contributed is ASCII outside its comments.
  ghost predicate AsciiContributions(caches: Caches, sources: seq<Source>)
    decreases |sources|
  {
    sources == [] || (
      && (match Contribution(caches, sources[0])
          case None => true
          case Some(lines) => AsciiList(lines))
      && AsciiContributions(CachesAfter(caches, sources[0]), sources[1..]))
  }

  lemma {:induction false} SyncRulesStable(env: Env, isIP: string -> bool, caches: Caches, sources: seq<Source>)
    requires EnvOk(env) && AsciiContributions(caches, sources)
    ensures forall r :: r in SyncRules(isIP, caches, sources) ==> PlainRule(r)
    ensures AllStable(env, Ingest(env, map[], SyncRules(isIP, caches, sources)))
    decreases |sources|
  {
    hide Contribution, CachesAfter, SourceRules, PlainRule, Ingest, EnvOk, AllStable;
    if sources != [] {
      SyncRulesStable(env, isIP, CachesAfter(caches, sources[0]), sources[1..]);
      match Contribution(caches, sources[0]) {
        case None =>
        case Some(lines) => SourceRulesPlain(isIP, sources[0].policy, "", lines);
      }
    }
    assert AllStable(env, map[]) by { NothingIsStable(env); }
    PlainIngestStable(env, map[], SyncRules(isIP, caches, sources));
  }

  lemma NothingIsStable(env: Env)
    ensures AllStable(env, map[])
  {
  }

  /* ---------- The engine ---------- */

  // How saving the global cache ends: replaceFile removes the old file before it renames the new one.
  datatype CacheSave = Saved | OldKept | Lost

  // The global cache file afterwards, when the rules to save are t.
  ghost predicate CacheAfter(file: Option<Stream>, was: Option<Stream>, t: Table, save: CacheSave) {
    match save
    case Saved => SavedAs(file, t)
    case OldKept => file == was
    case Lost => file == None
  }

  class AdblockEngine {
    const env: Env
    const isIP: string -> bool
    var trie: Trie?
    var enabled: bool
    var caches: Caches
    var globalCache: Option<Stream>
    var okCount: int
    var lastSyncOK: bool

    ghost predicate Valid()
      reads this, trie, if trie == null then {} else trie.shape.nodes.Values
    {
      trie != null ==> trie.Valid() && trie.env == env
    }

    ghost function Rules(): Table
      reads this, trie
    {
      if trie == null then map[] else trie.table
    }

    constructor (env: Env, isIP: string -> bool)
      ensures Valid() && trie == null && Rules() == map[] && enabled && this.env == env && this.isIP == isIP
      ensures caches == map[] && globalCache == None
    {
      this.env, this.isIP := env, isIP;
      trie, enabled, caches, globalCache, okCount, lastSyncOK := null, true, map[], None, 0, false;
    }

    // The cache fallback: loadAdblockSourceCache.
    method LoadSourceCache(dst: Trie, src: Source) returns (ok: bool)
      requires dst.Valid() && src.Remote?
      modifies dst, dst.shape.nodes.Values
      ensures dst.Valid() && ok == CachedLines(caches, src.key).Some? && (!ok ==> dst.shape == old(dst.shape))
      ensures Ingested(dst.env, isIP, old(dst.table), dst.table, src, CachedLines(caches, src.key))
      ensures dst.Grew()
    {
      hide Trie.Valid, SourceRules, ReadLines, Ingest, AllStable;
      if src.key !in caches {
        return false;
      }
      ok := ParseAdblockSource(dst, isIP, src.policy, caches[src.key]);
    }

    // saveAdblockSourceCache: the rules are merged only once the cache file is in place.
    method SaveSourceCache(dst: Trie, src: Source, stream: Stream, save: Save) returns (ok: bool)
      requires dst.Valid() && src.Remote?
      modifies this`caches, dst, dst.shape.nodes.Values
      ensures dst.Valid() && ok == (save == Committed && ReadLines(stream).Some?)
      ensures Ingested(dst.env, isIP, old(dst.table), dst.table, src, if save == Committed then ReadLines(stream) else None)
      ensures caches == if ReadLines(stream) == None then old(caches)
                        else match save
                          case Committed => old(caches)[src.key := stream]
                          case CommitFailed(oldKept) => if oldKept then old(caches) else old(caches) - {src.key}
                          case _ => old(caches)
      ensures dst.Grew()
    {
      hide Trie.Valid, SourceRules, ReadLines, Ingest, AllStable;
      if save == NoTempFile || ReadLines(stream) == None || save == CloseFailed {
        return false;
      }
      if save.CommitFailed? {
        if !save.oldKept {
          caches := caches - {src.key};
        }
        return false;
      }
      caches := caches[src.key := stream];
      ok := ParseAdblockSource(dst, isIP, src.policy, stream);
    }

    // One turn of the sync loop.
    method SyncSource(dst: Trie, src: Source) returns (ok: bool)
      requires dst.Valid()
      modifies this`caches, dst, dst.shape.nodes.Values
      ensures dst.Valid() && ok == Contribution(old(caches), src).Some?
      ensures caches == CachesAfter(old(caches), src)
      ensures Ingested(dst.env, isIP, old(dst.table), dst.table, src, Contribution(old(caches), src))
      ensures dst.Grew()
    {
      hide Trie.Valid, SourceRules, ReadLines, Ingest, AllStable;
      match src
      case Local(p, content) =>
        if content == None {
          return false;
        }
        ok := ParseAdblockSource(dst, isIP, p, content.value);
      case Remote(p, key, first, second) =>
        var response := first;
        if first == NotModified {
          ok := LoadSourceCache(dst, src);
          if ok {
            return;
          }
          response := second;
        }
        if response.Body? {
          ok := SaveSourceCache(dst, src, response.stream, response.save);
          return;
        }
        ok := LoadSourceCache(dst, src);
    }

    // The loop of syncAdblockLists: every source in turn into a new trie.
    method BuildTrie(sources: seq<Source>) returns (newTrie: Trie, successCount: nat)
      modifies this`caches
      ensures fresh(newTrie) && newTrie.Valid() && newTrie.env == env
      ensures forall q :: q in newTrie.shape.nodes ==> fresh(newTrie.shape.nodes[q])
      ensures caches == CachesAfterAll(old(caches), sources)
      ensures successCount == Successes(old(caches), sources)
      ensures successCount == 0 ==> newTrie.table == map[]
      ensures EnvOk(env) && AsciiContributions(old(caches), sources) ==>
                newTrie.table == Ingest(env, map[], SyncRules(isIP, old(caches), sources))
    {
      hide Trie.Valid, Contribution, CachesAfter, SourceRules, Ingest, EnvOk, Ingested;
      newTrie := new Trie(env);
      successCount := 0;
      ghost var ascii := EnvOk(env) && AsciiContributions(caches, sources);
      var i := 0;
      assert sources[i..] == sources;
      while i < |sources|
        invariant 0 <= i <= |sources| && newTrie.Valid() && newTrie.env == env
        invariant fresh(newTrie) && forall q :: q in newTrie.shape.nodes ==> fresh(newTrie.shape.nodes[q])
        invariant CachesAfterAll(old(caches), sources) == CachesAfterAll(caches, sources[i..])
        invariant Successes(old(caches), sources) == successCount + Successes(caches, sources[i..])
        invariant successCount == 0 ==> newTrie.table == map[]
        invariant ascii ==> AsciiContributions(caches, sources[i..])
        invariant ascii ==> (Ingest(env, newTrie.table, SyncRules(isIP, caches, sources[i..]))
                             == Ingest(env, map[], SyncRules(isIP, old(caches), sources)))
      {
        assert sources[i..][0] == sources[i] && sources[i..][1..] == sources[i + 1..];
        ghost var before, was := newTrie.table, caches;
        var ok := SyncSource(newTrie, sources[i]);
        i := i + 1;
        if ok {
          successCount := successCount + 1;
        }
        IngestedFacts(env, isIP, before, newTrie.table, sources[i - 1], Contribution(was, sources[i - 1]),
                      SyncRules(isIP, caches, sources[i..]), ascii);
      }
      assert sources[i..] == [];
      IngestNothing(env, newTrie.table);
    }

    // syncAdblockLists
    method SyncAdblockLists(sources: seq<Source>, save: CacheSave)
      requires Valid()
      modifies this
      ensures Valid() && enabled == old(enabled)
      ensures caches == CachesAfterAll(old(caches), sources)
      ensures sources == [] ==> trie == old(trie) && lastSyncOK == old(lastSyncOK)
      // Some source succeeded: the new trie is published.
      ensures Successes(old(caches), sources) > 0 ==>
                && trie != null && fresh(trie) && okCount == Successes(old(caches), sources) && lastSyncOK
                && (EnvOk(env) && AsciiContributions(old(caches), sources) ==>
                      Rules() == Ingest(env, map[], SyncRules(isIP, old(caches), sources)))
                && CacheAfter(globalCache, old(globalCache), Rules(), save)
      // None did: the rules in force stay, or come back from the global cache if there are none.
      ensures Successes(old(caches), sources) == 0 ==> globalCache == old(globalCache)
      ensures Successes(old(caches), sources) == 0 && old(Rules()) != map[] ==>
                trie == old(trie) && Rules() == old(Rules()) && (sources != [] ==> !lastSyncOK)
      ensures Successes(old(caches), sources) == 0 && sources != [] && old(Rules()) == map[] ==>
                var cached := CacheTable(env, old(globalCache));
                if cached == map[] then trie == old(trie) && !lastSyncOK
                else lastSyncOK && trie != null && (AllStable(env, cached) ==> Rules() == cached)
    {
      hide Trie.Valid, Successes, SyncRules, CachesAfterAll, Ingest, EnvOk, AsciiContributions,
           CacheAfter, AllStable, CacheTable;
      NoSources(caches, sources);
      if sources == [] {
        return;
      }
      var currentCount := if trie == null then 0 else CountOf(trie);
      assert trie != null ==> forall n :: n in trie.shape.nodes.Values ==> n != this as object;
      var newTrie, successCount := BuildTrie(sources);
      if successCount > 0 {
        Publish(newTrie, successCount, save);
      } else if currentCount == 0 {
        FallBack(newTrie);
      } else {
        Retain();
      }
    }

    // The end of a sync with at least one successful source.
    method Publish(newTrie: Trie, successCount: nat, save: CacheSave)
      requires newTrie.Valid() && newTrie.env == env
      modifies this
      ensures Valid() && trie == newTrie && newTrie.table == old(newTrie.table) && lastSyncOK && okCount == successCount
      ensures enabled == old(enabled) && caches == old(caches)
      ensures CacheAfter(globalCache, old(globalCache), newTrie.table, save)
    {
      hide Trie.Valid, Printed;
      assert forall n :: n in newTrie.shape.nodes.Values ==> n != this as object;
      trie, okCount, lastSyncOK := newTrie, successCount, true;
      match save {
        case Saved =>
          var text := WriteToV2(newTrie);
          globalCache := Some(Stream(text, false));
        case OldKept =>
        case Lost => globalCache := None;
      }
    }

    // The end of a sync in which every source failed while no rules were in force.
    method FallBack(newTrie: Trie)
      requires Valid() && newTrie.Valid() && newTrie.env == env && newTrie.table == map[]
      requires trie != null ==> trie != newTrie && trie.shape.nodes.Values !! newTrie.shape.nodes.Values
      modifies this, newTrie, newTrie.shape.nodes.Values
      ensures Valid() && enabled == old(enabled) && caches == old(caches) && globalCache == old(globalCache)
      ensures var cached := CacheTable(env, globalCache);
              if cached == map[] then trie == old(trie) && !lastSyncOK
              else lastSyncOK && trie == newTrie && (AllStable(env, cached) ==> Rules() == cached)
    {
      hide Trie.Valid, AllStable, CacheTable;
      okCount := 0;
      var loaded := LoadCache(newTrie);
      assert forall n :: n in newTrie.shape.nodes.Values ==> n != this as object;
      assert trie != null ==> forall n :: n in trie.shape.nodes.Values ==> n != this as object;
      lastSyncOK := loaded;
      if loaded {
        assert CacheTable(env, globalCache) + map[] == CacheTable(env, globalCache);
        trie := newTrie;
      }
    }

    // The end of a sync in which every source failed: the rules in force stay.
    method Retain()
      requires Valid()
      modifies this`okCount, this`lastSyncOK
      ensures Valid() && Rules() == old(Rules()) && !lastSyncOK && okCount == 0
    {
      hide Trie.Valid;
      assert trie != null ==> forall n :: n in trie.shape.nodes.Values ==> n != this as object;
      okCount, lastSyncOK := 0, false;
    }

    function CountOf(t: Trie): (n: int)
      requires t.Valid()
      reads t, t.shape.nodes.Values
      ensures n == 0 <==> t.table == map[]
    {
      t.Count()
    }

    // loadAdblockCache
    method LoadCache(dst: Trie) returns (ok: bool)
      requires dst.Valid() && dst.env == env
      modifies dst, dst.shape.nodes.Values
      ensures dst.Valid() && ok == (CacheTable(env, globalCache) != map[])
      ensures ok && AllStable(env, CacheTable(env, globalCache)) ==>
                dst.table == CacheTable(env, globalCache) + old(dst.table)
    {
      hide Trie.Valid, Ingest, AllStable, Lists, Records;
      if globalCache == None || globalCache.value.broken {
        return false;
      }
      ghost var before := dst.table;
      ghost var walk;
      ok, walk := ParseAdblockCache(globalCache.value.text, dst);
      if ok && AllStable(env, CacheTable(env, globalCache)) {
        LoadedUnion(env, Records(Scan(globalCache.value.text).value), before, walk);
      }
    }

    // rebuildAdblockRules: a disabled engine drops its rules.
    method RebuildAdblockRules(sources: seq<Source>, save: CacheSave)
      requires Valid()
      modifies this
      ensures Valid() && enabled == old(enabled)
      ensures !enabled ==> Rules() == map[] && caches == old(caches) && globalCache == old(globalCache)
      ensures enabled && old(Rules()) != map[] && Successes(old(caches), sources) == 0 ==> Rules() == old(Rules())
      ensures enabled && Successes(old(caches), sources) > 0 && EnvOk(env) && AsciiContributions(old(caches), sources) ==>
                Rules() == Ingest(env, map[], SyncRules(isIP, old(caches), sources))
    {
      hide Trie.Valid, Successes, SyncRules, Ingest, EnvOk, AsciiContributions, CacheAfter, AllStable;
      if !enabled {
        trie := new Trie(env);
        return;
      }
      SyncAdblockLists(sources, save);
    }
  }

  lemma NoSources(caches: Caches, sources: seq<Source>)
    ensures sources == [] ==> Successes(caches, sources) == 0 && CachesAfterAll(caches, sources) == caches
  {
  }

  // The global cache file holds the table.
  ghost predicate SavedAs(file: Option<Stream>, t: Table) {
    file.Some? && !file.value.broken && Printed(t, file.value.text)
  }

  // A published table written to the global cache comes back whole after a restart in which every
  // source fails: all that is lost is why each rule carries its scope.
  lemma RestartRestores(env: Env, t: Table, file: Option<Stream>)
    requires Savable(env, t) && SavedAs(file, t)
    ensures CacheTable(env, file) == Reloaded(t) && AllStable(env, CacheTable(env, file))
  {
    hide Lists, InWalkOrder, Serialize, Scan, Records, Ingest, AllStable, Cacheable, OneLine;
    var walk :| InWalkOrder(t, walk) && Lists(walk, t) && file.value.text == Serialize(walk);
    CacheRoundTrip(env, t, walk);
    ReloadedStable(env, t);
  }

  /* ---------- Published rules survive a restart ---------- */

  // The form of the identifiers the engine gives its sources: a digest in hexadecimal.
  predicate DigestId(s: string) {
    |s| == 32 && forall c :: c in s ==> '0' <= c <= '9' || 'a' <= c <= 'f'
  }

  predicate Fits(r: Rule) {
    |Line(r)| < MAX_LINE
  }

  // Every record of the table fits on a line of the cache file.
  predicate AllFit(t: Table) {
    forall k :: k in t ==> Fits(t[k])
  }

  // The fields of what ASCII sources publish can be written and read back.
  ghost predicate PublishedFields(env: Env, t: Table) {
    Placed(t) && AllStable(env, t) && forall k :: k in t ==> Cacheable(t[k]) && '\n' !in Line(t[k])
  }

  lemma PlainCacheable(env: Env, rule: Rule, r: Rule)
    requires EnvOk(env) && PlainRule(rule) && DigestId(rule.sourceId) && Normalize(env, rule) == Some(r)
    ensures Cacheable(r) && '\n' !in Line(r)
  {
    hide TrimSpace, ToLower, Sanitize, Collapse, CutDots, HasDoubleDot, Line;
    StoredDomain(env, rule, r);
    NormalizedNotEmpty(env, rule);
    SourceKept(env, rule, r);
    assert r.sourceId[31] in r.sourceId;
    NoBreak(r);
  }

  lemma PublishedHasFields(env: Env, isIP: string -> bool, caches: Caches, sources: seq<Source>)
    requires EnvOk(env) && AsciiContributions(caches, sources)
    requires forall src :: src in sources ==> DigestId(src.policy.sourceId)
    ensures PublishedFields(env, Ingest(env, map[], SyncRules(isIP, caches, sources)))
  {
    hide Ingest, SyncRules, AllStable, Accepted, FirstIn, Normalize, PlainRule, Cacheable, Line, DigestId, Path,
         Contribution;
    var rules := SyncRules(isIP, caches, sources);
    var t := Ingest(env, map[], rules);
    SyncRulesStable(env, isIP, caches, sources);
    SyncSources(isIP, caches, sources);
    IngestPlaced(env, map[], rules);
    forall k | k in t
      ensures Cacheable(t[k]) && '\n' !in Line(t[k])
    {
      IngestedFrom(env, rules, k);
      var rule :| rule in rules && Normalize(env, rule) == Some(t[k]);
      PlainCacheable(env, rule, t[k]);
    }
  }

  // What ASCII sources publish comes back from its file, whatever the order of the records, exactly when
  // every record fits on a line.
  lemma PublishedComesBackExactly(env: Env, isIP: string -> bool, caches: Caches, sources: seq<Source>, walk: seq<Rule>)
    requires EnvOk(env) && AsciiContributions(caches, sources)
    requires forall src :: src in sources ==> DigestId(src.policy.sourceId)
    requires Lists(walk, Ingest(env, map[], SyncRules(isIP, caches, sources)))
    ensures var t := Ingest(env, map[], SyncRules(isIP, caches, sources));
            && (Restores(env, t, Serialize(walk)) <==> AllFit(t))
            && (Savable(env, t) <==> AllFit(t)) && (!AllFit(t) ==> Scan(Serialize(walk)) == None)
  {
    hide Ingest, SyncRules, EnvOk, AsciiContributions, DigestId, AllStable, Cacheable, Line, Scan, Serialize, Records,
         SlotOf;
    var t := Ingest(env, map[], SyncRules(isIP, caches, sources));
    PublishedHasFields(env, isIP, caches, sources);
    if AllFit(t) {
      CacheRoundTrip(env, t, walk);
    } else {
      LongRecordStops(t, walk);
    }
  }

  // One record that is too long makes the whole file unreadable.
  lemma LongRecordStops(t: Table, walk: seq<Rule>)
    requires Lists(walk, t) && !AllFit(t) && forall k :: k in t ==> '\n' !in Line(t[k])
    ensures Scan(Serialize(walk)) == None
  {
    hide Line, Scan, Serialize, SlotOf;
    var k :| k in t && !Fits(t[k]);
    assert t[k] in walk;
    forall r | r in walk
      ensures '\n' !in Line(r)
    {
      assert t[SlotOf(r)] == r;
    }
    if Scan(Serialize(walk)).Some? {
      ScannedFits(walk, t[k]);
    }
  }

  // So the saved file of a published table holds that table, or nothing.
  lemma SavedHolds(env: Env, t: Table, file: Option<Stream>)
    requires PublishedFields(env, t) && SavedAs(file, t)
    ensures CacheTable(env, file) == (if AllFit(t) then Reloaded(t) else map[])
    ensures AllStable(env, CacheTable(env, file))
  {
    hide Ingest, AllStable, Cacheable, Line, Scan, Serialize, Records, Lists, InWalkOrder, Reloaded;
    if AllFit(t) {
      RestartRestores(env, t, file);
    } else {
      var walk :| InWalkOrder(t, walk) && Lists(walk, t) && file.value.text == Serialize(walk);
      LongRecordStops(t, walk);
      NothingIsStable(env);
    }
  }

  lemma {:induction false} SyncSources(isIP: string -> bool, caches: Caches, sources: seq<Source>)
    requires AsciiContributions(caches, sources) && forall src :: src in sources ==> DigestId(src.policy.sourceId)
    ensures forall r :: r in SyncRules(isIP, caches, sources) ==> DigestId(r.sourceId)
    decreases |sources|
  {
    hide Contribution, CachesAfter, SourceRules, DigestId;
    if sources != [] {
      assert sources[0] in sources && forall src :: src in sources[1..] ==> src in sources;
      SyncSources(isIP, CachesAfter(caches, sources[0]), sources[1..]);
      match Contribution(caches, sources[0]) {
        case None =>
        case Some(lines) => SourceRulesPlain(isIP, sources[0].policy, "", lines);
      }
    }
  }

  /* ---------- A list line whose record does not fit ---------- */

  // A plain name that the scanner of the list accepts and whose cache record is too long.
  ghost predicate LongName(env: Env, isIP: string -> bool, name: string) {
    && Ascii(name) && Lower(name) && (forall c :: c in name ==> !IsSpace(c) && c != '#' && c != '*')
    && name == CutDots(name) && !HasDoubleDot(name) && env.registrable(name) && !isIP(name)
    && MAX_LINE - 49 <= |name| < MAX_LINE
  }

  // The rule of a list that consists of such a name.
  function LongRule(p: Policy, name: string): Rule {
    Rule(name, p.scope, p.sourceId, p.category, BLOCK, p.origin)
  }

  lemma LongNameIsRead(env: Env, isIP: string -> bool, p: Policy, name: string)
    requires LongName(env, isIP, name)
    ensures ReadLines(Stream(name, false)) == Some([name]) && AsciiList([name])
    ensures SourceRules(isIP, p, "", [name]) == [LongRule(p, name)]
  {
    hide Split, Scan, CutDots, HasDoubleDot, Ascii, Lower, Fields, DomainRules;
    assert name[0] in name && name[|name| - 1] in name;
    OneLineText(name);
    OneWord(name);
    assert TrimSpace(name) == name && !("#" <= name) && '#' !in name;
    assert Uncommented(name) == name && SectionMarker(name) == NoMarker;
    assert [name][1..] == [];
    OneName(p, name);
  }

  // A text without line breaks that is not too long is one line.
  lemma OneLineText(s: string)
    requires s != "" && '\n' !in s && s[|s| - 1] != '\r' && |s| < MAX_LINE
    ensures Scan(s) == Some([s])
  {
    hide Split;
    assert Split(s, '\n') == [s] && RawLines([s]) == [s];
    assert [s][1..] == [] && DropAll([s]) == [s];
  }

  lemma {:induction false} WholeWord(s: string)
    requires forall c :: c in s ==> !IsSpace(c)
    ensures WordLength(s) == |s|
  {
    if s != "" {
      assert s[0] in s;
      WholeWord(s[1..]);
    }
  }

  lemma OneWord(s: string)
    requires s != "" && forall c :: c in s ==> !IsSpace(c)
    ensures Fields(s) == [s]
  {
    WholeWord(s);
    assert s[0] in s && s[..|s|] == s && s[|s|..] == "";
  }

  lemma OneName(p: Policy, name: string)
    requires Lower(name) && |name| > 13
    ensures DomainRules(p, p.category, [name]) == [LongRule(p, name)]
  {
    ToLowerIdentity(name);
    assert [name][1..] == [];
  }

  // It is stored under its own name, with a record that does not fit.
  lemma LongRuleIsStored(env: Env, isIP: string -> bool, p: Policy, name: string) returns (r: Rule)
    requires EnvOk(env) && LongName(env, isIP, name) && DigestId(p.sourceId)
    ensures Normalize(env, LongRule(p, name)) == Some(r) && !Fits(r)
  {
    hide CutDots, TrimSpace, Sanitize, HasDoubleDot, ToLower, Collapse, Ascii;
    assert name[0] in name && name[|name| - 1] in name && '*' !in name;
    NormalizeAscii(env, name);
    ToLowerIdentity(name);
    NoDoubleDots(name);
    BlockIsPlain();
    StarredHasStar(name);
    r := Normalize(env, LongRule(p, name)).value;
    LongLine(r);
  }

  lemma LongLine(r: Rule)
    requires Stored(r) && |r.sourceId| == 32
    ensures |Line(r)| >= |r.domain| + 49
  {
  }

  // One such line in the first list, and the saved file is unreadable: a restart gets back no rule of
  // that list or of any other.
  lemma LongNameLosesAll(env: Env, isIP: string -> bool, caches: Caches, p: Policy, name: string, rest: seq<Source>,
                         file: Option<Stream>)
    requires EnvOk(env) && LongName(env, isIP, name) && DigestId(p.sourceId) && AsciiContributions(caches, rest)
    requires forall src :: src in rest ==> DigestId(src.policy.sourceId)
    ensures var sources := [Local(p, Some(Stream(name, false)))] + rest;
            var t := Ingest(env, map[], SyncRules(isIP, caches, sources));
            && Successes(caches, sources) > 0 && AsciiContributions(caches, sources) && t != map[] && !AllFit(t)
            && (SavedAs(file, t) ==> CacheTable(env, file) == map[])
  {
    hide Ingest, EnvOk, LongName, DigestId, Accepted, FirstIn, Normalize, SavedAs, CacheTable, PublishedFields,
         Reloaded, ReadLines, SourceRules, Fits, SlotOf, AsciiList;
    var first := Local(p, Some(Stream(name, false)));
    var sources := [first] + rest;
    assert sources[0] == first && sources[1..] == rest;
    LongNameIsRead(env, isIP, p, name);
    assert Contribution(caches, first) == Some([name]) && CachesAfter(caches, first) == caches;
    var rules := SyncRules(isIP, caches, sources);
    assert rules == [LongRule(p, name)] + SyncRules(isIP, caches, rest);
    var r := LongRuleIsStored(env, isIP, p, name);
    var t := Ingest(env, map[], rules);
    FirstIsIn(env, rules, r);
    if SavedAs(file, t) {
      assert AsciiContributions(caches, sources);
      PublishedHasFields(env, isIP, caches, sources);
      SavedHolds(env, t, file);
    }
  }

  lemma FirstIsIn(env: Env, rules: seq<Rule>, r: Rule)
    requires rules != [] && Normalize(env, rules[0]) == Some(r)
    ensures SlotOf(r) in Ingest(env, map[], rules) && Ingest(env, map[], rules)[SlotOf(r)] == r
  {
    hide Ingest, Normalize, SlotOf;
    IngestLookup(env, map[], rules, SlotOf(r));
    assert Accepted(env, rules) == [r] + Accepted(env, rules[1..]);
  }

  // There are such names: any path makes a name longer without changing whether it is registrable.
  lemma LongPath(env: Env, isIP: string -> bool) returns (name: string)
    ensures "a.com/" <= name && |name| == MAX_LINE - 1
    ensures env.registrable(name) && !isIP(name) ==> LongName(env, isIP, name)
  {
    name := "a.com/" + seq(MAX_LINE - 7, _ => 'x');
    assert forall c :: c in name ==> 'a' <= c <= 'z' || c == '.' || c == '/';
    assert forall i :: 0 <= i < |name| ==> (name[i] == '.' <==> i == 1);
  }

  // A sync that publishes, a restart, and a sync in which every source fails.  When the cache was saved
  // and every published record fits on a line, the rules in force are those published before, with
  // unknown origins; one longer record, and there are none.  When the old file was kept they are the
  // older ones it holds; when it was lost there are none.  Without rules the sync is reported as failed.
  method RestartAfterSync(engine: AdblockEngine, sources: seq<Source>, save: CacheSave, later: seq<Source>)
    returns (restarted: AdblockEngine)
    requires engine.Valid() && Successes(engine.caches, sources) > 0
    requires later != [] && Successes(CachesAfterAll(engine.caches, sources), later) == 0
    modifies engine
    ensures fresh(restarted) && restarted.Valid()
    ensures save == Saved && EnvOk(engine.env) && AsciiContributions(old(engine.caches), sources)
            && (forall src :: src in sources ==> DigestId(src.policy.sourceId)) ==>
              && engine.Rules() == Ingest(engine.env, map[], SyncRules(engine.isIP, old(engine.caches), sources))
              && restarted.Rules() == (if AllFit(engine.Rules()) then Reloaded(engine.Rules()) else map[])
              && (!AllFit(engine.Rules()) ==> !restarted.lastSyncOK)
    ensures save == OldKept && AllStable(engine.env, CacheTable(engine.env, old(engine.globalCache))) ==>
              restarted.Rules() == CacheTable(engine.env, old(engine.globalCache))
    ensures save == Lost ==> restarted.Rules() == map[] && !restarted.lastSyncOK
  {
    hide Trie.Valid, Successes, SyncRules, CachesAfterAll, Ingest, EnvOk, AsciiContributions, DigestId, SavedAs,
         PublishedFields, AllFit, Reloaded, AllStable, CacheTable;
    ghost var env, was := engine.env, engine.caches;
    engine.SyncAdblockLists(sources, save);
    if save == Saved && EnvOk(env) && AsciiContributions(was, sources)
       && forall src :: src in sources ==> DigestId(src.policy.sourceId) {
      PublishedHasFields(env, engine.isIP, was, sources);
      SavedHolds(env, engine.Rules(), engine.globalCache);
    }
    NoFileNoRules(env);
    restarted := new AdblockEngine(engine.env, engine.isIP);
    restarted.caches, restarted.globalCache := engine.caches, engine.globalCache;
    restarted.SyncAdblockLists(later, Saved);
  }

  lemma NoFileNoRules(env: Env)
    ensures CacheTable(env, None) == map[]
  {
  }

  lemma LoadedUnion(env: Env, rules: seq<Rule>, before: Table, walk: seq<Rule>)
    requires AllStable(env, Ingest(env, map[], rules)) && Lists(walk, Ingest(env, map[], rules))
    ensures Ingest(env, before, walk) == Ingest(env, map[], rules) + before
  {
    hide Ingest;
    assert Placed(map[]);
    IngestPlaced(env, map[], rules);
    MergeIsUnion(env, before, Ingest(env, map[], rules), walk);
  }

  // One source's effect on what remains to be ingested.
  lemma IngestedFacts(env: Env, isIP: string -> bool, before: Table, after: Table, src: Source,
                      lines: Option<seq<string>>, rest: seq<Rule>, ascii: bool)
    requires Ingested(env, isIP, before, after, src, lines)
    requires ascii ==> EnvOk(env) && (lines == None || AsciiList(lines.value))
    ensures lines == None ==> after == before
    ensures ascii ==>
              var added := if lines == None then [] else SourceRules(isIP, src.policy, "", lines.value);
              Ingest(env, after, rest) == Ingest(env, before, added + rest)
  {
    hide Ingest, SourceRules, EnvOk, PlainRule;
    if lines != None && ascii {
      var rules := SourceRules(isIP, src.policy, "", lines.value);
      SourceRulesPlain(isIP, src.policy, "", lines.value);
      NothingIsStable(env);
      PlainIngestStable(env, map[], rules);
      IngestConcat(env, before, rules, rest);
    } else {
      NothingFirst(rest);
    }
  }

  // What the global cache file holds, or nothing when it is missing or unreadable.
  function CacheTable(env: Env, file: Option<Stream>): Table {
    if file == None || ReadLines(file.value) == None then map[]
    else Ingest(env, map[], Records(ReadLines(file.value).value))
  }

  // A list that was contributed was ingested whole, and nothing was ingested otherwise.
  ghost predicate Ingested(env: Env, isIP: string -> bool, before: Table, after: Table, src: Source,
                           lines: Option<seq<string>>) {
    match lines
    case None => after == before
    case Some(ls) =>
      var rules := SourceRules(isIP, src.policy, "", ls);
      AllStable(env, Ingest(env, map[], rules)) ==> after == Ingest(env, before, rules)
  }
}
