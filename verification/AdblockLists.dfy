/**
 What a block list means, in terms of the words on its lines: which rules a line adds, what comments,
 addresses and section markers do to it.  internal/risk/adblock_io.go.
 */
module AdblockLists {
  import opened Text
  import opened TrieRules
  import opened TrieTable
  import opened TrieCache
  import opened AdblockSync

  /* ---------- Words and lines ---------- */

  predicate Word(s: string) {
    s != "" && forall c :: c in s ==> !IsSpace(c) && c != '#'
  }

  predicate Blank(s: string) {
    forall c :: c in s ==> IsSpace(c)
  }

  predicate Comment(s: string) {
    s == "" || s[0] == '#'
  }

  // Words, each with the white space before it; only the first may have none.
  predicate Gaps(words: seq<string>, gaps: seq<string>) {
    && |gaps| == |words| && (forall w :: w in words ==> Word(w)) && (forall g :: g in gaps ==> Blank(g))
    && forall i :: 0 < i < |gaps| ==> gaps[i] != ""
  }

  function Laid(words: seq<string>, gaps: seq<string>): string
    requires |gaps| == |words|
  {
    if words == [] then "" else gaps[0] + words[0] + Laid(words[1..], gaps[1..])
  }

  // A line: words, white space, a comment.
  function ALine(words: seq<string>, gaps: seq<string>, tail: string, comment: string): string
    requires |gaps| == |words|
  {
    Laid(words, gaps) + tail + comment
  }

  /* ---------- Fields ---------- */

  lemma {:induction false} FieldsSkip(gap: string, s: string)
    requires Blank(gap)
    ensures Fields(gap + s) == Fields(s)
  {
    if gap == "" {
      assert gap + s == s;
    } else {
      assert gap[0] in gap && (gap + s)[0] == gap[0] && (gap + s)[1..] == gap[1..] + s;
      FieldsSkip(gap[1..], s);
    }
  }

  lemma {:induction false} WordThen(w: string, s: string)
    requires (forall c :: c in w ==> !IsSpace(c)) && (s == "" || IsSpace(s[0]))
    ensures WordLength(w + s) == |w|
  {
    if w == "" {
      assert w + s == s;
    } else {
      assert w[0] in w && (w + s)[0] == w[0] && (w + s)[1..] == w[1..] + s;
      WordThen(w[1..], s);
    }
  }

  lemma FieldsOfWord(w: string, s: string)
    requires Word(w) && (s == "" || IsSpace(s[0]))
    ensures Fields(w + s) == [w] + Fields(s)
  {
    hide WordLength;
    WordThen(w, s);
    assert w[0] in w && (w + s)[0] == w[0];
    assert (w + s)[..|w|] == w && (w + s)[|w|..] == s;
  }

  // The fields of words laid out are the words.
  lemma {:induction false} FieldsLaid(words: seq<string>, gaps: seq<string>, tail: string)
    requires Gaps(words, gaps) && Blank(tail)
    ensures Fields(Laid(words, gaps) + tail) == words
  {
    hide Fields, Word;
    if words == [] {
      assert "" + tail == tail + "";
      FieldsSkip(tail, "");
      NoFields();
    } else {
      var rest := Laid(words[1..], gaps[1..]) + tail;
      assert words[0] in words && gaps[0] in gaps;
      assert forall i :: 0 < i < |gaps| ==> gaps[1..][i - 1] == gaps[i];
      FieldsLaid(words[1..], gaps[1..], tail);
      assert Laid(words, gaps) + tail == gaps[0] + (words[0] + rest);
      FieldsSkip(gaps[0], words[0] + rest);
      StartsBlank(words[1..], gaps[1..], tail);
      FieldsOfWord(words[0], rest);
    }
  }

  lemma NoFields()
    ensures Fields("") == []
  {
  }

  lemma StartsBlank(words: seq<string>, gaps: seq<string>, tail: string)
    requires Gaps(words, gaps) && Blank(tail) && (words != [] ==> gaps[0] != "")
    ensures var s := Laid(words, gaps) + tail; s == "" || IsSpace(s[0])
  {
    if words != [] {
      assert gaps[0] in gaps && gaps[0][0] in gaps[0];
      assert (Laid(words, gaps) + tail)[0] == gaps[0][0];
    } else {
      assert "" + tail == tail;
      assert tail != "" ==> tail[0] in tail;
    }
  }

  /* ---------- Trimming and comments ---------- */

  lemma {:induction false} FieldsTrimLeft(s: string)
    ensures Fields(TrimLeft(s)) == Fields(s)
  {
    if s != "" && IsSpace(s[0]) {
      FieldsTrimLeft(s[1..]);
    }
  }

  // White space at the end adds no field.
  lemma {:induction false} FieldsBlankEnd(s: string, c: char)
    requires IsSpace(c)
    ensures Fields(s + [c]) == Fields(s)
    decreases |s|
  {
    if s == "" {
      assert s + [c] == [c] && [c][1..] == "";
    } else if IsSpace(s[0]) {
      assert (s + [c])[0] == s[0] && (s + [c])[1..] == s[1..] + [c];
      FieldsBlankEnd(s[1..], c);
    } else {
      var n := WordLength(s);
      WordEnds(s, c);
      assert (s + [c])[0] == s[0] && (s + [c])[..n] == s[..n] && (s + [c])[n..] == s[n..] + [c];
      FieldsBlankEnd(s[n..], c);
    }
  }

  lemma {:induction false} WordEnds(s: string, c: char)
    requires IsSpace(c)
    ensures WordLength(s + [c]) == WordLength(s)
  {
    if s == "" {
      assert s + [c] == [c];
    } else {
      assert (s + [c])[0] == s[0] && (s + [c])[1..] == s[1..] + [c];
      WordEnds(s[1..], c);
    }
  }

  lemma {:induction false} FieldsTrimRight(s: string)
    ensures Fields(TrimRight(s)) == Fields(s)
    decreases |s|
  {
    hide Fields;
    if s != "" && IsSpace(s[|s| - 1]) {
      FieldsTrimRight(s[..|s| - 1]);
      FieldsBlankEnd(s[..|s| - 1], s[|s| - 1]);
      assert s == s[..|s| - 1] + [s[|s| - 1]];
    }
  }

  lemma FieldsTrimmed(s: string)
    ensures Fields(TrimSpace(s)) == Fields(s)
  {
    hide Fields, TrimLeft, TrimRight;
    FieldsTrimLeft(s);
    FieldsTrimRight(TrimLeft(s));
  }

  lemma {:induction false} TrimLeftKeeps(a: string, b: string)
    requires b != "" && !IsSpace(b[0])
    ensures TrimLeft(a + b) == TrimLeft(a) + b
  {
    if a == "" {
      assert a + b == b;
    } else {
      assert (a + b)[0] == a[0] && (a + b)[1..] == a[1..] + b;
      TrimLeftKeeps(a[1..], b);
    }
  }

  lemma {:induction false} TrimRightKeeps(a: string, b: string)
    requires b != "" && !IsSpace(b[0])
    ensures TrimRight(a + b) == a + TrimRight(b) && TrimRight(b) != "" && TrimRight(b)[0] == b[0]
    decreases |b|
  {
    if IsSpace(b[|b| - 1]) {
      assert |b| > 1;
      assert (a + b)[..|a + b| - 1] == a + b[..|b| - 1];
      TrimRightKeeps(a, b[..|b| - 1]);
    }
  }

  lemma {:induction false} IndexAt(a: string, b: string, c: char)
    requires c !in a && b != "" && b[0] == c
    ensures IndexOf(a + b, c) == |a|
  {
    if a == "" {
      assert a + b == b;
    } else {
      assert a[0] in a && (a + b)[0] == a[0] && (a + b)[1..] == a[1..] + b;
      IndexAt(a[1..], b, c);
    }
  }

  lemma HashStarts(s: string)
    ensures "#" <= s ==> s != "" && s[0] == '#' && '#' in s
  {
    if "#" <= s {
      assert s[0] == "#"[0];
    }
  }

  // The fields of a line are those before its comment.
  lemma UncommentedFields(text: string, comment: string)
    requires '#' !in text && Comment(comment)
    ensures Fields(Uncommented(text + comment)) == Fields(text)
  {
    hide Fields, TrimLeft, TrimRight, IndexOf;
    if comment == "" {
      assert text + comment == text;
      FieldsTrimmed(text);
      assert '#' !in TrimSpace(text);
    } else {
      var line := TrimLeft(text) + TrimRight(comment);
      TrimLeftKeeps(text, comment);
      TrimRightKeeps(TrimLeft(text), comment);
      assert TrimSpace(text + comment) == line;
      IndexAt(TrimLeft(text), TrimRight(comment), '#');
      assert line[..|TrimLeft(text)|] == TrimLeft(text);
      FieldsTrimmed(TrimLeft(text));
      FieldsTrimLeft(text);
    }
  }

  // A line that begins with a word is no section marker.
  lemma NoMarkerBeforeWord(text: string, comment: string)
    requires '#' !in text && Comment(comment) && Fields(text) != []
    ensures SectionMarker(text + comment) == NoMarker
  {
    hide Fields, TrimLeft, TrimRight;
    FieldsTrimLeft(text);
    NoFields();
    assert TrimLeft(text) != "";
    var line := TrimSpace(text + comment);
    if comment == "" {
      assert text + comment == text;
      assert '#' !in TrimSpace(text);
    } else {
      TrimLeftKeeps(text, comment);
      TrimRightKeeps(TrimLeft(text), comment);
      assert line[0] == TrimLeft(text)[0] && TrimLeft(text)[0] in text;
    }
    HashStarts(line);
  }

  /* ---------- What a line adds ---------- */

  // The names that become rules: lower-case, and not one of the names of the local host.
  function Kept(words: seq<string>): seq<string> {
    if words == [] then []
    else
      var name := ToLower(words[0]);
      (if name in {"localhost", "local", "broadcasthost"} then [] else [name]) + Kept(words[1..])
  }

  // A section with a documented purpose decides the category, any other leaves it to the source.
  function Category(section: string, p: Policy): string {
    match section
    case "adaway.org" => "tracking"
    case "minecraft-hosts" => "tracking"
    case "hostsVN" => "ads"
    case _ => p.category
  }

  // One block rule a name, labelled with the source and the category.
  function NameRules(p: Policy, category: string, names: seq<string>): seq<Rule> {
    seq(|names|, i requires 0 <= i < |names| => Rule(names[i], p.scope, p.sourceId, category, "block", p.origin))
  }

  lemma {:induction false} DomainRulesAre(p: Policy, category: string, words: seq<string>)
    requires forall w :: w in words ==> w != ""
    ensures DomainRules(p, category, words) == NameRules(p, category, Kept(words))
  {
    if words != [] {
      assert words[0] in words && forall w :: w in words[1..] ==> w in words;
      DomainRulesAre(p, category, words[1..]);
    }
  }

  lemma CategoryIs(section: string, p: Policy)
    ensures (if section == "" then p.category else SectionCategory(section, p.category)) == Category(section, p)
  {
  }

  lemma {:induction false} LaidHasNoHash(words: seq<string>, gaps: seq<string>)
    requires Gaps(words, gaps)
    ensures '#' !in Laid(words, gaps)
  {
    if words != [] {
      assert words[0] in words && gaps[0] in gaps;
      assert forall i :: 0 < i < |gaps| ==> gaps[1..][i - 1] == gaps[i];
      LaidHasNoHash(words[1..], gaps[1..]);
    }
  }

  // A line with words, wherever it stands and whatever comment follows, adds one rule for every name it
  // lists, in order; an address in front of the names is skipped.
  lemma LineAddsItsNames(isIP: string -> bool, p: Policy, section: string, words: seq<string>, gaps: seq<string>,
                         tail: string, comment: string, rest: seq<string>)
    requires words != [] && Gaps(words, gaps) && Blank(tail) && Comment(comment)
    ensures var names := if isIP(words[0]) then words[1..] else words;
            SourceRules(isIP, p, section, [ALine(words, gaps, tail, comment)] + rest)
            == NameRules(p, Category(section, p), Kept(names)) + SourceRules(isIP, p, section, rest)
  {
    hide Fields, Uncommented, SectionMarker, DomainRules, SectionCategory, Category, NameRules, Kept, Laid;
    var text := Laid(words, gaps) + tail;
    var line := ALine(words, gaps, tail, comment);
    assert line == text + comment;
    LaidHasNoHash(words, gaps);
    assert '#' !in text;
    FieldsLaid(words, gaps, tail);
    UncommentedFields(text, comment);
    NoMarkerBeforeWord(text, comment);
    SourceStep(isIP, p, section, line, rest);
    CategoryIs(section, p);
    assert forall w :: w in words[1..] ==> w in words;
    DomainRulesAre(p, Category(section, p), if isIP(words[0]) then words[1..] else words);
  }

  // So a hosts-file line adds what the line without its address adds.
  lemma AddressIsSkipped(isIP: string -> bool, p: Policy, section: string, address: string, words: seq<string>,
                         rest: seq<string>)
    requires Word(address) && isIP(address) && words != [] && !isIP(words[0]) && forall w :: w in words ==> Word(w)
    ensures var gaps := seq(|words|, _ => " ");
            SourceRules(isIP, p, section, [address + Laid(words, gaps)] + rest)
            == SourceRules(isIP, p, section, [Laid(words, gaps)] + rest)
  {
    hide SourceRules, NameRules, Kept, Category, Word;
    var gaps := seq(|words|, _ => " ");
    var all, lead := [address] + words, [""] + gaps;
    assert all[1..] == words && lead[1..] == gaps;
    assert Laid(all, lead) == address + Laid(words, gaps);
    assert forall g :: g in gaps ==> g == " ";
    assert ALine(all, lead, "", "") == address + Laid(words, gaps) && ALine(words, gaps, "", "") == Laid(words, gaps);
    LineAddsItsNames(isIP, p, section, all, lead, "", "", rest);
    LineAddsItsNames(isIP, p, section, words, gaps, "", "", rest);
  }

  /* ---------- Lines without words, and sections ---------- */

  // An empty line or a comment that is no marker adds nothing.
  lemma EmptyLineAddsNothing(isIP: string -> bool, p: Policy, section: string, gap: string, comment: string,
                             rest: seq<string>)
    requires Blank(gap) && Comment(comment) && SectionMarker(gap + comment) == NoMarker
    ensures SourceRules(isIP, p, section, [gap + comment] + rest) == SourceRules(isIP, p, section, rest)
  {
    hide Fields, Uncommented, SectionMarker, SectionCategory;
    FieldsSkip(gap, "");
    assert gap + "" == gap;
    NoFields();
    UncommentedFields(gap, comment);
    SourceStep(isIP, p, section, gap + comment, rest);
    assert [] + SourceRules(isIP, p, section, rest) == SourceRules(isIP, p, section, rest);
  }

  // A comment line is a marker exactly when it reads "Start" and one more word, or begins with "End".
  lemma MarkerExactly(gap: string, words: seq<string>, gaps: seq<string>, tail: string)
    requires Blank(gap) && Gaps(words, gaps) && Blank(tail)
    ensures SectionMarker(gap + "#" + Laid(words, gaps) + tail)
            == if |words| == 2 && words[0] == "Start" then Start(words[1])
               else if words != [] && words[0] == "End" then End
               else NoMarker
  {
    hide Fields, TrimLeft, TrimRight, Laid;
    var text := Laid(words, gaps) + tail;
    var raw := gap + "#" + Laid(words, gaps) + tail;
    assert raw == gap + ("#" + text);
    TrimLeftKeeps(gap, "#" + text);
    BlankTrims(gap);
    assert TrimLeft(raw) == "#" + text;
    TrimRightKeeps("", "#" + text);
    var line := TrimSpace(raw);
    assert line == TrimRight("#" + text) && "#" <= line by { assert "" + ("#" + text) == "#" + text; }
    TrimRightTail(text);
    FieldsTrimmed(line[1..]);
    FieldsTrimRight(text);
    FieldsLaid(words, gaps, tail);
  }

  lemma {:induction false} BlankTrims(gap: string)
    requires Blank(gap)
    ensures TrimLeft(gap) == ""
  {
    if gap != "" {
      assert gap[0] in gap;
      BlankTrims(gap[1..]);
    }
  }

  lemma {:induction false} TrimRightTail(text: string)
    ensures TrimRight("#" + text) == "#" + TrimRight(text)
    decreases |text|
  {
    var s := "#" + text;
    if text != "" && IsSpace(text[|text| - 1]) {
      assert s[|s| - 1] == text[|text| - 1] && s[..|s| - 1] == "#" + text[..|text| - 1];
      TrimRightTail(text[..|text| - 1]);
    }
  }

  // Lines without markers do not change the section.
  lemma {:induction false} RulesConcat(isIP: string -> bool, p: Policy, section: string, body: seq<string>, rest: seq<string>)
    requires forall l :: l in body ==> SectionMarker(l) == NoMarker
    ensures SourceRules(isIP, p, section, body + rest)
            == SourceRules(isIP, p, section, body) + SourceRules(isIP, p, section, rest)
    decreases |body|
  {
    hide SectionMarker, LineRules;
    if body == [] {
      assert body + rest == rest;
    } else {
      assert body[0] in body && forall l :: l in body[1..] ==> l in body;
      assert (body + rest)[0] == body[0] && (body + rest)[1..] == body[1..] + rest;
      RulesConcat(isIP, p, section, body[1..], rest);
    }
  }

  // A section lasts from its start marker to the next end marker: in between its name decides the
  // category, and what follows is read outside any section.
  lemma SectionLasts(isIP: string -> bool, p: Policy, before: string, start: string, name: string, body: seq<string>,
                     end: string, rest: seq<string>)
    requires SectionMarker(start) == Start(name) && SectionMarker(end) == End
    requires forall l :: l in body ==> SectionMarker(l) == NoMarker
    ensures SourceRules(isIP, p, before, [start] + body + [end] + rest)
            == SourceRules(isIP, p, name, body) + SourceRules(isIP, p, "", rest)
  {
    hide SectionMarker, LineRules;
    assert [start] + body + [end] + rest == [start] + (body + ([end] + rest));
    SourceStep(isIP, p, before, start, body + ([end] + rest));
    RulesConcat(isIP, p, name, body, [end] + rest);
    SourceStep(isIP, p, name, end, rest);
  }

  /* ---------- Sources ---------- */

  // The lines of a stream that was read to its end without an error.
  ghost predicate Read(stream: Stream, lines: seq<string>) {
    !stream.broken && Scan(stream.text) == Some(lines)
  }

  // A local source contributes its lines, or nothing when it cannot be opened or read to its end.
  lemma LocalContributesExactly(caches: Caches, src: Source, lines: seq<string>)
    requires src.Local?
    ensures Contribution(caches, src) == Some(lines) <==> src.content.Some? && Read(src.content.value, lines)
  {
    hide Scan;
  }

  // The fetch that decides for a remote source is the first, or after an answer "not modified" without a
  // readable cache the second.  A body counts when it was read to its end and saved; without a body the
  // cached lines do.
  lemma RemoteContributes(caches: Caches, src: Source, lines: seq<string>)
    requires src.Remote?
    ensures var cached := src.key in caches && exists former :: Read(caches[src.key], former);
            var f := if src.first == NotModified && !cached then src.second else src.first;
            Contribution(caches, src) == Some(lines) <==>
              if f.Body? then f.save == Committed && Read(f.stream, lines)
              else src.key in caches && Read(caches[src.key], lines)
  {
    hide Scan;
    if src.key in caches && !caches[src.key].broken && Scan(caches[src.key].text).Some? {
      assert Read(caches[src.key], Scan(caches[src.key].text).value);
    }
  }

  // Sources are taken in the order of the configuration, each with its own label, and each sees the cache
  // files the ones before it left.
  lemma SourcesInTurn(isIP: string -> bool, caches: Caches, src: Source, rest: seq<Source>)
    ensures SyncRules(isIP, caches, []) == [] && Successes(caches, []) == 0
    ensures SyncRules(isIP, caches, [src] + rest)
            == (match Contribution(caches, src)
                case None => []
                case Some(lines) => SourceRules(isIP, src.policy, "", lines))
               + SyncRules(isIP, CachesAfter(caches, src), rest)
    ensures Successes(caches, [src] + rest)
            == (if Contribution(caches, src).Some? then 1 else 0) + Successes(CachesAfter(caches, src), rest)
  {
    hide Contribution, SourceRules, CachesAfter;
    assert ([src] + rest)[1..] == rest;
  }

  // Where two sources list the same name with the same scope, the one configured first decides.
  lemma EarlierSourcesWin(env: Env, isIP: string -> bool, caches: Caches, src: Source, rest: seq<Source>, k: Slot)
    requires Contribution(caches, src).Some?
    requires k in Ingest(env, map[], SourceRules(isIP, src.policy, "", Contribution(caches, src).value))
    ensures var own := Ingest(env, map[], SourceRules(isIP, src.policy, "", Contribution(caches, src).value));
            var all := Ingest(env, map[], SyncRules(isIP, caches, [src] + rest));
            k in all && all[k] == own[k]
  {
    hide Contribution, SourceRules, CachesAfter, SyncRules, Ingest, Accepted, FirstIn;
    var rules := SourceRules(isIP, src.policy, "", Contribution(caches, src).value);
    var later := SyncRules(isIP, CachesAfter(caches, src), rest);
    SourcesInTurn(isIP, caches, src, rest);
    IngestConcat(env, map[], rules, later);
    IngestLookup(env, Ingest(env, map[], rules), later, k);
  }

  // A sync is published exactly when some source, in its turn, contributes a list.
  lemma {:induction false} PublishesExactly(caches: Caches, sources: seq<Source>)
    ensures Successes(caches, sources) > 0 <==>
              exists i :: 0 <= i < |sources| && Contribution(CachesAfterAll(caches, sources[..i]), sources[i]).Some?
    decreases |sources|
  {
    hide Contribution, CachesAfter;
    if sources != [] {
      var after := CachesAfter(caches, sources[0]);
      PublishesExactly(after, sources[1..]);
      assert sources[..0] == [] && CachesAfterAll(caches, sources[..0]) == caches;
      forall i | 0 < i < |sources|
        ensures CachesAfterAll(caches, sources[..i]) == CachesAfterAll(after, sources[1..][..i - 1])
      {
        assert sources[..i][1..] == sources[1..][..i - 1];
      }
      if Successes(after, sources[1..]) > 0 {
        var j :| 0 <= j < |sources[1..]|
              && Contribution(CachesAfterAll(after, sources[1..][..j]), sources[1..][j]).Some?;
        assert Contribution(CachesAfterAll(caches, sources[..j + 1]), sources[j + 1]).Some?;
      }
      if i :| 0 <= i < |sources| && Contribution(CachesAfterAll(caches, sources[..i]), sources[i]).Some? {
        if i > 0 {
          assert Contribution(CachesAfterAll(after, sources[1..][..i - 1]), sources[1..][i - 1]).Some?;
        }
      }
    }
  }
}
