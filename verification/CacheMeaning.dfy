/**
 The formats of the block-list caches, as text: the version 2 file, its records, and the older files that
 hold one domain a line.  internal/domaintrie/trie.go and internal/risk/adblock_io.go.
 */
module CacheMeaning {
  import opened Text
  import opened TrieRules
  import opened TrieCache

  /* ---------- Records ---------- */

  function Join(parts: seq<string>, sep: char): string {
    if parts == [] then "" else if |parts| == 1 then parts[0] else parts[0] + [sep] + Join(parts[1..], sep)
  }

  lemma {:induction false} SplitJoins(s: string, sep: char)
    ensures Join(Split(s, sep), sep) == s
  {
    hide Split;
    if s == "" {
      SplitNothing(sep);
    } else {
      SplitStep(s, sep);
      SplitJoins(s[1..], sep);
      var rest := Split(s[1..], sep);
      var parts := Split(s, sep);
      assert s == [s[0]] + s[1..];
      if s[0] == sep {
        assert parts[1..] == rest;
      } else if |rest| == 1 {
        assert parts == [[s[0]] + rest[0]];
      } else {
        assert parts[1..] == rest[1..];
      }
    }
  }

  // A line is a record exactly when it has five fields between tabs, in this order: a domain, a scope, a
  // category, the action and a source; and that is the rule it stands for.
  lemma RecordExactly(line: string, r: Rule)
    ensures ParseCacheV2Line(line) == Some(r) <==>
              && line == r.domain + "\t" + r.scope + "\t" + r.category + "\t" + r.action + "\t" + r.sourceId
              && r.domain != "" && '\t' !in r.domain && r.sourceId != "" && '\t' !in r.sourceId
              && r.scope in {"exact", "suffix"} && r.action == "block" && r.origin == CacheV2Unknown
              && r.category in {"ads", "tracking", "telemetry", "nuisance", "unknown"}
  {
    hide Split;
    SplitJoins(line, '\t');
    if ParseCacheV2Line(line) == Some(r) {
      FiveFields(Split(line, '\t'));
      assert r.domain in Split(line, '\t') && r.sourceId in Split(line, '\t');
    }
    Regroup(r);
    if Stored(r) && '\t' !in r.domain && '\t' !in r.sourceId {
      RecordFields(r.domain, r, r.sourceId);
      assert Split(r.sourceId, '\t') == [r.sourceId];
    }
  }

  lemma FiveFields(parts: seq<string>)
    requires |parts| == 5
    ensures Join(parts, '\t') == parts[0] + "\t" + parts[1] + "\t" + parts[2] + "\t" + parts[3] + "\t" + parts[4]
  {
    assert Join(parts[4..], '\t') == parts[4];
    assert parts[3..][1..] == parts[4..] && parts[2..][1..] == parts[3..] && parts[1..][1..] == parts[2..];
    assert Join(parts[3..], '\t') == parts[3] + ['\t'] + parts[4];
    assert Join(parts[2..], '\t') == parts[2] + ['\t'] + Join(parts[3..], '\t');
    assert Join(parts[1..], '\t') == parts[1] + ['\t'] + Join(parts[2..], '\t');
  }

  lemma Regroup(r: Rule)
    ensures r.domain + "\t" + (r.scope + "\t" + (r.category + "\t" + (r.action + "\t" + r.sourceId)))
            == r.domain + "\t" + r.scope + "\t" + r.category + "\t" + r.action + "\t" + r.sourceId
  {
  }

  /* ---------- Files ---------- */

  // The file is the version header and one record a line.
  lemma FileIs(rules: seq<Rule>, r: Rule)
    ensures Serialize([]) == "# safe-zone-adblock-cache-v2\n"
    ensures Serialize(rules + [r])
            == Serialize(rules) + r.domain + "\t" + r.scope + "\t" + r.category + "\t" + r.action + "\t" + r.sourceId + "\n"
  {
    hide Line;
    BodyAppend(rules, r);
    LineIs(r);
  }

  lemma LineIs(r: Rule)
    ensures Line(r) == r.domain + "\t" + r.scope + "\t" + r.category + "\t" + r.action + "\t" + r.sourceId
  {
    Regroup(r);
  }

  lemma {:induction false} BodyAppend(rules: seq<Rule>, r: Rule)
    ensures Body(rules + [r]) == Body(rules) + Line(r) + "\n"
  {
    hide Line;
    if rules == [] {
      assert rules + [r] == [r] && [r][1..] == [];
    } else {
      assert (rules + [r])[0] == rules[0] && (rules + [r])[1..] == rules[1..] + [r];
      BodyAppend(rules[1..], r);
    }
  }

  // The header on the first line makes a file version 2, of which malformed lines are skipped; without it
  // every line that is not blank is a domain, read as a suffix rule of unknown category.
  lemma FileMeans(first: string, lines: seq<string>)
    requires '\r' !in first
    ensures Records([]) == []
    ensures Records([first] + lines)
            == if "# safe-zone-adblock-cache-v2" <= first then RecordsOf(true, lines) else RecordsOf(false, [first] + lines)
  {
    hide RecordsOf, DropReturns;
    NoReturns(first);
    NoRecords();
    assert ([first] + lines)[1..] == lines;
  }

  lemma NoRecords()
    ensures RecordsOf(true, []) == [] && RecordsOf(false, []) == []
  {
  }

  lemma NoReturns(s: string)
    requires '\r' !in s
    ensures DropReturns(s) == s
  {
    assert s != "" ==> s[|s| - 1] in s;
  }

  lemma LinesMean(line: string, lines: seq<string>)
    requires '\r' !in line
    ensures RecordsOf(true, [line] + lines)
            == (if TrimSpace(line) == "" then []
                else match ParseCacheV2Line(line) case Some(rule) => [rule] case None => []) + RecordsOf(true, lines)
    ensures RecordsOf(false, [line] + lines)
            == (if TrimSpace(line) == "" then []
                else [Rule(TrimSpace(line), "suffix", "legacy-cache", "unknown", "block", LegacyCache)])
               + RecordsOf(false, lines)
  {
    hide DropReturns, TrimSpace, ParseCacheV2Line;
    NoReturns(line);
    assert ([line] + lines)[1..] == lines;
  }

  // The lines of a text: what is before a line break, without a carriage return, then the lines after it;
  // none at all when one of them is too long.
  lemma ScanIs(line: string, rest: string)
    requires '\n' !in line
    ensures Scan("") == Some([])
    ensures rest == "" && line != "" ==>
              Scan(line) == if |line| < 10_485_760 then Some([DropReturn(line)]) else None
    ensures Scan(line + "\n" + rest)
            == if |line| >= 10_485_760 then None
               else match Scan(rest) case None => None case Some(lines) => Some([DropReturn(line)] + lines)
  {
    hide Split, DropReturn;
    SplitNothing('\n');
    SplitCut(line, rest, '\n');
    assert line + "\n" + rest == line + ['\n'] + rest;
    var pieces := Split(rest, '\n');
    assert RawLines([line] + pieces) == [line] + RawLines(pieces);
    assert ([line] + RawLines(pieces))[1..] == RawLines(pieces);
    assert line in [line] + RawLines(pieces);
    assert forall p :: p in [line] + RawLines(pieces) <==> p == line || p in RawLines(pieces);
    if line != "" {
      OneLineOnly(line);
    }
  }

  lemma OneLineOnly(line: string)
    requires '\n' !in line && line != ""
    ensures Scan(line) == if |line| < 10_485_760 then Some([DropReturn(line)]) else None
  {
    hide Split, DropReturn;
    assert Split(line, '\n') == [line];
    assert RawLines([line]) == [line] && [line][1..] == [];
    assert DropAll([line]) == [DropReturn(line)];
    assert line in [line] && forall p :: p in [line] ==> p == line;
  }
}
