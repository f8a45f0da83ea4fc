/**
 What a rule means that is added to the trie of internal/domaintrie/trie.go, in terms of its fields as
 they are passed: when it is accepted, what is stored, and which queries it answers.
 */
module TrieMeaning {
  import opened Text
  import opened TrieRules
  import opened TrieTable

  function Clean(s: string): string {
    ToLower(TrimSpace(s))
  }

  predicate Wildcarded(rule: Rule) {
    "*." <= TrimSpace(rule.domain)
  }

  // What becomes of the fields other than the domain.
  lemma FieldsStored(env: Env, rule: Rule, r: Rule)
    requires Normalize(env, rule) == Some(r)
    ensures r.scope == if rule.scope == "exact" && !Wildcarded(rule) then "exact" else "suffix"
    ensures r.origin == if Wildcarded(rule) then Wildcard else rule.origin
    ensures r.category == if Clean(rule.category) in {"ads", "tracking", "telemetry", "nuisance"} then Clean(rule.category)
                          else "unknown"
    ensures r.sourceId == rule.sourceId && r.action == "block" && Clean(rule.action) in {"", "block"}
    ensures env.registrable(r.domain)
  {
    hide TrimSpace, ToLower, Sanitize, CutDots, Collapse, NormalizeDomain;
  }

  // A lower-case ASCII host name without wildcards.
  predicate PlainHost(name: string) {
    Host(name) && Ascii(name) && Lower(name) && forall c :: c in name ==> c != '*' && !IsSpace(c)
  }

  // A host name, in any case, alone, behind a wildcard or before a dot, is stored as that name exactly when
  // it is registrable and the action is none or a block.
  lemma HostIsStored(env: Env, rule: Rule, name: string)
    requires AsciiIdentity(env) && PlainHost(name) && Clean(rule.domain) in {name, "*." + name, name + "."}
    ensures Normalize(env, rule).Some? <==> env.registrable(name) && Clean(rule.action) in {"", "block"}
    ensures Normalize(env, rule).Some? ==> Normalize(env, rule).value.domain == name
  {
    hide TrimSpace, ToLower, Sanitize, CutDots, Collapse, Host, Ascii, Lower, HasDoubleDot;
    var clean := Clean(rule.domain);
    HostEnds(name);
    CleanHost(env, rule, name);
    SanitizedHost(name);
    assert TrimSpace(rule.domain) != "" by { ToLowerFacts(TrimSpace(rule.domain)); }
    assert NormalizeDomain(env, TrimSpace(rule.domain)) == clean;
    CutHost(name, Sanitize(clean));
  }

  // A name in another script is stored under its converted form.
  lemma ConvertedIsStored(env: Env, rule: Rule, name: string)
    requires PlainHost(name) && env.idna(Clean(rule.domain)) == Some(name) && Clean(rule.domain) != ""
    ensures Normalize(env, rule).Some? <==> env.registrable(name) && Clean(rule.action) in {"", "block"}
    ensures Normalize(env, rule).Some? ==> Normalize(env, rule).value.domain == name
  {
    hide TrimSpace, ToLower, Sanitize, CutDots, Collapse, Host, Ascii, Lower, HasDoubleDot;
    HostEnds(name);
    SanitizedHost(name);
    ToLowerFacts(TrimSpace(rule.domain));
    assert TrimSpace(TrimSpace(rule.domain)) == TrimSpace(rule.domain);
    CutHost(name, Sanitize(name));
  }

  lemma HostEnds(name: string)
    requires PlainHost(name)
    ensures name != "" && name[|name| - 1] != '.' && !HasDoubleDot(name) && '*' !in name
  {
  }

  lemma CleanHost(env: Env, rule: Rule, name: string)
    requires AsciiIdentity(env) && PlainHost(name) && Clean(rule.domain) in {name, "*." + name, name + "."}
    ensures NormalizeDomain(env, TrimSpace(rule.domain)) == Clean(rule.domain)
    ensures Clean(rule.domain) != ""
  {
    hide TrimSpace, ToLower, Host;
    var clean := Clean(rule.domain);
    HostEnds(name);
    assert |clean| >= |name| > 0;
    assert forall c :: c in clean ==> c in name || c == '*' || c == '.';
    ToLowerFacts(TrimSpace(rule.domain));
    assert TrimSpace(TrimSpace(rule.domain)) == TrimSpace(rule.domain);
    assert Ascii(clean) && Lower(clean);
  }

  lemma SanitizedHost(name: string)
    requires PlainHost(name)
    ensures Sanitize(name) == name && Sanitize("*." + name) == name && Sanitize(name + ".") == name + "."
  {
    hide Host, Ascii, Lower;
    StripsOne(name);
    assert '*' !in name && '*' !in name + ".";
  }

  lemma CutHost(name: string, s: string)
    requires name != "" && name[|name| - 1] != '.' && !HasDoubleDot(name) && s in {name, name + "."}
    ensures Collapse(CutDots(s)) == name
  {
    hide HasDoubleDot, Collapse;
    NoDoubleDots(name);
    if s == name + "." {
      assert s[..|s| - 1] == name;
      CutOneDot(s);
    }
  }

  // A name with a wildcard inside is refused.
  lemma InnerWildcardsAreRefused(env: Env, rule: Rule, rest: string)
    requires AsciiIdentity(env) && Ascii(rest) && '*' in rest && !("*." <= rest)
    requires Clean(rule.domain) in {rest, "*." + rest}
    ensures Normalize(env, rule) == None
  {
    hide TrimSpace, ToLower, CutDots, Collapse, Ascii;
    var clean := Clean(rule.domain);
    ToLowerFacts(TrimSpace(rule.domain));
    assert TrimSpace(TrimSpace(rule.domain)) == TrimSpace(rule.domain);
    assert Ascii(clean) by { AsciiStars(rest); }
    assert ("*." + rest)[2..] == rest;
    assert Sanitize(clean) == "";
  }

  lemma AsciiStars(s: string)
    requires Ascii(s)
    ensures Ascii("*." + s)
  {
  }

  // A rule behind a wildcard answers its name and every name below it, whatever scope was passed.
  lemma WildcardsAnswerBelow(env: Env, rule: Rule, r: Rule, domain: string)
    requires Normalize(env, rule) == Some(r) && Wildcarded(rule) && Host(r.domain) && Host(NormalizeDomain(env, domain))
    ensures var q := NormalizeDomain(env, domain);
            Best(Ingest(env, map[], [rule]), Path(q)) == if q == r.domain || IsSub(q, r.domain) then Some(r) else None
  {
    hide Ingest, Best, Path, NormalizeDomain, Normalize, Host, IsSub;
    FieldsStored(env, rule, r);
    OneRuleAnswersExactly(env, rule, r, domain);
  }

  // A rule of exact scope without a wildcard answers its own name only; one of any other scope answers
  // below it too.
  lemma ScopeDecides(env: Env, rule: Rule, r: Rule, domain: string)
    requires Normalize(env, rule) == Some(r) && !Wildcarded(rule) && Host(r.domain) && Host(NormalizeDomain(env, domain))
    ensures var q := NormalizeDomain(env, domain);
            Best(Ingest(env, map[], [rule]), Path(q))
            == if q == r.domain || (rule.scope != "exact" && IsSub(q, r.domain)) then Some(r) else None
  {
    hide Ingest, Best, Path, NormalizeDomain, Normalize, Host, IsSub;
    FieldsStored(env, rule, r);
    OneRuleAnswersExactly(env, rule, r, domain);
  }

  /* ---------- Many rules ---------- */

  // The label test a scan uses, for hosts: the name itself, or for a suffix rule a name above.
  lemma CoversIs(r: Rule, q: string)
    requires Host(r.domain) && Host(q) && (r.scope == EXACT || r.scope == SUFFIX)
    ensures Covers(r, Path(q)) <==> q == r.domain || (r.scope == "suffix" && IsSub(q, r.domain))
  {
    hide Path, Host, IsSub;
    PathPrefixIsSuffix(r.domain, q);
    HostPathNotEmpty(r.domain);
  }

  lemma {:induction false} AcceptedAt(env: Env, rules: seq<Rule>, j: nat) returns (k: nat)
    requires j < |rules| && Normalize(env, rules[j]).Some?
    ensures k < |Accepted(env, rules)| && Accepted(env, rules)[k] == Normalize(env, rules[j]).value
  {
    hide Normalize;
    if j == 0 {
      k := 0;
    } else {
      k := AcceptedAt(env, rules[1..], j - 1);
      if Normalize(env, rules[0]).Some? {
        k := k + 1;
      }
    }
  }

  predicate SameRule(a: Rule, b: Rule) {
    a.domain == b.domain && a.scope == b.scope
  }

  // The first accepted rule for a name and scope comes from the first rule that is stored as such.
  lemma {:induction false} FirstNormalized(env: Env, rules: seq<Rule>, i: nat) returns (k: nat)
    requires i < |Accepted(env, rules)|
    requires forall j :: 0 <= j < i ==> !SameRule(Accepted(env, rules)[j], Accepted(env, rules)[i])
    ensures k < |rules| && Normalize(env, rules[k]) == Some(Accepted(env, rules)[i])
    ensures forall j :: 0 <= j < k && Normalize(env, rules[j]).Some? ==>
              !SameRule(Normalize(env, rules[j]).value, Accepted(env, rules)[i])
  {
    hide Normalize, Accepted, SameRule;
    AcceptedStep(env, rules);
    var r := Accepted(env, rules)[i];
    var shift := if Normalize(env, rules[0]).Some? then 1 else 0;
    if i < shift {
      k := 0;
    } else {
      forall j | 0 <= j < i - shift
        ensures !SameRule(Accepted(env, rules[1..])[j], r)
      {
        assert Accepted(env, rules)[j + shift] == Accepted(env, rules[1..])[j];
      }
      var before := FirstNormalized(env, rules[1..], i - shift);
      k := before + 1;
      forall j | 0 <= j < k && Normalize(env, rules[j]).Some?
        ensures !SameRule(Normalize(env, rules[j]).value, r)
      {
        if j > 0 {
          assert rules[j] == rules[1..][j - 1];
        } else {
          assert Accepted(env, rules)[0] == Normalize(env, rules[0]).value;
        }
      }
    }
  }

  lemma AcceptedStep(env: Env, rules: seq<Rule>)
    ensures rules == [] ==> Accepted(env, rules) == []
    ensures rules != [] ==>
              Accepted(env, rules)
              == (match Normalize(env, rules[0]) case None => [] case Some(x) => [x]) + Accepted(env, rules[1..])
  {
    hide Normalize;
  }

  // Which of several rules answers a host: an accepted rule that covers it; an exact one if there is any,
  // else one with the longest name, and among rules for the same name the first that was added.
  lemma AnswerIs(env: Env, rules: seq<Rule>, q: string, r: Rule)
    requires Host(q) && Best(Ingest(env, map[], rules), Path(q)) == Some(r)
    requires forall x :: x in Accepted(env, rules) ==> Host(x.domain)
    ensures exists i :: 0 <= i < |rules| && Normalize(env, rules[i]) == Some(r)
                        && forall j :: 0 <= j < i && Normalize(env, rules[j]).Some? ==>
                             !SameRule(Normalize(env, rules[j]).value, r)
    ensures q == r.domain || (r.scope == "suffix" && IsSub(q, r.domain))
    ensures forall j :: 0 <= j < |rules| && Normalize(env, rules[j]).Some? ==>
              var x := Normalize(env, rules[j]).value;
              (q == x.domain || (x.scope == "suffix" && IsSub(q, x.domain))) ==>
                (x.scope == "exact" ==> r.scope == "exact") && (r.scope != "exact" ==> |x.domain| <= |r.domain|)
  {
    hide Ingest, Best, Path, Normalize, Host, IsSub, Covers, SlotOf;
    MatchIsScan(env, rules, Path(q));
    var accepted := Accepted(env, rules);
    var i: nat :| Answers(accepted, Path(q), i) && accepted[i] == r;
    assert accepted[i] in accepted;
    CoversIs(r, q);
    forall j | 0 <= j < i
      ensures !SameRule(accepted[j], accepted[i])
    {
      SameRuleCovers(accepted[j], accepted[i], Path(q));
    }
    var first := FirstNormalized(env, rules, i);
    forall j | 0 <= j < |rules| && Normalize(env, rules[j]).Some?
      ensures var x := Normalize(env, rules[j]).value;
              (q == x.domain || (x.scope == "suffix" && IsSub(q, x.domain))) ==>
                (x.scope == "exact" ==> r.scope == "exact") && (r.scope != "exact" ==> |x.domain| <= |r.domain|)
    {
      var x := Normalize(env, rules[j]).value;
      var k := AcceptedAt(env, rules, j);
      CoversIs(x, q);
      CoverPrefix(x, Path(q));
      CoverPrefix(r, Path(q));
      if Covers(x, Path(q)) && r.scope != EXACT {
        LongerPathLongerName(q, x, r);
      }
    }
  }

  lemma CoverPrefix(r: Rule, q: seq<string>)
    ensures Covers(r, q) ==> Path(r.domain) <= q
  {
    hide Path;
  }

  lemma SameRuleCovers(a: Rule, b: Rule, q: seq<string>)
    requires Covers(b, q)
    ensures SameRule(a, b) ==> Covers(a, q) && SlotOf(a) == SlotOf(b)
  {
    hide Path;
  }

  // Of two names at or above a host, the one with more labels is the longer.
  lemma LongerPathLongerName(q: string, a: Rule, b: Rule)
    requires Host(q) && Host(a.domain) && Host(b.domain) && |Path(a.domain)| <= |Path(b.domain)|
    requires Path(a.domain) <= Path(q) && Path(b.domain) <= Path(q)
    ensures |a.domain| <= |b.domain|
  {
    hide Path, Host, IsSub;
    NestedHosts(b.domain, a.domain, Path(q));
    NestedLonger(b.domain, a.domain);
  }

  lemma NestedLonger(a: string, b: string)
    ensures IsSub(a, b) ==> |b| < |a|
  {
  }
}
