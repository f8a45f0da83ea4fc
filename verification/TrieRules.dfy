/**
 Rules of the domain trie in internal/domaintrie/trie.go, seen as a flat table: how a rule is
 normalised before it is stored, which slot it takes, and which rule answers a query.

 IDNA conversion and the public-suffix test are parameters.  Theorems about ASCII rules assume of
 IDNA that on lower-case ASCII it either fails or returns its input (AsciiIdentity), the one about
 rules in any script that its results are lower-case, without white space and more than the input with
 other dots (IdnaPlain); nothing else is assumed of it.
 */
module TrieRules {
  import opened Text

  // Why a rule carries its scope; observation only.
  datatype Origin = Unspecified | GlobalDefault | SourcePolicyExact | SourcePolicySuffix | Wildcard
                  | LegacyAdd | CacheV2Unknown | LegacyCache

  datatype Rule = Rule(domain: string, scope: string, sourceId: string, category: string, action: string, origin: Origin)

  const EXACT := "exact"
  const SUFFIX := "suffix"
  const BLOCK := "block"
  const UNKNOWN := "unknown"

  predicate ValidCategory(category: string) {
    category in {"ads", "tracking", "telemetry", "nuisance", UNKNOWN}
  }

  // Lookups the code makes outside this package.
  datatype Env = Env(idna: string -> Option<string>, registrable: string -> bool)

  ghost predicate AsciiIdentity(env: Env) {
    forall s :: Ascii(s) && Lower(s) ==> env.idna(s) == None || env.idna(s) == Some(s)
  }

  /* ---------- Normalisation ---------- */

  // normalizeDomain
  function NormalizeDomain(env: Env, domain: string): string {
    var d := ToLower(TrimSpace(domain));
    if d == "" then ""
    else match env.idna(d)
      case None => d
      case Some(ascii) => ascii
  }

  // Strips every leading "*."
  function StripWildcards(domain: string): (r: string)
    ensures |r| <= |domain| && !("*." <= r)
    ensures forall c :: c in r ==> c in domain
    ensures !("*." <= domain) ==> r == domain
  {
    if "*." <= domain then StripWildcards(domain[2..]) else domain
  }

  lemma StarredHasStar(s: string)
    ensures "*." <= s ==> '*' in s
  {
    if "*." <= s {
      assert s[0] == '*';
    }
  }

  // sanitizeDomain
  function Sanitize(domain: string): (r: string)
    ensures |r| <= |domain| && '*' !in r
    ensures forall c :: c in r ==> c in domain
    ensures '*' !in domain ==> r == domain
  {
    var d := StripWildcards(domain);
    StarredHasStar(domain);
    if '*' in d then "" else d
  }

  // The form in which AddRule stores a rule, or None when it rejects it.
  function Normalize(env: Env, rule: Rule): (r: Option<Rule>)
    ensures r.Some? ==> r.value.scope == EXACT || r.value.scope == SUFFIX
  {
    var raw := TrimSpace(rule.domain);
    if raw == "" then None
    else
      var forcedSuffix := "*." <= raw;
      var sanitized := Sanitize(NormalizeDomain(env, raw));
      if sanitized == "" then None
      else
        var domain := Collapse(CutDots(sanitized));
        if !env.registrable(domain) then None
        else
          var scope := if !forcedSuffix && rule.scope == EXACT then EXACT else SUFFIX;
          var origin := if forcedSuffix then Wildcard else rule.origin;
          var lowered := ToLower(TrimSpace(rule.category));
          var category := if ValidCategory(lowered) then lowered else UNKNOWN;
          var action := ToLower(TrimSpace(rule.action));
          if action != "" && action != BLOCK then None
          else Some(Rule(domain, scope, rule.sourceId, category, BLOCK, origin))
  }

  // A stored rule that AddRule would store again unchanged.
  ghost predicate Stable(env: Env, r: Rule) {
    Normalize(env, r) == Some(r)
  }

  lemma CategoriesArePlain(category: string)
    requires ValidCategory(category)
    ensures ToLower(TrimSpace(category)) == category
  {
    assert category != "" && !IsSpace(category[0]) && !IsSpace(category[|category| - 1]);
    assert Lower(category);
    ToLowerIdentity(category);
  }

  lemma BlockIsPlain()
    ensures ToLower(TrimSpace(BLOCK)) == BLOCK
  {
    assert !IsSpace(BLOCK[0]) && !IsSpace(BLOCK[4]);
    ToLowerIdentity(BLOCK);
  }

  // On ASCII the IDNA step changes nothing.
  lemma NormalizeAscii(env: Env, raw: string)
    requires AsciiIdentity(env) && Ascii(raw)
    ensures NormalizeDomain(env, raw) == ToLower(TrimSpace(raw))
  {
    hide ToLower, TrimSpace;
    ToLowerFacts(TrimSpace(raw));
  }

  lemma LoweredFrom(raw: string, s: string)
    requires forall c :: c in s ==> c in ToLower(raw)
    ensures Lower(s) && (Ascii(raw) ==> Ascii(s))
    ensures (forall c :: c in raw ==> !IsSpace(c)) ==> forall c :: c in s ==> !IsSpace(c)
  {
    forall c | c in s
      ensures exists d :: d in raw && c == LowerChar(d)
    {
      var i :| 0 <= i < |raw| && ToLower(raw)[i] == c;
      assert raw[i] in raw;
    }
  }

  // What normalising leaves in the domain of an ASCII rule.
  lemma StoredDomain(env: Env, rule: Rule, r: Rule)
    requires AsciiIdentity(env) && Ascii(rule.domain) && Normalize(env, rule) == Some(r)
    ensures Ascii(r.domain) && Lower(r.domain) && '*' !in r.domain && r.domain == CutDots(r.domain)
    ensures !HasDoubleDot(r.domain) && env.registrable(r.domain)
    ensures (forall c :: c in rule.domain ==> !IsSpace(c)) ==> forall c :: c in r.domain ==> !IsSpace(c)
  {
    hide ToLower, TrimSpace, Sanitize, Collapse, CutDots, HasDoubleDot;
    var trimmed := TrimSpace(TrimSpace(rule.domain));
    NormalizeAscii(env, TrimSpace(rule.domain));
    var cut := CutDots(Sanitize(ToLower(trimmed)));
    assert forall c :: c in cut ==> c in Sanitize(ToLower(trimmed));
    LoweredFrom(trimmed, r.domain);
  }

  // Normalising adds no character but lower-case letters.
  lemma NoNewChars(env: Env, rule: Rule, r: Rule, c: char)
    requires AsciiIdentity(env) && Ascii(rule.domain) && Normalize(env, rule) == Some(r)
    requires c !in rule.domain && !('a' <= c <= 'z')
    ensures c !in r.domain
  {
    hide ToLower, TrimSpace, Sanitize, Collapse, CutDots;
    var trimmed := TrimSpace(TrimSpace(rule.domain));
    NormalizeAscii(env, TrimSpace(rule.domain));
    var cut := CutDots(Sanitize(ToLower(trimmed)));
    assert forall x :: x in cut ==> x in Sanitize(ToLower(trimmed));
    NotLowered(trimmed, c);
  }

  lemma NotLowered(s: string, c: char)
    requires c !in s && !('a' <= c <= 'z')
    ensures c !in ToLower(s)
  {
    forall i | 0 <= i < |s|
      ensures ToLower(s)[i] != c
    {
      assert s[i] in s;
    }
  }

  // What every stored ASCII rule looks like; the origin plays no part.
  predicate Kept(env: Env, r: Rule) {
    && r.domain != "" && Ascii(r.domain) && Lower(r.domain) && '*' !in r.domain
    && r.domain == CutDots(r.domain) && !HasDoubleDot(r.domain) && env.registrable(r.domain)
    && (r.scope == EXACT || r.scope == SUFFIX) && ValidCategory(r.category) && r.action == BLOCK
  }

  lemma StoredIsKept(env: Env, rule: Rule, r: Rule)
    requires AsciiIdentity(env) && Ascii(rule.domain) && Normalize(env, rule) == Some(r) && r.domain != ""
    ensures Kept(env, r)
  {
    hide ToLower, TrimSpace, Sanitize, Collapse, CutDots, HasDoubleDot;
    StoredDomain(env, rule, r);
  }

  // Adding a stored ASCII rule again stores it unchanged exactly when no white space surrounds its
  // domain; a wildcard prefix or trailing dots next to a blank can leave some there.
  lemma KeptStable(env: Env, r: Rule)
    requires AsciiIdentity(env) && Kept(env, r)
    ensures Stable(env, r) <==> TrimSpace(r.domain) == r.domain
  {
    hide ToLower, TrimSpace, Sanitize, CutDots, HasDoubleDot;
    CategoriesArePlain(r.category);
    BlockIsPlain();
    var raw := TrimSpace(r.domain);
    NormalizeAscii(env, raw);
    if raw == r.domain {
      ToLowerIdentity(raw);
      StarredHasStar(raw);
    }
  }

  // Otherwise it is stored under a shorter name, or refused.
  lemma UnstableShrinks(env: Env, r: Rule, again: Rule)
    requires AsciiIdentity(env) && Kept(env, r) && TrimSpace(r.domain) != r.domain && Normalize(env, r) == Some(again)
    ensures |again.domain| < |r.domain|
  {
    hide ToLower, TrimSpace, Sanitize, CutDots, HasDoubleDot, Collapse;
    NormalizeAscii(env, TrimSpace(r.domain));
  }

  lemma StableExactly(env: Env, rule: Rule, r: Rule)
    requires AsciiIdentity(env) && Ascii(rule.domain) && Normalize(env, rule) == Some(r) && r.domain != ""
    ensures Stable(env, r) <==> TrimSpace(r.domain) == r.domain
  {
    hide Normalize, Stable, TrimSpace, Kept;
    StoredIsKept(env, rule, r);
    KeptStable(env, r);
  }

  // In any script, when AddRule would store a stored rule again unchanged: when its domain is the one
  // queries are normalised to.
  ghost predicate IdnaPlain(env: Env) {
    forall s, a :: env.idna(s) == Some(a) ==>
      Lower(a) && (forall c :: c in a ==> !IsSpace(c)) && (Collapse(CutDots(Sanitize(a))) == s ==> a == s)
  }

  lemma StableInAnyScript(env: Env, rule: Rule, r: Rule)
    requires IdnaPlain(env) && Normalize(env, rule) == Some(r) && r.domain != ""
    ensures Stable(env, r) <==> NormalizeDomain(env, r.domain) == r.domain
  {
    hide ToLower, TrimSpace, Sanitize, CutDots, Collapse, Lower;
    StoredShape(env, rule, r);
    BlockIsPlain();
    CategoriesArePlain(r.category);
    TrimmedAgain(env, r.domain);
    StarredHasStar(TrimSpace(r.domain));
    var n := NormalizeDomain(env, r.domain);
    if n == r.domain {
      NoDoubleDots(n);
    }
    if Collapse(CutDots(Sanitize(n))) == r.domain {
      OnlyWholeComesBack(env, r.domain);
    }
  }

  // The domain of a stored rule holds no wildcard and no trailing or double dot, whatever IDNA does.
  lemma StoredShape(env: Env, rule: Rule, r: Rule)
    requires Normalize(env, rule) == Some(r) && r.domain != ""
    ensures '*' !in r.domain && CutDots(r.domain) == r.domain && !HasDoubleDot(r.domain) && env.registrable(r.domain)
    ensures (r.scope == EXACT || r.scope == SUFFIX) && ValidCategory(r.category) && r.action == BLOCK
  {
    hide ToLower, TrimSpace, Sanitize, CutDots, Collapse, HasDoubleDot;
    var sanitized := Sanitize(NormalizeDomain(env, TrimSpace(rule.domain)));
    var cut := CutDots(sanitized);
    assert forall c :: c in cut ==> c in sanitized;
  }

  lemma TrimmedAgain(env: Env, domain: string)
    ensures NormalizeDomain(env, TrimSpace(domain)) == NormalizeDomain(env, domain)
  {
    hide TrimSpace, ToLower;
  }

  // When sanitising the normalised form gives the domain, the two are the same.
  lemma OnlyWholeComesBack(env: Env, domain: string)
    requires IdnaPlain(env) && domain != ""
    requires Collapse(CutDots(Sanitize(NormalizeDomain(env, domain)))) == domain
    ensures NormalizeDomain(env, domain) == domain
  {
    hide ToLower, TrimSpace, Sanitize, CutDots, Collapse, Lower;
    var n := NormalizeDomain(env, domain);
    var low := ToLower(TrimSpace(domain));
    var cut := CutDots(Sanitize(n));
    assert forall c :: c in cut ==> c in n;
    if env.idna(low).Some? {
      assert forall c :: c in domain ==> c in n;
      assert domain[0] in domain && domain[|domain| - 1] in domain;
      assert Lower(domain) by { LowerPart(n, domain); }
      ToLowerIdentity(domain);
    } else {
      NothingShortened(n);
    }
  }

  lemma LowerPart(s: string, part: string)
    requires Lower(s) && forall c :: c in part ==> c in s
    ensures Lower(part)
  {
  }

  // Each step that shortens nothing changes nothing.
  lemma NothingShortened(s: string)
    ensures |Collapse(CutDots(Sanitize(s)))| >= |s| ==> Collapse(CutDots(Sanitize(s))) == s
  {
    hide Sanitize, CutDots;
    var cut := CutDots(Sanitize(s));
    if |Collapse(cut)| >= |s| {
      assert '*' in s ==> |Sanitize(s)| < |s| by { StarsShorten(s); }
      CollapseShortens(cut);
    }
  }

  lemma StarsShorten(s: string)
    ensures '*' in s ==> |Sanitize(s)| < |s|
  {
  }

  lemma CollapseShortens(s: string)
    ensures Collapse(s) == s || |Collapse(s)| < |s|
  {
    HalveDotsShrinks(s);
  }

  // An international name behind a wildcard: IDNA refuses the entry as a whole because of the "*", so
  // the name is stored as it stands, although queries for it are converted.
  lemma WildcardSkipsIdna(env: Env, sourceId: string)
    requires env.idna("*.\U{fc}.b") == None && env.idna("\U{fc}.b") == Some("xn--tda.b") && env.registrable("\U{fc}.b")
    ensures var (rule, stored) := (Rule("*.\U{fc}.b", SUFFIX, sourceId, UNKNOWN, BLOCK, GlobalDefault),
                                   Rule("\U{fc}.b", SUFFIX, sourceId, UNKNOWN, BLOCK, Wildcard));
            Normalize(env, rule) == Some(stored) && NormalizeDomain(env, stored.domain) == "xn--tda.b"
  {
    hide ToLower, TrimSpace, CutDots, Sanitize, Collapse;
    ToLowerIdentity("*.\U{fc}.b");
    ToLowerIdentity("\U{fc}.b");
    BlockIsPlain();
    CategoriesArePlain(UNKNOWN);
    StripsOne("\U{fc}.b");
    assert "*.\U{fc}.b" == "*." + "\U{fc}.b";
    NoDoubleDots("\U{fc}.b");
  }

  lemma StripsOne(s: string)
    requires '*' !in s
    ensures Sanitize("*." + s) == s
  {
    StarredHasStar(s);
    assert ("*." + s)[2..] == s;
  }

  lemma PlainRulesAreStable(env: Env, rule: Rule, r: Rule)
    requires AsciiIdentity(env) && Ascii(rule.domain) && Normalize(env, rule) == Some(r) && r.domain != ""
    requires forall c :: c in rule.domain ==> !IsSpace(c)
    ensures Stable(env, r)
  {
    hide Normalize, TrimSpace, Stable;
    StoredDomain(env, rule, r);
    assert r.domain[0] in r.domain && r.domain[|r.domain| - 1] in r.domain;
    StableExactly(env, rule, r);
  }

  // How the entry "*. a.b" is stored, and how what is stored would be stored again.
  lemma BlankAfterWildcardIsUnstable(env: Env, sourceId: string, origin: Origin)
    requires AsciiIdentity(env) && env.registrable(" a.b") && env.registrable("a.b")
    ensures var (rule, stored) := (Rule("*. a.b", SUFFIX, sourceId, UNKNOWN, BLOCK, origin),
                                   Rule(" a.b", SUFFIX, sourceId, UNKNOWN, BLOCK, Wildcard));
            Normalize(env, rule) == Some(stored) && Normalize(env, stored) == Some(stored.(domain := "a.b"))
  {
    hide ToLower, TrimSpace, CutDots, AsciiIdentity, Sanitize, HasDoubleDot, Collapse;
    NormalizeAscii(env, "*. a.b");
    NormalizeAscii(env, "a.b");
    ToLowerIdentity("*. a.b");
    ToLowerIdentity("a.b");
    BlockIsPlain();
    CategoriesArePlain(UNKNOWN);
    StripsToBlank();
  }

  lemma BlankBeforeDotIsUnstable(env: Env)
    requires AsciiIdentity(env) && env.registrable("a.b ")
    ensures var rule := Rule("a.b .", SUFFIX, "s", UNKNOWN, BLOCK, GlobalDefault);
            Normalize(env, rule).Some? && !Stable(env, Normalize(env, rule).value)
  {
    hide ToLower, TrimSpace, Stable, AsciiIdentity, Sanitize, HasDoubleDot, CutDots, Collapse;
    var rule := Rule("a.b .", SUFFIX, "s", UNKNOWN, BLOCK, GlobalDefault);
    NormalizeAscii(env, "a.b .");
    ToLowerIdentity("a.b .");
    BlockIsPlain();
    CutsToBlank();
    StableExactly(env, rule, Normalize(env, rule).value);
  }

  lemma CutsToBlank()
    ensures Sanitize("a.b .") == "a.b ." && CutDots("a.b .") == "a.b " && Collapse("a.b ") == "a.b "
  {
    hide CutDots, Collapse, Sanitize;
    var s := "a.b .";
    assert '*' !in s;
    CutOneDot(s);
    assert s[..4] == "a.b ";
    NoDoubleDots("a.b ");
  }

  lemma CutOneDot(s: string)
    requires |s| > 1 && s[|s| - 1] == '.' && s[|s| - 2] != '.'
    ensures CutDots(s) == s[..|s| - 1]
  {
  }

  lemma NoDoubleDots(s: string)
    requires !HasDoubleDot(s)
    ensures Collapse(s) == s
  {
  }

  lemma StripsToBlank()
    ensures Sanitize("*. a.b") == " a.b" && Sanitize("a.b") == "a.b" && TrimSpace(" a.b") == "a.b"
    ensures CutDots(" a.b") == " a.b" && CutDots("a.b") == "a.b" && Collapse(" a.b") == " a.b" && Collapse("a.b") == "a.b"
    ensures !("*." <= "a.b")
  {
    hide CutDots, Collapse, TrimRight;
    assert "*. a.b"[2..] == " a.b" && " a.b"[1..] == "a.b";
    assert '*' !in " a.b" && '*' !in "a.b";
    StarredHasStar("a.b");
    NoDoubleDots(" a.b");
    NoDoubleDots("a.b");
    KeptWhole("a.b");
  }

  lemma KeptWhole(s: string)
    requires s != "" && !IsSpace(s[|s| - 1])
    ensures TrimRight(s) == s
  {
  }
}
