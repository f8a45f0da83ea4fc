/**
 What an exceptions file means, in terms of the fields as they are written in it: which entries are
 accepted, what becomes of each field, and which rules a file suppresses for which queries.
 internal/risk/adblock_exceptions.go.
 */
module ExceptionMeaning {
  import opened Text
  import opened TrieRules
  import opened ExceptionRules
  import opened Exceptions

  // A field without surrounding white space, in lower case.
  function Clean(s: string): string {
    ToLower(TrimSpace(s))
  }

  /* ---------- Fields ---------- */

  predicate ProperLabel(l: string) {
    && 1 <= |l| <= 63 && l[0] != '-' && l[|l| - 1] != '-'
    && forall c :: c in l ==> 'a' <= c <= 'z' || '0' <= c <= '9' || c == '-'
  }

  // A host name in the form the network uses.
  predicate Proper(d: string) {
    1 <= |d| <= 253 && forall l :: l in Split(d, '.') ==> ProperLabel(l)
  }

  // What a domain field names, if it is accepted.
  ghost predicate Names(env: Env, raw: string, d: string) {
    ExceptionDomain(env, raw) == Some(d)
  }

  // A host name is accepted as itself, in whatever case and with whatever white space around it.
  lemma ProperNamesAreAccepted(env: Env, raw: string, d: string)
    requires Proper(d) && Clean(raw) == d && env.idna(d) == Some(d)
    ensures Names(env, raw, d)
  {
    hide ToLower, TrimSpace;
    ProperChars(d);
    forall l | l in Split(d, '.')
      ensures LabelOk(l)
    {
      assert ProperLabel(l);
    }
    assert d[0] in d && d[|d| - 1] in d;
    assert TrimSpace(d) == d;
  }

  lemma ProperChars(d: string)
    requires Proper(d)
    ensures forall c :: c in d ==> c == '.' || 'a' <= c <= 'z' || '0' <= c <= '9' || c == '-'
  {
    hide Split;
    LabelChars(d, '.');
    forall c | c in d && c != '.'
      ensures 'a' <= c <= 'z' || '0' <= c <= '9' || c == '-'
    {
      var l :| l in Split(d, '.') && c in l;
      assert ProperLabel(l);
    }
  }

  // What is accepted is a host name, and what the field's converted form is; nothing with a path, a
  // port, a wildcard or a blank in it is accepted.
  lemma AcceptedNamesAreProper(env: Env, raw: string, d: string)
    requires Names(env, raw, d)
    ensures Proper(d) && env.idna(Clean(raw)).Some? && d == TrimSpace(env.idna(Clean(raw)).value)
    ensures forall c :: c in Clean(raw) ==> c !in {'/', '?', '#', '@', ':', '*', ' ', '\t', '\n', '\r'}
  {
    hide ToLower, TrimSpace, Split;
    forall l | l in Split(d, '.')
      ensures ProperLabel(l)
    {
      assert LabelOk(l);
    }
    SpecialChars();
  }

  lemma SpecialChars()
    ensures forall c :: c in {'/', '?', '#', '@', ':', '*', ' ', '\t', '\n', '\r'} ==> c in "/?#@:* \t\n\r"
  {
    var s := "/?#@:* \t\n\r";
    assert s[0] == '/' && s[1] == '?' && s[2] == '#' && s[3] == '@' && s[4] == ':' && s[5] == '*' && s[6] == ' '
        && s[7] == '\t' && s[8] == '\n' && s[9] == '\r';
  }

  predicate HexDigit(c: char) {
    '0' <= c <= '9' || 'a' <= c <= 'f' || 'A' <= c <= 'F'
  }

  // A source is one of the two reserved labels, exactly so written, or a digest of 32 hexadecimal digits,
  // which is meant in lower case.
  lemma SourceExactly(raw: string)
    ensures ExceptionSource(raw)
            == var t := TrimSpace(raw);
               if t in {"legacy", "legacy-cache"} then Some(t)
               else if |t| == 32 && (forall c :: c in t ==> HexDigit(c)) then Some(ToLower(t))
               else None
  {
    hide ToLower, TrimSpace;
  }

  // So a digest is accepted in either case, as the same source.
  lemma DigestsIgnoreCase(a: string, b: string)
    requires |a| == |b| == 32 && (forall c :: c in a + b ==> HexDigit(c)) && ToLower(a) == ToLower(b)
    ensures ExceptionSource(a) == ExceptionSource(b) == Some(ToLower(a))
  {
    hide ToLower;
    assert forall c :: c in a ==> c in a + b;
    assert forall c :: c in b ==> c in a + b;
    assert a[0] in a && a[31] in a && b[0] in b && b[31] in b;
    SourceExactly(a);
    SourceExactly(b);
  }

  // What becomes of the fields of an accepted entry: nothing is widened, in particular an entry is for
  // every category only when none was written.
  lemma FieldsAreKept(env: Env, raw: RawEntry, e: Entry)
    requires Check(env, raw) == Some(e)
    ensures e.id == raw.id && e.reason == TrimSpace(raw.reason)
    ensures Names(env, raw.domain, e.domain) && Names(env, raw.matchedRule, e.matchedRule)
    ensures e.scope == Clean(raw.scope) && e.matchType == Clean(raw.matchType)
    ensures ExceptionSource(raw.sourceId) == Some(e.sourceId)
    ensures e.category == Clean(raw.category) && (e.category == "" <==> TrimSpace(raw.category) == "")
  {
    hide ToLower, TrimSpace, ExceptionDomain, ExceptionSource, IdOk, SelectorsIntersect;
    ToLowerFacts(TrimSpace(raw.category));
  }

  // Which entries are accepted.
  lemma AcceptedExactly(env: Env, raw: RawEntry)
    ensures Check(env, raw).Some? <==>
              && 1 <= |raw.id| <= 64
              && (forall c :: c in raw.id ==>
                    'a' <= c <= 'z' || 'A' <= c <= 'Z' || '0' <= c <= '9' || c == '-' || c == '_')
              && 1 <= |TrimSpace(raw.reason)| <= 256
              && Clean(raw.scope) in {"exact", "suffix"} && Clean(raw.matchType) in {"exact", "suffix"}
              && ExceptionSource(raw.sourceId).Some?
              && Clean(raw.category) in {"", "ads", "tracking", "telemetry", "nuisance", "unknown"}
              && exists d, m :: Names(env, raw.domain, d) && Names(env, raw.matchedRule, m)
                   && (Clean(raw.scope) == "suffix" ==> env.registrable(d))
                   && exists q :: CoveredBy(q, d, Clean(raw.scope)) && CoveredBy(q, m, Clean(raw.matchType))
  {
    hide ToLower, TrimSpace, ExceptionDomain, ExceptionSource, SelectorsIntersect, CoveredBy;
    var (d, m) := (ExceptionDomain(env, raw.domain), ExceptionDomain(env, raw.matchedRule));
    if d.Some? && m.Some? {
      IntersectExactly(d.value, Clean(raw.scope), m.value, Clean(raw.matchType));
      assert Names(env, raw.domain, d.value) && Names(env, raw.matchedRule, m.value);
    }
  }

  /* ---------- What a file suppresses ---------- */

  // The entry, as written, is about this query: its name is the query, or for a suffix entry a parent.
  ghost predicate AboutQuery(env: Env, raw: RawEntry, q: string) {
    exists d :: Names(env, raw.domain, d) && (q == d || (Clean(raw.scope) == "suffix" && IsSub(q, d)))
  }

  // The entry, as written, is about this rule.
  ghost predicate AboutRule(env: Env, raw: RawEntry, rule: Rule) {
    && Names(env, raw.matchedRule, rule.domain) && ExceptionSource(raw.sourceId) == Some(rule.sourceId)
    && Clean(raw.matchType) == rule.scope
    && (TrimSpace(raw.category) == "" || Clean(raw.category) == rule.category)
  }

  lemma FiresAsWritten(env: Env, raw: RawEntry, e: Entry, q: string, rule: Rule)
    requires Check(env, raw) == Some(e)
    ensures Fires(e, q, rule) <==> AboutQuery(env, raw, q) && AboutRule(env, raw, rule)
  {
    hide ToLower, TrimSpace, ExceptionDomain, ExceptionSource, Check, IsSub;
    FieldsAreKept(env, raw, e);
    AcceptedExactly(env, raw);
  }

  // The answer of a lookup in terms of the file: a rule is suppressed for a query exactly when some entry,
  // as written, is about both; and then by one of those.
  lemma SuppressesExactly(env: Env, raws: seq<RawEntry>, entries: seq<Entry>, q: string, rule: Rule, id: Option<string>)
    requires Checked(env, raws, entries) && Verdict(entries, q, rule, id)
    ensures id.Some? <==> exists i :: 0 <= i < |raws| && AboutQuery(env, raws[i], q) && AboutRule(env, raws[i], rule)
    ensures id.Some? ==>
              exists i :: 0 <= i < |raws| && raws[i].id == id.value
                          && AboutQuery(env, raws[i], q) && AboutRule(env, raws[i], rule)
  {
    hide Fires, AboutQuery, AboutRule, Check, Above, Same;
    forall i | 0 <= i < |raws|
      ensures Fires(entries[i], q, rule) <==> AboutQuery(env, raws[i], q) && AboutRule(env, raws[i], rule)
      ensures entries[i].id == raws[i].id
    {
      FiresAsWritten(env, raws[i], entries[i], q, rule);
      FieldsAreKept(env, raws[i], entries[i]);
    }
    if id.Some? {
      var i: nat :| Wins(entries, q, rule, i) && entries[i].id == id.value;
      assert AboutQuery(env, raws[i], q) && AboutRule(env, raws[i], rule);
    }
  }

  // An entry that names a category suppresses no rule of another.
  lemma OtherCategoriesAreSafe(env: Env, raw: RawEntry, e: Entry, q: string, rule: Rule)
    requires Check(env, raw) == Some(e) && TrimSpace(raw.category) != "" && Clean(raw.category) != rule.category
    ensures !Fires(e, q, rule)
  {
    hide ToLower, TrimSpace, Check;
    FiresAsWritten(env, raw, e, q, rule);
  }

  // Which of several firing entries answers: one for the exact name before any suffix entry, a longer
  // suffix before a shorter, and at the same name one for the category before one for every category.
  lemma PreferenceIs(entries: seq<Entry>, q: string, rule: Rule, i: nat, j: nat)
    requires Wins(entries, q, rule, i) && j < |entries| && Fires(entries[j], q, rule)
    ensures entries[j].scope == "exact" ==> entries[i].scope == "exact"
    ensures entries[i].scope != "exact" ==> |entries[j].domain| <= |entries[i].domain|
    ensures (entries[j].scope == entries[i].scope && entries[j].domain == entries[i].domain
             && entries[j].category == rule.category != "") ==> entries[i].category == rule.category
  {
    hide IsSub;
  }
}
