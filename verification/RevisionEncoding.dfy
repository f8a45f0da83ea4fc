/**
 The canonical encoding that internal/risk/adblock_exceptions.go digests into a snapshot revision:
 the entries sorted by all eight fields, their number, and each field after its 8-byte length.
 Two entry lists have the same encoding exactly when one is a permutation of the other, whatever
 bytes the fields hold.

 A string is the sequence of its bytes.  The hash itself is not part of this model.
 */
module RevisionEncoding {
  import opened Text
  import opened TrieRules
  import opened ExceptionRules

  const SEPARATOR := "safe-zone/adblock-exceptions/revision/v1"

  // Lengths and counts are 64-bit.
  const LIMIT: nat := 0x1_0000_0000_0000_0000

  /* ---------- The order of entries ---------- */

  function Fields(e: Entry): (r: seq<string>)
    ensures |r| == 8
  {
    [e.id, e.domain, e.scope, e.matchedRule, e.sourceId, e.matchType, e.category, e.reason]
  }

  // The first field that differs decides.
  predicate FieldsLess(a: seq<string>, b: seq<string>) {
    a != [] && b != [] && if a[0] != b[0] then Less(a[0], b[0]) else FieldsLess(a[1..], b[1..])
  }

  predicate EntryLess(a: Entry, b: Entry) {
    FieldsLess(Fields(a), Fields(b))
  }

  lemma {:induction false} FieldsLessTotal(a: seq<string>, b: seq<string>)
    requires |a| == |b|
    ensures a != b ==> FieldsLess(a, b) || FieldsLess(b, a)
    ensures FieldsLess(a, b) ==> !FieldsLess(b, a) && a != b
  {
    if a != [] {
      if a[0] == b[0] {
        assert a == [a[0]] + a[1..] && b == [b[0]] + b[1..];
        FieldsLessTotal(a[1..], b[1..]);
      } else {
        LessIsStrict(a[0], b[0]);
        LessIsStrict(b[0], a[0]);
      }
    }
  }

  lemma {:induction false} FieldsLessTransitive(a: seq<string>, b: seq<string>, c: seq<string>)
    requires FieldsLess(a, b) && FieldsLess(b, c)
    ensures FieldsLess(a, c)
  {
    if a[0] == b[0] == c[0] {
      FieldsLessTransitive(a[1..], b[1..], c[1..]);
    } else if a[0] != b[0] && b[0] != c[0] {
      LessTransitive(a[0], b[0], c[0]);
      LessIsStrict(a[0], c[0]);
    }
  }

  lemma FieldsIdentify(a: Entry, b: Entry)
    requires Fields(a) == Fields(b)
    ensures a == b
  {
    assert Fields(a)[0] == Fields(b)[0] && Fields(a)[1] == Fields(b)[1] && Fields(a)[2] == Fields(b)[2];
    assert Fields(a)[3] == Fields(b)[3] && Fields(a)[4] == Fields(b)[4] && Fields(a)[5] == Fields(b)[5];
    assert Fields(a)[6] == Fields(b)[6] && Fields(a)[7] == Fields(b)[7];
  }

  /* ---------- Sorting ---------- */

  // No entry is followed by a smaller one.
  predicate Ordered(s: seq<Entry>) {
    forall i, j :: 0 <= i < j < |s| ==> !EntryLess(s[j], s[i])
  }

  // What sort.Slice returns, under whatever strategy: an ordered permutation.
  predicate IsSortOf(ordered: seq<Entry>, entries: seq<Entry>) {
    Ordered(ordered) && multiset(ordered) == multiset(entries)
  }

  // Equal entries are indistinguishable, so there is only one ordered permutation.
  lemma {:induction false} SortIsUnique(a: seq<Entry>, b: seq<Entry>)
    requires Ordered(a) && Ordered(b) && multiset(a) == multiset(b)
    ensures a == b
  {
    hide EntryLess;
    assert |a| == |multiset(a)| == |multiset(b)| == |b|;
    if a != [] {
      HeadIsLeast(a, b);
      HeadIsLeast(b, a);
      NoTwoLeast(a[0], b[0]);
      assert a == [a[0]] + a[1..] && b == [b[0]] + b[1..];
      assert multiset(a[1..]) == multiset(a) - multiset{a[0]};
      assert multiset(b[1..]) == multiset(b) - multiset{b[0]};
      SortIsUnique(a[1..], b[1..]);
    }
  }

  lemma HeadIsLeast(a: seq<Entry>, b: seq<Entry>)
    requires Ordered(a) && a != [] && b != [] && multiset(a) == multiset(b)
    ensures b[0] == a[0] || !EntryLess(b[0], a[0])
  {
    hide EntryLess;
    assert b[0] in multiset(b);
    assert b[0] in a;
  }

  lemma NoTwoLeast(a: Entry, b: Entry)
    requires (b == a || !EntryLess(b, a)) && (a == b || !EntryLess(a, b))
    ensures a == b
  {
    hide FieldsLess;
    FieldsLessTotal(Fields(a), Fields(b));
    if Fields(a) == Fields(b) {
      FieldsIdentify(a, b);
    }
  }

  // Insertion sort: one way to compute the ordered permutation.
  method Sort(entries: seq<Entry>) returns (ordered: seq<Entry>)
    ensures IsSortOf(ordered, entries)
  {
    hide EntryLess;
    ordered := [];
    assert entries[..0] == [];
    for n := 0 to |entries|
      invariant IsSortOf(ordered, entries[..n])
    {
      var e := entries[n];
      var at := |ordered|;
      while at > 0 && EntryLess(e, ordered[at - 1])
        invariant 0 <= at <= |ordered|
        invariant forall i :: at <= i < |ordered| ==> EntryLess(e, ordered[i])
      {
        at := at - 1;
      }
      assert entries[..n + 1] == entries[..n] + [e];
      InsertKeepsOrder(ordered, e, at);
      ordered := ordered[..at] + [e] + ordered[at..];
    }
    assert entries[..|entries|] == entries;
  }

  lemma InsertKeepsOrder(s: seq<Entry>, e: Entry, at: nat)
    requires Ordered(s) && at <= |s| && (at > 0 ==> !EntryLess(e, s[at - 1]))
    requires forall i :: at <= i < |s| ==> EntryLess(e, s[i])
    ensures Ordered(s[..at] + [e] + s[at..]) && multiset(s[..at] + [e] + s[at..]) == multiset(s) + multiset{e}
  {
    hide EntryLess;
    assert s == s[..at] + s[at..];
    forall i | 0 <= i < at
      ensures !EntryLess(e, s[i])
    {
      NotLessBelow(e, s[at - 1], s[i]);
    }
    forall i | at <= i < |s|
      ensures !EntryLess(s[i], e)
    {
      LessIsOneWay(e, s[i]);
    }
  }

  lemma LessIsOneWay(a: Entry, b: Entry)
    requires EntryLess(a, b)
    ensures !EntryLess(b, a)
  {
    hide FieldsLess;
    FieldsLessTotal(Fields(a), Fields(b));
  }

  lemma NotLessBelow(e: Entry, last: Entry, x: Entry)
    requires !EntryLess(e, last) && (last == x || !EntryLess(last, x))
    ensures !EntryLess(e, x)
  {
    hide FieldsLess;
    var (a, b, c) := (Fields(e), Fields(last), Fields(x));
    FieldsLessTotal(a, b);
    FieldsLessTotal(b, c);
    FieldsLessTotal(a, c);
    if FieldsLess(a, c) && a != b && b != c {
      FieldsLessTransitive(c, b, a);
    }
  }

  /* ---------- Frames ---------- */

  // The k low-order bytes of n, high byte first.
  function BigEndian(n: nat, k: nat): (r: string)
    ensures |r| == k
  {
    if k == 0 then "" else BigEndian(n / 256, k - 1) + [(n % 256) as char]
  }

  function Pow256(k: nat): (p: nat)
    ensures p > 0
  {
    if k == 0 then 1 else 256 * Pow256(k - 1)
  }

  lemma {:induction false} BigEndianIsInjective(n: nat, m: nat, k: nat)
    requires n < Pow256(k) && m < Pow256(k) && BigEndian(n, k) == BigEndian(m, k)
    ensures n == m
  {
    if k > 0 {
      var (a, b) := (BigEndian(n, k), BigEndian(m, k));
      assert a[k - 1] == (n % 256) as char && b[k - 1] == (m % 256) as char;
      assert a[..k - 1] == BigEndian(n / 256, k - 1) && b[..k - 1] == BigEndian(m / 256, k - 1);
      BigEndianIsInjective(n / 256, m / 256, k - 1);
    }
  }

  lemma EightBytes()
    ensures Pow256(8) == LIMIT
  {
    assert Pow256(2) == 0x1_0000;
    assert Pow256(4) == 0x1_0000_0000;
    assert Pow256(6) == 0x1_0000_0000_0000;
  }

  // writeFramedString
  function Frame(s: string): (r: string)
    ensures |r| == 8 + |s|
  {
    BigEndian(|s|, 8) + s
  }

  // A frame followed by anything reads back in one way only.
  lemma FramesReadBack(a: string, x: string, b: string, y: string)
    requires |a| < LIMIT && |b| < LIMIT && Frame(a) + x == Frame(b) + y
    ensures a == b && x == y
  {
    hide BigEndian;
    EightBytes();
    assert (Frame(a) + x)[..8] == BigEndian(|a|, 8);
    assert (Frame(b) + y)[..8] == BigEndian(|b|, 8);
    BigEndianIsInjective(|a|, |b|, 8);
    assert (Frame(a) + x)[8..8 + |a|] == a && (Frame(b) + y)[8..8 + |b|] == b;
    assert (Frame(a) + x)[8 + |a|..] == x && (Frame(b) + y)[8 + |b|..] == y;
  }

  function Frames(fields: seq<string>): string {
    if fields == [] then "" else Frame(fields[0]) + Frames(fields[1..])
  }

  // No field is as long as a 64-bit length can say.
  predicate Sized(fields: seq<string>) {
    forall f :: f in fields ==> |f| < LIMIT
  }

  lemma {:induction false} FrameListsReadBack(a: seq<string>, x: string, b: seq<string>, y: string)
    requires |a| == |b| && Sized(a) && Sized(b) && Frames(a) + x == Frames(b) + y
    ensures a == b && x == y
  {
    hide Frame;
    if a == [] {
      assert Frames(a) + x == x && Frames(b) + y == y;
    } else {
      assert Frames(a) + x == Frame(a[0]) + (Frames(a[1..]) + x);
      assert Frames(b) + y == Frame(b[0]) + (Frames(b[1..]) + y);
      assert a[0] in a && b[0] in b;
      FramesReadBack(a[0], Frames(a[1..]) + x, b[0], Frames(b[1..]) + y);
      assert forall f :: f in a[1..] ==> f in a;
      assert forall f :: f in b[1..] ==> f in b;
      FrameListsReadBack(a[1..], x, b[1..], y);
      assert a == [a[0]] + a[1..] && b == [b[0]] + b[1..];
    }
  }

  /* ---------- The encoding ---------- */

  function Entries(ordered: seq<Entry>): string {
    if ordered == [] then "" else Frames(Fields(ordered[0])) + Entries(ordered[1..])
  }

  function Encoding(ordered: seq<Entry>): string {
    Frame(SEPARATOR) + (BigEndian(|ordered|, 8) + Entries(ordered))
  }

  predicate AllSized(entries: seq<Entry>) {
    |entries| < LIMIT && forall e :: e in entries ==> Sized(Fields(e))
  }

  // The bytes are the encoding of the entries in sorted order.
  ghost predicate Digested(entries: seq<Entry>, bytes: string) {
    exists ordered :: IsSortOf(ordered, entries) && bytes == Encoding(ordered)
  }

  // hashAdblockExceptionRevision up to the hash: copies, sorts and frames.
  method Encode(entries: seq<Entry>) returns (bytes: string)
    ensures Digested(entries, bytes)
  {
    hide IsSortOf, Frames, Entries, Frame, BigEndian;
    var sorted := Sort(entries);
    bytes := Frame(SEPARATOR) + BigEndian(|sorted|, 8);
    ghost var head := bytes;
    assert sorted[0..] == sorted;
    assert Encoding(sorted) == head + Entries(sorted);
    for i := 0 to |sorted|
      invariant bytes + Entries(sorted[i..]) == Encoding(sorted)
    {
      var fields := Fields(sorted[i]);
      ghost var before := bytes;
      NextEntry(sorted, i);
      assert fields[0..] == fields;
      for k := 0 to 8
        invariant bytes + Frames(fields[k..]) == before + Frames(fields)
      {
        NextFrame(fields, k);
        assert bytes + Frames(fields[k..]) == (bytes + Frame(fields[k])) + Frames(fields[k + 1..]);
        bytes := bytes + Frame(fields[k]);
      }
      NoFrames(fields[8..]);
      assert bytes + "" == bytes;
      assert before + Entries(sorted[i..]) == bytes + Entries(sorted[i + 1..]);
    }
    NoEntries(sorted[|sorted|..]);
    assert bytes + "" == bytes;
  }

  lemma NextEntry(s: seq<Entry>, i: nat)
    requires i < |s|
    ensures Entries(s[i..]) == Frames(Fields(s[i])) + Entries(s[i + 1..])
  {
    assert s[i..][1..] == s[i + 1..];
  }

  lemma NextFrame(s: seq<string>, i: nat)
    requires i < |s|
    ensures Frames(s[i..]) == Frame(s[i]) + Frames(s[i + 1..])
  {
    assert s[i..][1..] == s[i + 1..];
  }

  lemma NoEntries(s: seq<Entry>)
    requires |s| == 0
    ensures Entries(s) == ""
  {
  }

  lemma NoFrames(s: seq<string>)
    requires |s| == 0
    ensures Frames(s) == ""
  {
  }

  lemma {:induction false} EntriesReadBack(a: seq<Entry>, b: seq<Entry>)
    requires |a| == |b| && AllSized(a) && AllSized(b) && Entries(a) == Entries(b)
    ensures a == b
  {
    hide Frames, Fields, Sized;
    if a != [] {
      assert a[0] in a && b[0] in b;
      FrameListsReadBack(Fields(a[0]), Entries(a[1..]), Fields(b[0]), Entries(b[1..]));
      FieldsIdentify(a[0], b[0]);
      assert forall e :: e in a[1..] ==> e in a;
      assert forall e :: e in b[1..] ==> e in b;
      EntriesReadBack(a[1..], b[1..]);
      assert a == [a[0]] + a[1..] && b == [b[0]] + b[1..];
    }
  }

  lemma EncodingIsInjective(a: seq<Entry>, b: seq<Entry>)
    requires AllSized(a) && AllSized(b) && Encoding(a) == Encoding(b)
    ensures a == b
  {
    hide BigEndian, Entries, Sized, Frame;
    var (x, y) := (BigEndian(|a|, 8) + Entries(a), BigEndian(|b|, 8) + Entries(b));
    assert |SEPARATOR| == 40;
    FramesReadBack(SEPARATOR, x, SEPARATOR, y);
    assert x[..8] == BigEndian(|a|, 8) && y[..8] == BigEndian(|b|, 8);
    assert x[8..] == Entries(a) && y[8..] == Entries(b);
    EightBytes();
    BigEndianIsInjective(|a|, |b|, 8);
    EntriesReadBack(a, b);
  }

  lemma SizedPermutation(entries: seq<Entry>, ordered: seq<Entry>)
    requires AllSized(entries) && multiset(ordered) == multiset(entries)
    ensures AllSized(ordered)
  {
    hide Sized;
    assert |ordered| == |multiset(ordered)| == |multiset(entries)| == |entries|;
    forall e | e in ordered
      ensures e in entries
    {
      assert e in multiset(ordered);
    }
  }

  // The bytes digested for two entry lists are equal exactly when the lists are permutations of
  // each other; the sorting strategy does not matter.
  lemma RevisionIdentifiesEntries(a: seq<Entry>, b: seq<Entry>, bytesA: string, bytesB: string)
    requires AllSized(a) && AllSized(b) && Digested(a, bytesA) && Digested(b, bytesB)
    ensures bytesA == bytesB <==> multiset(a) == multiset(b)
  {
    hide Ordered, Encoding, AllSized;
    var sortedA :| IsSortOf(sortedA, a) && bytesA == Encoding(sortedA);
    var sortedB :| IsSortOf(sortedB, b) && bytesB == Encoding(sortedB);
    SizedPermutation(a, sortedA);
    SizedPermutation(b, sortedB);
    if multiset(a) == multiset(b) {
      SortIsUnique(sortedA, sortedB);
    }
    if bytesA == bytesB {
      EncodingIsInjective(sortedA, sortedB);
    }
  }

  // Snapshots that digest the same bytes answer every lookup alike.
  lemma SameRevisionSameAnswers(a: seq<Entry>, b: seq<Entry>, bytes: string, q: string, rule: Rule,
                                x: Option<string>, y: Option<string>)
    requires AllSized(a) && AllSized(b) && Digested(a, bytes) && Digested(b, bytes) && Distinct(a)
    requires Verdict(a, q, rule, x) && Verdict(b, q, rule, y)
    ensures x == y
  {
    hide AllSized, Digested, Distinct, Verdict;
    RevisionIdentifiesEntries(a, b, bytes, bytes);
    OrderDoesNotMatter(a, b, q, rule, x, y);
  }
}
