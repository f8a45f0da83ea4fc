/** The string operations the domain code uses, on sequences of characters. */
module Text {

  datatype Option<+T> = None | Some(value: T)

  /* ---------- Order ---------- */

  // Byte-wise string order.
  predicate Less(a: string, b: string) {
    b != "" && (a == "" || a[0] < b[0] || (a[0] == b[0] && Less(a[1..], b[1..])))
  }

  lemma {:induction false} LessIsStrict(a: string, b: string)
    ensures !Less(a, a)
    ensures Less(a, b) ==> !Less(b, a) && a != b
    ensures a == b || Less(a, b) || Less(b, a)
  {
    if a != "" {
      LessIsStrict(a[1..], if b == "" then "" else b[1..]);
      if b != "" && a[0] == b[0] {
        assert a == [a[0]] + a[1..] && b == [b[0]] + b[1..];
      }
    }
  }

  lemma {:induction false} LessTransitive(a: string, b: string, c: string)
    requires Less(a, b) && Less(b, c)
    ensures Less(a, c)
  {
    if a != "" && a[0] == b[0] && b[0] == c[0] {
      LessTransitive(a[1..], b[1..], c[1..]);
    }
  }

  /* ---------- Ascending listings ---------- */

  predicate Ascending(names: seq<string>) {
    forall i, j :: 0 <= i < j < |names| ==> Less(names[i], names[j])
  }

  // Insertion into an ascending listing without repeats.
  function Insert(names: seq<string>, name: string): seq<string> {
    if names == [] then [name]
    else if name == names[0] then names
    else if Less(name, names[0]) then [name] + names
    else [names[0]] + Insert(names[1..], name)
  }

  lemma {:induction false} InsertIs(names: seq<string>, name: string)
    requires Ascending(names)
    ensures Ascending(Insert(names, name)) && forall x :: x in Insert(names, name) <==> x in names || x == name
  {
    hide Less;
    if names != [] {
      LessIsStrict(name, names[0]);
      InsertIs(names[1..], name);
      if Less(name, names[0]) {
        forall j | 0 <= j < |names|
          ensures Less(name, names[j])
        {
          if j > 0 {
            LessTransitive(name, names[0], names[j]);
          }
        }
      } else if name != names[0] {
        var rest := Insert(names[1..], name);
        forall j | 0 <= j < |rest|
          ensures Less(names[0], rest[j])
        {
          assert rest[j] in rest;
        }
      }
    }
  }

  // A set of names has one ascending listing.
  lemma {:induction false} AscendingIsUnique(a: seq<string>, b: seq<string>)
    requires Ascending(a) && Ascending(b) && forall x :: x in a <==> x in b
    ensures a == b
  {
    hide Less;
    NoElements(a);
    NoElements(b);
    if a != [] {
      LeastFirst(a, b);
      LeastFirst(b, a);
      LessIsStrict(a[0], b[0]);
      LessIsStrict(b[0], a[0]);
      TailElements(a);
      TailElements(b);
      AscendingIsUnique(a[1..], b[1..]);
      assert a == [a[0]] + a[1..] && b == [b[0]] + b[1..];
    }
  }

  lemma NoElements(a: seq<string>)
    ensures a == [] <==> forall x :: x !in a
  {
    assert a != [] ==> a[0] in a;
  }

  lemma LeastFirst(a: seq<string>, b: seq<string>)
    requires Ascending(a) && a != [] && b != [] && b[0] in a
    ensures a[0] == b[0] || Less(a[0], b[0])
  {
    hide Less;
  }

  lemma TailElements(a: seq<string>)
    requires Ascending(a) && a != []
    ensures forall x :: x in a[1..] <==> x in a && x != a[0]
  {
    hide Less;
    forall i | 0 < i < |a|
      ensures a[i] != a[0]
    {
      LessIsStrict(a[0], a[i]);
    }
    assert forall x :: x in a <==> x == a[0] || x in a[1..];
  }

  /* ---------- Trimming and case ---------- */

  predicate IsSpace(c: char) {
    c == ' ' || '\t' <= c <= '\r' || c == '\U{0085}' || c == '\U{00A0}'
  }

  function TrimLeft(s: string): (r: string)
    ensures |r| <= |s|
    ensures r == s || r == "" || |r| < |s|
    ensures r != "" ==> !IsSpace(r[0])
    ensures forall c :: c in r ==> c in s
  {
    if s != "" && IsSpace(s[0]) then TrimLeft(s[1..]) else s
  }

  function TrimRight(s: string): (r: string)
    ensures r <= s
    ensures r != "" ==> !IsSpace(r[|r| - 1])
  {
    if s != "" && IsSpace(s[|s| - 1]) then TrimRight(s[..|s| - 1]) else s
  }

  function TrimSpace(s: string): (r: string)
    ensures |r| <= |s| && (forall c :: c in r ==> c in s)
    ensures r != "" ==> !IsSpace(r[0]) && !IsSpace(r[|r| - 1])
    ensures r == s <==> s == "" || (!IsSpace(s[0]) && !IsSpace(s[|s| - 1]))
    ensures r != s ==> |r| < |s|
  {
    TrimRight(TrimLeft(s))
  }

  function LowerChar(c: char): char {
    if 'A' <= c <= 'Z' then c - 'A' + 'a' else c
  }

  function ToLower(s: string): (r: string)
    ensures |r| == |s| && forall i :: 0 <= i < |s| ==> r[i] == LowerChar(s[i])
  {
    seq(|s|, i requires 0 <= i < |s| => LowerChar(s[i]))
  }

  // Characters below 0x80.
  predicate Ascii(s: string) {
    forall c :: c in s ==> c < '\U{0080}'
  }

  predicate Lower(s: string) {
    forall c :: c in s ==> !('A' <= c <= 'Z')
  }

  lemma ToLowerIdentity(s: string)
    requires Lower(s)
    ensures ToLower(s) == s
  {
    assert forall i :: 0 <= i < |s| ==> s[i] in s;
  }

  lemma ToLowerFacts(s: string)
    ensures Lower(ToLower(s)) && (Ascii(s) ==> Ascii(ToLower(s)))
    ensures ToLower(s) == "" <==> s == ""
  {
    assert forall i :: 0 <= i < |s| ==> s[i] in s;
  }

  /* ---------- Splitting ---------- */

  // strings.Split on one character.
  function Split(s: string, sep: char): (r: seq<string>)
    ensures r != []
    ensures |r| == 1 <==> sep !in s
    ensures |r| == 1 ==> r == [s]
    ensures forall p :: p in r ==> sep !in p
  {
    if s == "" then [""]
    else
      var rest := Split(s[1..], sep);
      assert [s[0]] + s[1..] == s;
      if s[0] == sep then [""] + rest else [[s[0]] + rest[0]] + rest[1..]
  }

  lemma SplitStep(s: string, sep: char)
    requires s != ""
    ensures var rest := Split(s[1..], sep);
            Split(s, sep) == if s[0] == sep then [""] + rest else [[s[0]] + rest[0]] + rest[1..]
  {
  }

  // Pieces hold characters of the string only, and the last one ends it.
  lemma {:induction false} SplitPieces(s: string, sep: char)
    ensures forall p, c :: p in Split(s, sep) && c in p ==> c in s
    ensures var last := Split(s, sep)[|Split(s, sep)| - 1]; last != "" ==> s != "" && last[|last| - 1] == s[|s| - 1]
  {
    hide Split;
    if s == "" {
      SplitNothing(sep);
    } else {
      SplitStep(s, sep);
      SplitPieces(s[1..], sep);
      var rest := Split(s[1..], sep);
      forall p, c | p in Split(s, sep) && c in p
        ensures c in s
      {
        assert p == "" || p in rest || p == [s[0]] + rest[0];
        assert rest[0] in rest;
        assert c == s[0] || c in s[1..];
      }
    }
  }

  lemma SplitNothing(sep: char)
    ensures Split("", sep) == [""]
  {
  }

  lemma {:induction false} SplitCut(a: string, b: string, sep: char)
    requires sep !in a
    ensures Split(a + [sep] + b, sep) == [a] + Split(b, sep)
  {
    hide Split;
    SplitStep(a + [sep] + b, sep);
    if a == "" {
      assert a + [sep] + b == [sep] + b;
    } else {
      assert (a + [sep] + b)[1..] == a[1..] + [sep] + b;
      SplitCut(a[1..], b, sep);
      assert [a[0]] + a[1..] == a;
    }
  }

  /* ---------- Dots ---------- */

  // strings.TrimRight(s, ".")
  function CutDots(s: string): (r: string)
    ensures r <= s
    ensures r != "" ==> r[|r| - 1] != '.'
    ensures r == s <==> s == "" || s[|s| - 1] != '.'
  {
    if s != "" && s[|s| - 1] == '.' then CutDots(s[..|s| - 1]) else s
  }

  // strings.Contains(s, "..")
  predicate HasDoubleDot(s: string) {
    exists i :: 0 <= i < |s| - 1 && s[i] == '.' && s[i + 1] == '.'
  }

  // strings.ReplaceAll(s, "..", ".")
  function HalveDots(s: string): (r: string)
    ensures |r| <= |s|
    ensures forall c :: c in r ==> c in s
    ensures r == "" <==> s == ""
    ensures s != "" && s[|s| - 1] != '.' ==> r != "" && r[|r| - 1] == s[|s| - 1]
  {
    if |s| < 2 then s
    else if s[0] == '.' && s[1] == '.' then "." + HalveDots(s[2..])
    else [s[0]] + HalveDots(s[1..])
  }

  lemma {:induction false} HalveDotsShrinks(s: string)
    ensures if HasDoubleDot(s) then |HalveDots(s)| < |s| else HalveDots(s) == s
  {
    if |s| >= 2 {
      if s[0] == '.' && s[1] == '.' {
        assert HasDoubleDot(s);
      } else {
        HalveDotsShrinks(s[1..]);
        if HasDoubleDot(s) {
          var i :| 0 <= i < |s| - 1 && s[i] == '.' && s[i + 1] == '.';
          assert i > 0 && s[1..][i - 1] == '.' && s[1..][i] == '.';
        }
        if HasDoubleDot(s[1..]) {
          var i :| 0 <= i < |s| - 2 && s[1..][i] == '.' && s[1..][i + 1] == '.';
          assert s[i + 1] == '.' && s[i + 2] == '.';
        }
        assert s == [s[0]] + s[1..];
      }
    }
  }

  // Replacing until no double dot is left.
  function Collapse(s: string): (r: string)
    ensures !HasDoubleDot(r) && |r| <= |s|
    ensures forall c :: c in r ==> c in s
    ensures s != "" && s[|s| - 1] != '.' ==> r != "" && r[|r| - 1] == s[|s| - 1]
    ensures r == "" <==> s == ""
    decreases |s|
  {
    HalveDotsShrinks(s);
    if HasDoubleDot(s) then Collapse(HalveDots(s)) else s
  }

  // Index of the last dot, or -1.
  function LastDot(s: string): (r: int)
    ensures -1 <= r < |s|
    ensures r >= 0 ==> s[r] == '.'
    ensures forall i :: r < i < |s| ==> s[i] != '.'
  {
    if s == "" then -1 else if s[|s| - 1] == '.' then |s| - 1 else LastDot(s[..|s| - 1])
  }

  // The non-empty labels of a host name, top-level label first.
  function Path(domain: string): (r: seq<string>)
    ensures forall l :: l in r ==> l != "" && '.' !in l
    decreases |domain|
  {
    if domain == "" then []
    else
      var start := LastDot(domain);
      var label_ := domain[start + 1..];
      var rest := if start < 0 then [] else Path(domain[..start]);
      if label_ == "" then rest else [label_] + rest
  }

  /* ---------- Label paths and label-boundary suffixes ---------- */

  // A host name without empty labels.
  predicate Host(s: string) {
    s != "" && s[0] != '.' && s[|s| - 1] != '.' && !HasDoubleDot(s)
  }

  // strings.HasSuffix(child, "." + parent)
  predicate IsSub(child: string, parent: string) {
    |child| > |parent| && child[|child| - |parent|..] == parent && child[|child| - |parent| - 1] == '.'
  }

  lemma PathStep(s: string)
    requires s != "" && s[LastDot(s) + 1..] != ""
    ensures Path(s) == [s[LastDot(s) + 1..]] + (if LastDot(s) < 0 then [] else Path(s[..LastDot(s)]))
  {
  }

  lemma HostPrefix(s: string, d: nat)
    requires Host(s) && d < |s| && s[d] == '.'
    ensures 0 < d < |s| - 1 && Host(s[..d])
  {
    assert s[d - 1] != '.';
    var r := s[..d];
    assert forall i :: 0 <= i < |r| ==> r[i] == s[i];
  }

  // The top label and what is below it.
  lemma HostSplits(s: string)
    requires Host(s)
    ensures var d := LastDot(s);
            && s[d + 1..] != "" && '.' !in s[d + 1..]
            && Path(s) == [s[d + 1..]] + (if d < 0 then [] else Path(s[..d]))
            && (d >= 0 ==> Host(s[..d]) && s == s[..d] + "." + s[d + 1..])
            && (d < 0 ==> s == s[d + 1..])
  {
    hide LastDot, Path;
    var d := LastDot(s);
    if d >= 0 {
      HostPrefix(s, d);
      assert s == s[..d] + [s[d]] + s[d + 1..];
    }
    PathStep(s);
  }

  // Sharing the labels of a host from the top is being that host or ending in a dot and that host.
  lemma {:induction false} PathPrefixIsSuffix(r: string, q: string)
    requires Host(r) && Host(q)
    ensures Path(r) <= Path(q) <==> q == r || IsSub(q, r)
    ensures Path(r) == Path(q) <==> q == r
    decreases |r|
  {
    hide Path, LastDot, Host, IsSub, HasDoubleDot;
    var d, top, s := Cut(r);
    var e, top', t := Cut(q);
    PrefixCons(top, Path(s), top', Path(t));
    if d && e {
      PathPrefixIsSuffix(s, t);
      SubJoin(s, t, top, top');
    } else if d {
      HostPathNotEmpty(s);
      ShortIsNoSub(r, q, |s|);
    } else if e {
      HostPathNotEmpty(t);
      TopIsSub(top, t, top');
    } else {
      NoDotNoSub(r, q);
    }
  }

  // Whether a host has a dot, its top label, and what is below it.
  lemma Cut(s: string) returns (dotted: bool, top: string, below: string)
    requires Host(s)
    ensures '.' !in top && |below| < |s|
    ensures Path(s) == [top] + Path(below)
    ensures if dotted then Host(below) && s == below + "." + top else below == "" && s == top
  {
    hide Path, LastDot, Host, HasDoubleDot;
    HostSplits(s);
    EmptyPath();
    var d := LastDot(s);
    if d < 0 {
      return false, s, "";
    }
    return true, s[d + 1..], s[..d];
  }

  lemma EmptyPath()
    ensures Path("") == []
  {
  }

  lemma HostPathNotEmpty(s: string)
    requires Host(s)
    ensures Path(s) != [] && Path("") == []
  {
    HostSplits(s);
  }

  lemma PrefixCons(a: string, s: seq<string>, b: string, t: seq<string>)
    ensures [a] + s <= [b] + t <==> a == b && s <= t
    ensures [a] + s == [b] + t <==> a == b && s == t
  {
    assert ([a] + s)[0] == a && ([b] + t)[0] == b;
    assert ([a] + s)[1..] == s && ([b] + t)[1..] == t;
    if a == b && s <= t {
      assert [b] + t == [a] + s + t[|s|..];
    }
    if [a] + s <= [b] + t {
      assert ([b] + t)[..|s| + 1] == [a] + s;
      assert t[..|s|] == ([b] + t)[1..|s| + 1] == s;
    }
  }

  // Both end in a dot and a dot-free top label.
  lemma SubJoin(r: string, q: string, top: string, top': string)
    requires '.' !in top && '.' !in top'
    ensures var (a, b) := (r + "." + top, q + "." + top');
            && (b == a <==> q == r && top == top')
            && (IsSub(b, a) <==> IsSub(q, r) && top == top')
  {
    var a, b := r + "." + top, q + "." + top';
    LastDotOf(r, top);
    LastDotOf(q, top');
    if |b| >= |a| && b[|b| - |a|..] == a {
      LastDotShift(b, a);
      assert a[|r| + 1..] == top && b[|q| + 1..] == top';
      assert b[|b| - |a|..][|r| + 1..] == b[|q| + 1..];
      assert top == top';
      assert q[|q| - |r|..] == b[|b| - |a|..][..|r|] == r;
    }
    if top == top' && |q| >= |r| && q[|q| - |r|..] == r {
      assert b[|b| - |a|..] == a;
    }
  }

  lemma LastDotIs(s: string, i: nat)
    requires i < |s| && s[i] == '.' && forall j :: i < j < |s| ==> s[j] != '.'
    ensures LastDot(s) == i
  {
    hide LastDot;
  }

  lemma LastDotOf(r: string, top: string)
    requires '.' !in top
    ensures LastDot(r + "." + top) == |r|
  {
    hide LastDot;
    var a := r + "." + top;
    assert forall i :: 0 <= i < |top| ==> top[i] in top && a[|r| + 1 + i] == top[i];
    forall j | |r| < j < |a|
      ensures a[j] != '.'
    {
      var i := j - |r| - 1;
      assert a[|r| + 1 + i] == top[i];
    }
    LastDotIs(a, |r|);
  }

  lemma LastDotShift(b: string, a: string)
    requires |b| >= |a| && b[|b| - |a|..] == a && LastDot(a) >= 0
    ensures LastDot(b) == LastDot(a) + |b| - |a|
  {
    var k := |b| - |a|;
    assert forall i :: 0 <= i < |a| ==> b[k + i] == a[i];
    var d, e := LastDot(a), LastDot(b);
    assert b[k + d] == '.';
    assert e >= k ==> a[e - k] == '.';
  }

  lemma NoDotNoSub(r: string, q: string)
    requires '.' !in q
    ensures !IsSub(q, r)
  {
    if |q| > |r| {
      assert q[|q| - |r| - 1] in q;
    }
  }

  lemma ShortIsNoSub(r: string, q: string, d: nat)
    requires d < |r| && r[d] == '.' && '.' !in q
    ensures q != r && !IsSub(q, r)
  {
    assert r[d] in r;
    if |q| > |r| {
      assert q[|q| - |r| - 1] in q;
    }
  }

  // A single label below which nothing is left to compare.
  lemma TopIsSub(r: string, below: string, top: string)
    requires '.' !in r && '.' !in top
    ensures below + "." + top != r && (IsSub(below + "." + top, r) <==> top == r)
  {
    var q := below + "." + top;
    LastDotOf(below, top);
    assert '.' in q;
    if IsSub(q, r) {
      LastDotOf(q[..|q| - |r| - 1], r);
      assert q == q[..|q| - |r| - 1] + "." + r;
    }
  }

  // A name shares the labels of every host it lies below, whatever empty labels it has itself.
  lemma {:induction false} SubSharesPath(d: string, q: string)
    requires Host(d) && (q == d || IsSub(q, d))
    ensures Path(d) <= Path(q)
    decreases |d|
  {
    hide Path, LastDot, Host, HasDoubleDot;
    if q != d {
      var dotted, top, below := Cut(d);
      EmptyPath();
      var rest := if dotted then q[..|q| - |top| - 1] else q[..|q| - |d| - 1];
      assert q == rest + "." + top by {
        assert q == q[..|q| - |d| - 1] + "." + d;
      }
      LastDotOf(rest, top);
      TopNotEmpty(d, top, below);
      assert q[|rest| + 1..] == top && q[..|rest|] == rest;
      PathStep(q);
      if dotted {
        assert IsSub(rest, below) by {
          assert rest == q[..|q| - |d| - 1] + "." + below;
        }
        SubSharesPath(below, rest);
      }
      PrefixCons(top, Path(below), top, Path(rest));
    }
  }

  lemma TopNotEmpty(d: string, top: string, below: string)
    requires Host(d) && (d == top || d == below + "." + top)
    ensures top != ""
  {
  }

  // Hosts whose labels are nested from the top are equal or one lies below the other.
  lemma NestedHosts(a: string, b: string, p: seq<string>)
    requires Host(a) && Host(b) && Path(a) <= p && Path(b) <= p
    ensures if |Path(a)| >= |Path(b)| then a == b || IsSub(a, b) else IsSub(b, a)
  {
    hide Path, LastDot, Host, HasDoubleDot, IsSub;
    assert Path(a) == p[..|Path(a)|] && Path(b) == p[..|Path(b)|];
    if |Path(a)| >= |Path(b)| {
      assert Path(b) == Path(a)[..|Path(b)|];
      PathPrefixIsSuffix(b, a);
    } else {
      assert Path(a) == Path(b)[..|Path(a)|];
      PathPrefixIsSuffix(a, b);
    }
  }
}
