/**
 Edit-distance engine of internal/analysis/brand.go.

 Strings are rune sequences.  The plain distance counts edits; the keyboard-weighted one is
 measured in half-units, so that 0.5 is the integer 1 and a full edit is 2.  Both run the same
 one-column dynamic program and differ only in their cost table, which is a parameter here.
 */
module EditDistance {

  // A keyboard: rune lower-casing and, for a lower-case key, the keys next to it.
  datatype Keyboard = Keyboard(lower: char -> char, adjacency: map<char, string>) {
    predicate Adjacent(c1: char, c2: char) {
      var c1Low, c2Low := lower(c1), lower(c2);
      || (c1Low in adjacency && c2Low in adjacency[c1Low])
      || (c2Low in adjacency && c1Low in adjacency[c2Low])
    }
  }

  // The two cost tables: unit costs, and half-units with a discount for neighbouring keys.
  datatype Costs = Plain | Weighted(kb: Keyboard) {
    // Cost of an insertion or a deletion.
    const gap: int := if Plain? then 1 else 2

    // Cost of n insertions or deletions.
    function Gaps(n: int): int {
      if Plain? then n else 2 * n
    }

    // Cost of replacing one rune by another.
    function Sub(a: char, b: char): nat {
      if a == b then 0 else if Plain? then 1 else if kb.Adjacent(a, b) then 1 else 2
    }
  }

  // Replacing obeys the metric laws for any keyboard.
  lemma SubIsMetric(m: Costs, a: char, b: char, c: char)
    ensures m.Sub(a, b) == 0 <==> a == b
    ensures m.Sub(a, b) == m.Sub(b, a)
    ensures m.Sub(a, c) <= m.Sub(a, b) + m.Sub(b, c)
  {
  }

  function MinInt(a: int, b: int, c: int): (r: int)
    ensures r <= a && r <= b && r <= c
    ensures r == a || r == b || r == c
  {
    if a < b then (if a < c then a else c) else (if b < c then b else c)
  }

  /* ---------- Reference definition ---------- */

  // Distance between the first i runes of a and the first j runes of b.
  function Dist(m: Costs, a: string, b: string, i: nat, j: nat): nat
    requires i <= |a| && j <= |b|
    decreases i + j
  {
    if i == 0 && j == 0 then 0
    else if i == 0 then Dist(m, a, b, 0, j - 1) + m.gap
    else if j == 0 then Dist(m, a, b, i - 1, 0) + m.gap
    else MinInt(Dist(m, a, b, i - 1, j) + m.gap,
                Dist(m, a, b, i, j - 1) + m.gap,
                Dist(m, a, b, i - 1, j - 1) + m.Sub(a[i - 1], b[j - 1]))
  }

  function Distance(m: Costs, a: string, b: string): nat {
    Dist(m, a, b, |a|, |b|)
  }

  lemma {:induction false} EmptyRow(m: Costs, a: string, b: string, j: nat)
    requires j <= |b|
    ensures Dist(m, a, b, 0, j) == m.Gaps(j)
  {
    if j > 0 {
      EmptyRow(m, a, b, j - 1);
    }
  }

  lemma {:induction false} EmptyColumn(m: Costs, a: string, b: string, i: nat)
    requires i <= |a|
    ensures Dist(m, a, b, i, 0) == m.Gaps(i)
  {
    if i > 0 {
      EmptyColumn(m, a, b, i - 1);
    }
  }

  // The three ways an alignment can end bound the distance, and one of them attains it.
  lemma LastEdit(m: Costs, a: string, b: string, i: nat, j: nat)
    requires i <= |a| && j <= |b|
    ensures i > 0 ==> Dist(m, a, b, i, j) <= Dist(m, a, b, i - 1, j) + m.gap
    ensures j > 0 ==> Dist(m, a, b, i, j) <= Dist(m, a, b, i, j - 1) + m.gap
    ensures i > 0 && j > 0 ==> Dist(m, a, b, i, j) <= Dist(m, a, b, i - 1, j - 1) + m.Sub(a[i - 1], b[j - 1])
    ensures (i + j == 0 && Dist(m, a, b, i, j) == 0)
         || (i > 0 && Dist(m, a, b, i, j) == Dist(m, a, b, i - 1, j) + m.gap)
         || (j > 0 && Dist(m, a, b, i, j) == Dist(m, a, b, i, j - 1) + m.gap)
         || (i > 0 && j > 0 && Dist(m, a, b, i, j) == Dist(m, a, b, i - 1, j - 1) + m.Sub(a[i - 1], b[j - 1]))
  {
  }

  /* ---------- The distance is a metric ---------- */

  lemma {:induction false} Symmetric(m: Costs, a: string, b: string, i: nat, j: nat)
    requires i <= |a| && j <= |b|
    ensures Dist(m, a, b, i, j) == Dist(m, b, a, j, i)
    decreases i + j
  {
    hide Dist;
    LastEdit(m, a, b, i, j);
    LastEdit(m, b, a, j, i);
    if i > 0 {
      Symmetric(m, a, b, i - 1, j);
    }
    if j > 0 {
      Symmetric(m, a, b, i, j - 1);
    }
    if i > 0 && j > 0 {
      Symmetric(m, a, b, i - 1, j - 1);
      SubIsMetric(m, a[i - 1], b[j - 1], b[j - 1]);
    }
  }

  lemma {:induction false} ZeroMeansEqual(m: Costs, a: string, b: string, i: nat, j: nat)
    requires i <= |a| && j <= |b|
    ensures Dist(m, a, b, i, j) == 0 <==> a[..i] == b[..j]
    decreases i + j
  {
    if i > 0 && j > 0 {
      ZeroMeansEqual(m, a, b, i - 1, j - 1);
      assert a[..i] == a[..i - 1] + [a[i - 1]] && b[..j] == b[..j - 1] + [b[j - 1]];
      if a[..i] == b[..j] {
        assert a[..i][i - 1] == b[..j][j - 1];
        assert a[..i - 1] == a[..i][..i - 1] == b[..j - 1];
      }
    }
  }

  lemma {:induction false} Triangle(m: Costs, a: string, b: string, c: string, i: nat, j: nat, k: nat)
    requires i <= |a| && j <= |b| && k <= |c|
    ensures Dist(m, a, c, i, k) <= Dist(m, a, b, i, j) + Dist(m, b, c, j, k)
    decreases i + j + k
  {
    hide Dist;
    LastEdit(m, a, b, i, j);
    LastEdit(m, b, c, j, k);
    LastEdit(m, a, c, i, k);
    if i > 0 && Dist(m, a, b, i, j) == Dist(m, a, b, i - 1, j) + m.gap {
      Triangle(m, a, b, c, i - 1, j, k);
    } else if k > 0 && Dist(m, b, c, j, k) == Dist(m, b, c, j, k - 1) + m.gap {
      Triangle(m, a, b, c, i, j, k - 1);
    } else if j > 0 {
      var inserted := Dist(m, a, b, i, j) == Dist(m, a, b, i, j - 1) + m.gap;
      var deleted := Dist(m, b, c, j, k) == Dist(m, b, c, j - 1, k) + m.gap;
      if inserted && deleted {
        Triangle(m, a, b, c, i, j - 1, k);
      } else if inserted {
        Triangle(m, a, b, c, i, j - 1, k - 1);
      } else if deleted {
        Triangle(m, a, b, c, i - 1, j - 1, k);
      } else {
        Triangle(m, a, b, c, i - 1, j - 1, k - 1);
        SubIsMetric(m, a[i - 1], b[j - 1], c[k - 1]);
      }
    }
  }

  lemma DistanceIsMetric(m: Costs, a: string, b: string, c: string)
    ensures Distance(m, a, b) == 0 <==> a == b
    ensures Distance(m, a, b) == Distance(m, b, a)
    ensures Distance(m, a, c) <= Distance(m, a, b) + Distance(m, b, c)
  {
    ZeroMeansEqual(m, a, b, |a|, |b|);
    assert a[..|a|] == a && b[..|b|] == b;
    Symmetric(m, a, b, |a|, |b|);
    Triangle(m, a, b, c, |a|, |b|, |c|);
  }

  /* ---------- The distance is the cheapest edit script ---------- */

  datatype Edit = Insert(at: nat, c: char) | Delete(at: nat) | Replace(at: nat, c: char)

  predicate Applicable(e: Edit, s: string) {
    if e.Insert? then e.at <= |s| else e.at < |s|
  }

  function Apply(e: Edit, s: string): string
    requires Applicable(e, s)
  {
    match e
    case Insert(at, c) => s[..at] + [c] + s[at..]
    case Delete(at) => s[..at] + s[at + 1..]
    case Replace(at, c) => s[..at] + [c] + s[at + 1..]
  }

  function EditCost(m: Costs, e: Edit, s: string): nat
    requires Applicable(e, s)
  {
    if e.Replace? then m.Sub(s[e.at], e.c) else m.gap
  }

  // Applying the edits of script one after the other turns s into t.
  predicate Transforms(script: seq<Edit>, s: string, t: string) {
    if script == [] then s == t
    else Applicable(script[0], s) && Transforms(script[1..], Apply(script[0], s), t)
  }

  function ScriptCost(m: Costs, script: seq<Edit>, s: string, t: string): nat
    requires Transforms(script, s, t)
  {
    if script == [] then 0
    else EditCost(m, script[0], s) + ScriptCost(m, script[1..], Apply(script[0], s), t)
  }

  // One edit moves a string no further than its own cost: past the edited position the two
  // strings advance together.
  lemma {:induction false} OneEditBound(m: Costs, s: string, e: Edit, i: nat)
    requires Applicable(e, s)
    requires i <= |s| && (if e.Insert? then e.at <= i else e.at < i)
    ensures var t := Apply(e, s);
            var j := if e.Insert? then i + 1 else if e.Delete? then i - 1 else i;
            j <= |t| && Dist(m, s, t, i, j) <= EditCost(m, e, s)
    decreases i
  {
    hide Dist;
    var t := Apply(e, s);
    var first := if e.Insert? then e.at else e.at + 1;
    ZeroMeansEqual(m, s, t, e.at, e.at);
    assert s[..e.at] == t[..e.at];
    if i == first {
      LastEdit(m, s, t, i, if e.Insert? then i + 1 else if e.Delete? then i - 1 else i);
    } else {
      OneEditBound(m, s, e, i - 1);
      var j := if e.Insert? then i + 1 else if e.Delete? then i - 1 else i;
      LastEdit(m, s, t, i, j);
      assert s[i - 1] == t[j - 1];
    }
  }

  lemma EditBound(m: Costs, s: string, e: Edit)
    requires Applicable(e, s)
    ensures Distance(m, s, Apply(e, s)) <= EditCost(m, e, s)
  {
    hide Dist;
    OneEditBound(m, s, e, |s|);
  }

  lemma {:induction false} ScriptsCostAtLeastDistance(m: Costs, script: seq<Edit>, s: string, t: string)
    requires Transforms(script, s, t)
    ensures Distance(m, s, t) <= ScriptCost(m, script, s, t)
    decreases |script|
  {
    hide Dist, Distance, EditCost, Apply;
    if script == [] {
      DistanceIsMetric(m, s, t, t);
    } else {
      var next := Apply(script[0], s);
      ScriptsCostAtLeastDistance(m, script[1..], next, t);
      EditBound(m, s, script[0]);
      DistanceIsMetric(m, s, next, t);
    }
  }

  lemma Prepend(m: Costs, head: Edit, rest: seq<Edit>, s: string, next: string, t: string) returns (script: seq<Edit>)
    requires Applicable(head, s) && Apply(head, s) == next && Transforms(rest, next, t)
    ensures Transforms(script, s, t)
    ensures ScriptCost(m, script, s, t) == EditCost(m, head, s) + ScriptCost(m, rest, next, t)
  {
    script := [head] + rest;
    assert script[1..] == rest;
  }

  // The string while a[..i] is still to be turned into b[..j] and the tail is already done.
  function Stage(a: string, b: string, i: nat, j: nat): string
    requires i <= |a| && j <= |b|
  {
    a[..i] + b[j..]
  }

  lemma StageStep(m: Costs, a: string, b: string, i: nat, j: nat)
    requires i <= |a| && j <= |b|
    ensures i > 0 ==> Applicable(Delete(i - 1), Stage(a, b, i, j))
    ensures i > 0 ==> Apply(Delete(i - 1), Stage(a, b, i, j)) == Stage(a, b, i - 1, j)
    ensures j > 0 ==> Applicable(Insert(i, b[j - 1]), Stage(a, b, i, j))
    ensures j > 0 ==> Apply(Insert(i, b[j - 1]), Stage(a, b, i, j)) == Stage(a, b, i, j - 1)
    ensures i > 0 && j > 0 ==> Applicable(Replace(i - 1, b[j - 1]), Stage(a, b, i, j))
    ensures i > 0 && j > 0 ==> EditCost(m, Replace(i - 1, b[j - 1]), Stage(a, b, i, j)) == m.Sub(a[i - 1], b[j - 1])
    ensures forall e: Edit :: Applicable(e, Stage(a, b, i, j)) && !e.Replace? ==> EditCost(m, e, Stage(a, b, i, j)) == m.gap
    ensures i > 0 && j > 0 ==> Apply(Replace(i - 1, b[j - 1]), Stage(a, b, i, j)) == Stage(a, b, i - 1, j - 1)
  {
  }

  lemma EmptyScript(m: Costs, a: string, b: string)
    ensures Transforms([], Stage(a, b, 0, 0), b) && ScriptCost(m, [], Stage(a, b, 0, 0), b) == 0
  {
  }

  // Follows the optimal alignment from its end.
  lemma {:induction false} CheapestScript(m: Costs, a: string, b: string, i: nat, j: nat) returns (script: seq<Edit>)
    requires i <= |a| && j <= |b|
    ensures Transforms(script, Stage(a, b, i, j), b)
    ensures ScriptCost(m, script, Stage(a, b, i, j), b) == Dist(m, a, b, i, j)
    decreases i + j
  {
    hide Dist, Transforms, ScriptCost, EditCost, Apply, Applicable, Stage;
    LastEdit(m, a, b, i, j);
    StageStep(m, a, b, i, j);
    EmptyScript(m, a, b);
    script := [];
    if i > 0 && Dist(m, a, b, i, j) == Dist(m, a, b, i - 1, j) + m.gap {
      var rest := CheapestScript(m, a, b, i - 1, j);
      script := Prepend(m, Delete(i - 1), rest, Stage(a, b, i, j), Stage(a, b, i - 1, j), b);
    } else if j > 0 && Dist(m, a, b, i, j) == Dist(m, a, b, i, j - 1) + m.gap {
      var rest := CheapestScript(m, a, b, i, j - 1);
      script := Prepend(m, Insert(i, b[j - 1]), rest, Stage(a, b, i, j), Stage(a, b, i, j - 1), b);
    } else if i > 0 && j > 0 {
      var rest := CheapestScript(m, a, b, i - 1, j - 1);
      script := Prepend(m, Replace(i - 1, b[j - 1]), rest, Stage(a, b, i, j), Stage(a, b, i - 1, j - 1), b);
    }
  }

  // The distance is the minimum cost over all edit scripts, and the minimum is attained.
  lemma DistanceIsCheapestScript(m: Costs, s: string, t: string)
    ensures forall script :: Transforms(script, s, t) ==> Distance(m, s, t) <= ScriptCost(m, script, s, t)
    ensures exists script :: Transforms(script, s, t) && ScriptCost(m, script, s, t) == Distance(m, s, t)
  {
    forall script | Transforms(script, s, t)
      ensures Distance(m, s, t) <= ScriptCost(m, script, s, t)
    {
      ScriptsCostAtLeastDistance(m, script, s, t);
    }
    var best := CheapestScript(m, s, t, |s|, |t|);
    assert Stage(s, t, |s|, |t|) == s;
  }

  /* ---------- Plain and weighted distance bound each other ---------- */

  lemma {:induction false} WeightedBounds(kb: Keyboard, a: string, b: string, i: nat, j: nat)
    requires i <= |a| && j <= |b|
    ensures Dist(Plain, a, b, i, j) <= Dist(Weighted(kb), a, b, i, j) <= 2 * Dist(Plain, a, b, i, j)
    decreases i + j
  {
    hide Dist;
    LastEdit(Plain, a, b, i, j);
    LastEdit(Weighted(kb), a, b, i, j);
    if i > 0 {
      WeightedBounds(kb, a, b, i - 1, j);
    }
    if j > 0 {
      WeightedBounds(kb, a, b, i, j - 1);
    }
    if i > 0 && j > 0 {
      WeightedBounds(kb, a, b, i - 1, j - 1);
    }
  }

  /* ---------- The row-minimum argument ---------- */

  // Once a whole row exceeds the limit every later row does.
  lemma {:induction false} RowStaysAbove(m: Costs, a: string, b: string, x: nat, x': nat, y: nat, limit: int)
    requires x <= x' <= |b| && y <= |a|
    requires forall k :: 0 <= k <= |a| ==> Dist(m, a, b, k, x) > limit
    ensures Dist(m, a, b, y, x') > limit
    decreases x' - x, y
  {
    if x < x' {
      RowStaysAbove(m, a, b, x, x' - 1, y, limit);
      if y > 0 {
        RowStaysAbove(m, a, b, x, x' - 1, y - 1, limit);
        RowStaysAbove(m, a, b, x, x', y - 1, limit);
      }
    }
  }

  // The recurrence the inner loop runs.
  lemma Cell(m: Costs, a: string, b: string, y: nat, x: nat)
    requires 1 <= y <= |a| && 1 <= x <= |b|
    ensures Dist(m, a, b, y, x) == MinInt(Dist(m, a, b, y, x - 1) + m.gap,
                                          Dist(m, a, b, y - 1, x) + m.gap,
                                          Dist(m, a, b, y - 1, x - 1) + m.Sub(a[y - 1], b[x - 1]))
  {
  }

  /* ---------- The in-place dynamic program ---------- */

  // Takes a pooled buffer with arbitrary stale contents, or a new one when it is too small.
  method TakeColumn(m: Costs, a: string, b: string, pool: array<int>) returns (column: array<int>)
    requires |a| > 0
    modifies pool
    ensures column == pool || fresh(column)
    ensures column.Length > |a|
    ensures forall y :: 1 <= y <= |a| ==> column[y] == Dist(m, a, b, y, 0)
  {
    if pool.Length < |a| + 1 {
      column := new int[|a| + 1];
    } else {
      column := pool;
    }
    hide Dist;
    for y := 1 to |a| + 1
      invariant forall k :: 1 <= k < y ==> column[k] == Dist(m, a, b, k, 0)
    {
      column[y] := m.Gaps(y);
      EmptyColumn(m, a, b, y);
    }
  }

  // LevenshteinDistance and WeightedLevenshteinDistance.
  method Levenshtein(m: Costs, r1: string, r2: string, pool: array<int>) returns (d: int)
    modifies pool
    ensures d == Distance(m, r1, r2)
  {
    hide Dist;
    if |r1| == 0 {
      EmptyRow(m, r1, r2, |r2|);
      return m.Gaps(|r2|);
    }
    if |r2| == 0 {
      EmptyColumn(m, r1, r2, |r1|);
      return m.Gaps(|r1|);
    }
    var column := TakeColumn(m, r1, r2, pool);
    var len1, x := |r1|, 1;
    while x <= |r2|
      invariant 1 <= x <= |r2| + 1
      invariant forall y :: 1 <= y <= len1 ==> column[y] == Dist(m, r1, r2, y, x - 1)
    {
      column[0] := m.Gaps(x);
      EmptyRow(m, r1, r2, x);
      EmptyRow(m, r1, r2, x - 1);
      var lastkey := m.Gaps(x - 1);
      for y := 1 to len1 + 1
        invariant forall k :: 0 <= k < y ==> column[k] == Dist(m, r1, r2, k, x)
        invariant forall k :: y <= k <= len1 ==> column[k] == Dist(m, r1, r2, k, x - 1)
        invariant lastkey == Dist(m, r1, r2, y - 1, x - 1)
      {
        Cell(m, r1, r2, y, x);
        var oldkey := column[y];
        var incr := m.Sub(r1[y - 1], r2[x - 1]);
        column[y] := MinInt(column[y] + m.gap, column[y - 1] + m.gap, lastkey + incr);
        lastkey := oldkey;
      }
      x := x + 1;
    }
    d := column[len1];
  }

  // LevenshteinDistanceCapped and WeightedLevenshteinDistanceCapped.
  method LevenshteinCapped(m: Costs, r1: string, r2: string, limit: int, pool: array<int>) returns (d: int)
    modifies pool
    ensures r1 == "" || r2 == "" ==> d == Distance(m, r1, r2)
    ensures r1 != "" && r2 != "" ==>
              d == if Distance(m, r1, r2) <= limit then Distance(m, r1, r2) else limit + m.gap
  {
    hide Dist;
    if |r1| == 0 {
      EmptyRow(m, r1, r2, |r2|);
      return m.Gaps(|r2|);
    }
    if |r2| == 0 {
      EmptyColumn(m, r1, r2, |r1|);
      return m.Gaps(|r1|);
    }
    var column := TakeColumn(m, r1, r2, pool);
    var len1, x := |r1|, 1;
    while x <= |r2|
      invariant 1 <= x <= |r2| + 1
      invariant forall y :: 1 <= y <= len1 ==> column[y] == Dist(m, r1, r2, y, x - 1)
    {
      column[0] := m.Gaps(x);
      EmptyRow(m, r1, r2, x);
      EmptyRow(m, r1, r2, x - 1);
      var lastkey := m.Gaps(x - 1);
      var rowMin := m.Gaps(x);
      for y := 1 to len1 + 1
        invariant forall k :: 0 <= k < y ==> column[k] == Dist(m, r1, r2, k, x) && rowMin <= column[k]
        invariant forall k :: y <= k <= len1 ==> column[k] == Dist(m, r1, r2, k, x - 1)
        invariant lastkey == Dist(m, r1, r2, y - 1, x - 1)
      {
        Cell(m, r1, r2, y, x);
        var oldkey := column[y];
        var incr := m.Sub(r1[y - 1], r2[x - 1]);
        column[y] := MinInt(column[y] + m.gap, column[y - 1] + m.gap, lastkey + incr);
        if column[y] < rowMin {
          rowMin := column[y];
        }
        lastkey := oldkey;
      }
      if rowMin > limit {
        RowStaysAbove(m, r1, r2, x, |r2|, len1, limit);
        return limit + m.gap;
      }
      x := x + 1;
    }
    if column[len1] > limit {
      return limit + m.gap;
    }
    d := column[len1];
  }

  /* ---------- What the cap means to its callers ---------- */

  // What the capped methods return for non-empty strings.
  function Capped(m: Costs, a: string, b: string, limit: int): int {
    if a == "" || b == "" then Distance(m, a, b)
    else if Distance(m, a, b) <= limit then Distance(m, a, b) else limit + m.gap
  }

  // The plain cap is min(distance, limit + 1); the weighted cap is limit + 1.0 even when the
  // distance lies strictly between limit and limit + 1.0.
  lemma CapIsMinimum(m: Costs, a: string, b: string, limit: int)
    requires a != "" && b != ""
    ensures Capped(m, a, b, limit) == (if Distance(m, a, b) < limit + m.gap then Distance(m, a, b) else limit + m.gap)
       <==> !(limit < Distance(m, a, b) < limit + m.gap)
    ensures m.Plain? ==> Capped(m, a, b, limit) == MinInt(Distance(m, a, b), limit + 1, limit + 1)
  {
  }

  lemma WeightedCapOvershoots(kb: Keyboard, a: char, b: char)
    requires a != b && kb.Adjacent(a, b)
    ensures Distance(Weighted(kb), [a], [b]) == 1
    ensures Capped(Weighted(kb), [a], [b], 0) == 2
  {
    assert Dist(Weighted(kb), [a], [b], 0, 0) == 0;
    assert Dist(Weighted(kb), [a], [b], 1, 0) == 2;
    assert Dist(Weighted(kb), [a], [b], 0, 1) == 2;
  }

  // A threshold test against any t <= limit cannot tell the capped distance from the full one.
  lemma CapKeepsDecision(m: Costs, a: string, b: string, limit: int, t: int)
    requires 0 <= limit && t <= limit
    ensures 0 < Capped(m, a, b, limit) <= t <==> 0 < Distance(m, a, b) <= t
  {
  }

  /* ---------- The call sites in the spoof check ---------- */

  const SHORT_BRAND_MAX_LEN := 4

  datatype Typosquat = NoTyposquat | KeyboardTyposquat | ClassicTyposquat

  // Thresholds in half-units and in edits.
  function MaxWeighted(minLen: nat): nat { if minLen <= SHORT_BRAND_MAX_LEN then 2 else 3 }
  function MaxPlain(minLen: nat): nat { if minLen <= SHORT_BRAND_MAX_LEN then 1 else 2 }

  // The decision stated with uncapped distances.
  function TyposquatVerdict(kb: Keyboard, name: string, brand: string, minLen: nat): Typosquat {
    if minLen < 4 then NoTyposquat
    else if 0 < Distance(Weighted(kb), name, brand) <= MaxWeighted(minLen) then KeyboardTyposquat
    else if 0 < Distance(Plain, name, brand) <= MaxPlain(minLen) then ClassicTyposquat
    else NoTyposquat
  }

  // Steps B and C of the check for one label `name`; minLen is the smaller byte length of the two names.
  method CheckTyposquat(kb: Keyboard, name: string, brand: string, minLen: nat,
                        floatPool: array<int>, intPool: array<int>) returns (verdict: Typosquat)
    modifies floatPool, intPool
    ensures verdict == TyposquatVerdict(kb, name, brand, minLen)
  {
    if minLen < 4 {
      return NoTyposquat;
    }
    var maxWDist, maxDist := 3, 2;
    if minLen <= SHORT_BRAND_MAX_LEN {
      maxWDist, maxDist := 2, 1;
    }
    var wDist := LevenshteinCapped(Weighted(kb), name, brand, maxWDist, floatPool);
    CapKeepsDecision(Weighted(kb), name, brand, maxWDist, maxWDist);
    if wDist > 0 && wDist <= maxWDist {
      return KeyboardTyposquat;
    }
    var dist := LevenshteinCapped(Plain, name, brand, maxDist, intPool);
    CapKeepsDecision(Plain, name, brand, maxDist, maxDist);
    if dist > 0 && dist <= maxDist {
      return ClassicTyposquat;
    }
    return NoTyposquat;
  }

  // For short names the classic check can never fire after the keyboard check; for longer ones
  // it fires exactly on two full edits that no keyboard slip makes cheaper.
  lemma ClassicVerdictExactly(kb: Keyboard, name: string, brand: string, minLen: nat)
    ensures TyposquatVerdict(kb, name, brand, minLen) == ClassicTyposquat
       <==> minLen > SHORT_BRAND_MAX_LEN
            && Distance(Plain, name, brand) == 2 && Distance(Weighted(kb), name, brand) == 4
  {
    WeightedBounds(kb, name, brand, |name|, |brand|);
    DistanceIsMetric(Weighted(kb), name, brand, brand);
    DistanceIsMetric(Plain, name, brand, brand);
  }

  // When each verdict falls, in half edits for the keyboard distance: names below four characters are
  // never compared, those of four must be within one edit, longer ones within one and a half, or two
  // plain edits.
  lemma VerdictExactly(kb: Keyboard, name: string, brand: string, minLen: nat)
    ensures TyposquatVerdict(kb, name, brand, minLen) == KeyboardTyposquat
       <==> name != brand && ((minLen == 4 && Distance(Weighted(kb), name, brand) <= 2)
                              || (minLen > 4 && Distance(Weighted(kb), name, brand) <= 3))
    ensures TyposquatVerdict(kb, name, brand, minLen) == ClassicTyposquat
       <==> minLen > 4 && Distance(Weighted(kb), name, brand) > 3
            && Distance(Plain, name, brand) == 2
  {
    WeightedBounds(kb, name, brand, |name|, |brand|);
    DistanceIsMetric(Weighted(kb), name, brand, brand);
    DistanceIsMetric(Plain, name, brand, brand);
  }

  // What single edits cost: nothing for the same key, half an edit for a neighbouring one in the keyboard
  // distance, a whole one for any other, and a whole one for each key more or less.
  lemma SingleEdits(kb: Keyboard, a: char, b: char)
    ensures Distance(Plain, [a], [b]) == if a == b then 0 else 1
    ensures Distance(Weighted(kb), [a], [b]) == if a == b then 0 else if kb.Adjacent(a, b) then 1 else 2
    ensures Distance(Plain, [a], "") == Distance(Plain, "", [a]) == 1
    ensures Distance(Weighted(kb), [a], "") == Distance(Weighted(kb), "", [a]) == 2
  {
    SingleCosts(Plain, a, b);
    SingleCosts(Weighted(kb), a, b);
  }

  lemma SingleCosts(m: Costs, a: char, b: char)
    ensures Distance(m, [a], [b]) == MinInt(m.gap + m.gap, m.gap + m.gap, m.Sub(a, b))
    ensures Distance(m, [a], "") == Distance(m, "", [a]) == m.gap
  {
    EmptyRow(m, "", [a], 1);
    EmptyColumn(m, [a], "", 1);
    EmptyRow(m, [a], [b], 1);
    EmptyRow(m, [a], [b], 0);
    EmptyColumn(m, [a], [b], 1);
    Cell(m, [a], [b], 1, 1);
  }

  // Keys are neighbours when one is listed next to the other, in whichever order and case.
  lemma NeighboursAreListed(kb: Keyboard, a: char, b: char)
    ensures kb.Adjacent(a, b) <==>
              exists x, y :: {kb.lower(a), kb.lower(b)} == {x, y} && x in kb.adjacency && y in kb.adjacency[x]
                             && (x == y ==> kb.lower(a) == kb.lower(b))
  {
    var (x, y) := (kb.lower(a), kb.lower(b));
    assert {x, y} == {y, x};
  }
}
