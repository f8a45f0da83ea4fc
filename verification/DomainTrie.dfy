/**
 The domain trie object of internal/domaintrie/trie.go: nodes with sorted children found by binary
 search and one exact and one suffix slot each.  Its methods are proved to read and update the
 table of TrieTable.dfy.

 `nodes` maps every label path to its node and `kids` repeats the children, so that the shape of
 the tree is a statement about values; `Valid` ties both to the heap.
 */
module DomainTrie {
  import opened Text
  import opened TrieRules
  import opened TrieTable

  datatype Child = Child(name: string, node: Node)

  predicate Sorted(cs: seq<Child>) {
    forall i, j :: 0 <= i < j < |cs| ==> Less(cs[i].name, cs[j].name)
  }

  class Node {
    var children: seq<Child>
    var exact: Option<Rule>
    var suffix: Option<Rule>

    constructor ()
      ensures children == [] && exact == None && suffix == None
    {
      children, exact, suffix := [], None, None;
    }

    // findChild
    method FindChild(name: string) returns (child: Option<Node>)
      requires Sorted(children)
      ensures match child
              case None => forall c :: c in children ==> c.name != name
              case Some(n) => Child(name, n) in children
    {
      var lo, hi := 0, |children| - 1;
      while lo <= hi
        invariant 0 <= lo <= hi + 1 <= |children|
        invariant forall i :: 0 <= i < lo ==> Less(children[i].name, name)
        invariant forall i :: hi < i < |children| ==> Less(name, children[i].name)
      {
        var mid := (lo + hi) / 2;
        LessIsStrict(children[mid].name, name);
        Around(children, name, mid);
        if Less(children[mid].name, name) {
          lo := mid + 1;
        } else if Less(name, children[mid].name) {
          hi := mid - 1;
        } else {
          return Some(children[mid].node);
        }
      }
      LessIsStrict(name, name);
      return None;
    }

    // addChild
    method AddChild(name: string) returns (child: Node, ghost at: nat)
      requires Sorted(children)
      modifies this
      ensures Sorted(children) && exact == old(exact) && suffix == old(suffix)
      ensures at < |children| && children[at] == Child(name, child)
      ensures children == old(children)
           || (&& fresh(child) && child.children == [] && child.exact == None && child.suffix == None
               && at <= |old(children)| && children == old(children)[..at] + [Child(name, child)] + old(children)[at..]
               && forall c :: c in old(children) ==> c.name != name)
    {
      var lo, hi := 0, |children| - 1;
      while lo <= hi
        invariant unchanged(this)
        invariant 0 <= lo <= hi + 1 <= |children|
        invariant forall i :: 0 <= i < lo ==> Less(children[i].name, name)
        invariant forall i :: hi < i < |children| ==> Less(name, children[i].name)
      {
        var mid := (lo + hi) / 2;
        LessIsStrict(children[mid].name, name);
        Around(children, name, mid);
        if Less(children[mid].name, name) {
          lo := mid + 1;
        } else if Less(name, children[mid].name) {
          hi := mid - 1;
        } else {
          return children[mid].node, mid;
        }
      }
      LessIsStrict(name, name);
      child := new Node();
      children := children[..lo] + [Child(name, child)] + children[lo..];
      at := lo;
    }
  }

  // The middle element decides for everything on its far side.
  lemma Around(cs: seq<Child>, name: string, mid: nat)
    requires Sorted(cs) && mid < |cs|
    ensures Less(cs[mid].name, name) ==> forall i :: 0 <= i <= mid ==> Less(cs[i].name, name)
    ensures Less(name, cs[mid].name) ==> forall i :: mid <= i < |cs| ==> Less(name, cs[i].name)
  {
    if Less(cs[mid].name, name) {
      forall i | 0 <= i < mid
        ensures Less(cs[i].name, name)
      {
        LessTransitive(cs[i].name, cs[mid].name, name);
      }
    }
    if Less(name, cs[mid].name) {
      forall i | mid < i < |cs|
        ensures Less(name, cs[i].name)
      {
        LessTransitive(name, cs[mid].name, cs[i].name);
      }
    }
  }

  /* ---------- The shape of the tree, as values ---------- */

  type Nodes = map<seq<string>, Node>
  type Kids = map<seq<string>, seq<Child>>

  // The children of path p lead to the nodes of the longer paths.
  ghost predicate Leads(nodes: Nodes, p: seq<string>, cs: seq<Child>) {
    Sorted(cs) && forall c :: c in cs ==> p + [c.name] in nodes && nodes[p + [c.name]] == c.node
  }

  // A node other than the root hangs off its parent.
  ghost predicate Hangs(nodes: Nodes, kids: Kids, p: seq<string>)
    requires p in nodes
  {
    p != [] ==>
      var parent := p[..|p| - 1];
      parent in nodes && parent in kids && Child(p[|p| - 1], nodes[p]) in kids[parent]
  }

  datatype Shape = Shape(nodes: Nodes, kids: Kids, height: nat)

  ghost predicate Tree(nodes: Nodes, kids: Kids, height: nat)
  {
    && [] in nodes && nodes.Keys == kids.Keys
    && (forall p, q :: p in nodes && q in nodes && nodes[p] == nodes[q] ==> p == q)
    && (forall p :: p in nodes ==> |p| <= height && Hangs(nodes, kids, p))
    && (forall p :: p in kids ==> Leads(nodes, p, kids[p]))
  }

  lemma {:induction false} PrefixesExist(nodes: Nodes, kids: Kids, height: nat, p: seq<string>, n: nat)
    requires Tree(nodes, kids, height) && p in nodes && n <= |p|
    ensures p[..n] in nodes
    decreases |p|
  {
    if n < |p| {
      PrefixesExist(nodes, kids, height, p[..|p| - 1], n);
      assert p[..|p| - 1][..n] == p[..n];
    } else {
      assert p[..n] == p;
    }
  }

  function At(t: Table, p: seq<string>, exact: bool): Option<Rule> {
    if Slot(p, exact) in t then Some(t[Slot(p, exact)]) else None
  }

  function Slots(t: Table, exact: bool): set<Slot> {
    set k | k in t && k.exact == exact
  }

  lemma FreshPath(nodes: Nodes, kids: Kids, height: nat, p: seq<string>, name: string)
    requires Tree(nodes, kids, height) && p in nodes
    requires forall c :: c in kids[p] ==> c.name != name
    ensures p + [name] !in nodes
  {
    var q := p + [name];
    assert q[..|q| - 1] == p && q[|q| - 1] == name;
    assert q in nodes ==> Hangs(nodes, kids, q);
  }

  lemma LeadsGrows(nodes: Nodes, p: seq<string>, cs: seq<Child>, q: seq<string>, child: Node)
    requires Leads(nodes, p, cs) && q !in nodes
    ensures Leads(nodes[q := child], p, cs)
  {
  }

  lemma LeadsInsert(nodes: Nodes, p: seq<string>, cs: seq<Child>, name: string, child: Node, cs': seq<Child>, at: nat)
    requires Leads(nodes, p, cs) && p + [name] !in nodes && Sorted(cs')
    requires at <= |cs| && cs' == cs[..at] + [Child(name, child)] + cs[at..]
    ensures Leads(nodes[p + [name] := child], p, cs')
    ensures Child(name, child) in cs' && forall c :: c in cs ==> c in cs'
  {
    assert cs'[at] == Child(name, child);
    forall c | c in cs
      ensures c in cs'
    {
      var k :| 0 <= k < |cs| && cs[k] == c;
      assert cs'[if k < at then k else k + 1] == c;
    }
    assert forall c :: c in cs' ==> c in cs || c == Child(name, child);
  }

  lemma HangsGrows(nodes: Nodes, kids: Kids, p: seq<string>, name: string, child: Node, cs': seq<Child>, r: seq<string>)
    requires p in nodes && p in kids && r in nodes && Hangs(nodes, kids, r) && p + [name] !in nodes
    requires forall c :: c in kids[p] ==> c in cs'
    ensures Hangs(nodes[p + [name] := child], kids[p := cs'][p + [name] := []], r)
  {
    if r != [] {
      var parent := r[..|r| - 1];
      assert parent != p + [name];
    }
  }

  // Hanging a new node under p keeps the shape.
  lemma TreeGrows(nodes: Nodes, kids: Kids, height: nat, p: seq<string>, name: string, child: Node, cs': seq<Child>,
                  at: nat)
    requires Tree(nodes, kids, height) && p in nodes && forall r :: r in nodes ==> nodes[r] != child
    requires Sorted(cs') && at <= |kids[p]| && cs' == kids[p][..at] + [Child(name, child)] + kids[p][at..]
    requires forall c :: c in kids[p] ==> c.name != name
    ensures p + [name] !in nodes
    ensures Tree(nodes[p + [name] := child], kids[p := cs'][p + [name] := []], if |p| < height then height else |p| + 1)
  {
    hide Leads, Hangs;
    FreshPath(nodes, kids, height, p, name);
    var q := p + [name];
    LeadsInsert(nodes, p, kids[p], name, child, cs', at);
    var nodes', kids' := nodes[q := child], kids[p := cs'][q := []];
    forall r | r in nodes'
      ensures Hangs(nodes', kids', r)
    {
      if r == q {
        NewHangs(nodes', kids', p, name);
      } else {
        HangsGrows(nodes, kids, p, name, child, cs', r);
      }
    }
    forall r | r in kids'
      ensures Leads(nodes', r, kids'[r])
    {
      if r == q {
        NoKids(nodes', q);
      } else if r != p {
        LeadsGrows(nodes, r, kids[r], q, child);
      }
    }
  }

  lemma NewHangs(nodes: Nodes, kids: Kids, p: seq<string>, name: string)
    requires p in nodes && p in kids && p + [name] in nodes && Child(name, nodes[p + [name]]) in kids[p]
    ensures Hangs(nodes, kids, p + [name])
  {
    var q := p + [name];
    assert q[..|q| - 1] == p && q[|q| - 1] == name;
  }

  lemma NoKids(nodes: Nodes, p: seq<string>)
    ensures Leads(nodes, p, [])
  {
  }

  lemma TreeFacts(nodes: Nodes, kids: Kids, height: nat, p: seq<string>)
    requires Tree(nodes, kids, height) && p in nodes
    ensures p in kids && Sorted(kids[p]) && |p| <= height && [] in nodes && nodes.Keys == kids.Keys
    ensures forall q :: q in nodes && nodes[q] == nodes[p] ==> q == p
  {
    assert Leads(nodes, p, kids[p]);
  }

  lemma EdgeLeads(nodes: Nodes, kids: Kids, height: nat, p: seq<string>, c: Child)
    requires Tree(nodes, kids, height) && p in nodes && p in kids && c in kids[p]
    ensures p + [c.name] in nodes && nodes[p + [c.name]] == c.node
  {
    assert Leads(nodes, p, kids[p]);
  }

  lemma NewPath(p: seq<string>, name: string)
    ensures p + [name] != p && p + [name] != []
  {
    assert |p + [name]| == |p| + 1;
  }

  lemma AtNew(t: Table, nodes: Nodes, q: seq<string>)
    requires forall k :: k in t ==> k.path in nodes
    ensures q !in nodes ==> At(t, q, true) == None && At(t, q, false) == None
  {
  }

  lemma RecordFacts(nodes: Nodes, kids: Kids, height: nat, t: Table, p: seq<string>, name: string, child: Node,
                    cs': seq<Child>, at: nat)
    requires Tree(nodes, kids, height) && p in nodes && forall r :: r in nodes ==> nodes[r] != child
    requires Sorted(cs') && at <= |kids[p]| && cs' == kids[p][..at] + [Child(name, child)] + kids[p][at..]
    requires forall c :: c in kids[p] ==> c.name != name
    requires forall k :: k in t ==> k.path in nodes
    ensures var q := p + [name];
            && q !in nodes && q != [] && q != p && At(t, q, true) == None && At(t, q, false) == None
            && Tree(nodes[q := child], kids[p := cs'][q := []], if |p| < height then height else |p| + 1)
  {
    hide Tree;
    FreshPath(nodes, kids, height, p, name);
    TreeGrows(nodes, kids, height, p, name, child, cs', at);
    NewPath(p, name);
    AtNew(t, nodes, p + [name]);
  }

  lemma RootNode(nodes: Nodes, kids: Kids, height: nat)
    requires Tree(nodes, kids, height)
    ensures [] in nodes
  {
  }

  lemma PathOfNothing()
    ensures Path("") == []
  {
  }

  // One turn of the loop that splits off the last label.
  lemma PathUnfolds(domain: string, end: nat)
    requires 0 < end <= |domain|
    ensures var start := LastDot(domain[..end]);
            Path(domain[..end])
              == (if domain[start + 1..end] == "" then [] else [domain[start + 1..end]])
                 + Path(domain[..if start < 0 then 0 else start])
  {
    hide Path, LastDot;
    var d := domain[..end];
    var start := LastDot(d);
    LastLabel(d);
    assert d[start + 1..] == domain[start + 1..end];
    assert d[..if start < 0 then 0 else start] == domain[..if start < 0 then 0 else start];
  }

  lemma LastLabel(d: string)
    requires d != ""
    ensures var start := LastDot(d);
            Path(d) == (if d[start + 1..] == "" then [] else [d[start + 1..]])
                       + Path(d[..if start < 0 then 0 else start])
  {
    hide LastDot;
    assert d[..0] == "";
    var start := LastDot(d);
    if start < 0 {
      assert d[start + 1..] == d;
    }
  }

  lemma AtStored(t: Table, r: Rule, q: seq<string>, exact: bool)
    ensures At(t[SlotOf(r) := r], q, exact) == if Slot(q, exact) == SlotOf(r) then Some(r) else At(t, q, exact)
  {
  }

  lemma PlacedStored(t: Table, r: Rule)
    requires Placed(t) && (r.scope == EXACT || r.scope == SUFFIX)
    ensures Placed(t[SlotOf(r) := r])
  {
    hide Path;
  }

  lemma SlotsGrow(t: Table, r: Rule)
    requires SlotOf(r) !in t
    ensures |Slots(t[SlotOf(r) := r], true)| == |Slots(t, true)| + (if r.scope == EXACT then 1 else 0)
    ensures |Slots(t[SlotOf(r) := r], false)| == |Slots(t, false)| + (if r.scope == EXACT then 0 else 1)
  {
    SlotsAdd(t, SlotOf(r), r, true);
    SlotsAdd(t, SlotOf(r), r, false);
  }

  lemma SlotsAdd(t: Table, k: Slot, r: Rule, exact: bool)
    requires k !in t
    ensures |Slots(t[k := r], exact)| == |Slots(t, exact)| + if k.exact == exact then 1 else 0
  {
    assert Slots(t[k := r], exact) == if k.exact == exact then Slots(t, exact) + {k} else Slots(t, exact);
  }

  // sanitizeDomain
  method SanitizeDomain(domain: string) returns (r: string)
    ensures r == Sanitize(domain)
  {
    r := domain;
    while "*." <= r
      invariant StripWildcards(r) == StripWildcards(domain)
      decreases |r|
    {
      r := r[2..];
    }
    if '*' in r {
      r := "";
    }
  }

  // The double-dot loop of AddRule.
  method CollapseDots(domain: string) returns (r: string)
    ensures r == Collapse(domain)
  {
    r := domain;
    while HasDoubleDot(r)
      invariant Collapse(r) == Collapse(domain)
      decreases |r|
    {
      HalveDotsShrinks(r);
      r := HalveDots(r);
    }
  }

  // The result of a lookup: the rule that fired and the form of the query that found it.
  datatype MatchDetail = NoMatch | Match(rule: Rule, query: string)

  function Detail(env: Env, t: Table, domain: string): MatchDetail {
    var query := NormalizeDomain(env, domain);
    if query == "" then NoMatch
    else match Best(t, Path(query))
      case None => NoMatch
      case Some(r) => Match(r, query)
  }

  lemma DeepestStep(t: Table, q: seq<string>, n: nat)
    requires 0 < n <= |q|
    ensures Deepest(t, q, n) == if At(t, q[..n], false) == None then Deepest(t, q, n - 1) else At(t, q[..n], false)
  {
  }

  lemma BestIs(t: Table, q: seq<string>)
    ensures Best(t, q) == if At(t, q, true) != None then At(t, q, true) else Deepest(t, q, |q|)
    ensures Slot(q, true) !in t ==> At(t, q, true) == None
  {
  }

  lemma NextLabel(q: seq<string>, n: nat, name: string, rest: seq<string>)
    requires n <= |q| && q[n..] == [name] + rest
    ensures n < |q| && q[n] == name && q[n + 1..] == rest
  {
    assert q[n] == q[n..][0];
    assert q[n + 1..] == q[n..][1..];
  }

  // Where a label has no child, no longer path has a node, so no deeper rule exists.
  lemma NothingBelow(shape: Shape, t: Table, q: seq<string>, n: nat)
    requires Tree(shape.nodes, shape.kids, shape.height) && n < |q| && q[..n] in shape.nodes
    requires q[..n] in shape.kids && forall c :: c in shape.kids[q[..n]] ==> c.name != q[n]
    requires forall k :: k in t ==> k.path in shape.nodes
    ensures Slot(q, true) !in t && Deepest(t, q, |q|) == Deepest(t, q, n)
  {
    hide Tree, Deepest;
    assert q[..n + 1] == q[..n] + [q[n]];
    FreshPath(shape.nodes, shape.kids, shape.height, q[..n], q[n]);
    forall m | n < m <= |q|
      ensures q[..m] !in shape.nodes
    {
      NoLongerPath(shape, q, n, m);
    }
    assert q[..|q|] == q;
    SkipEmpty(t, q, n, |q|);
  }

  lemma NoLongerPath(shape: Shape, q: seq<string>, n: nat, m: nat)
    requires Tree(shape.nodes, shape.kids, shape.height) && n < m <= |q| && q[..n + 1] !in shape.nodes
    ensures q[..m] !in shape.nodes
  {
    hide Tree;
    assert q[..m][..n + 1] == q[..n + 1];
    if q[..m] in shape.nodes {
      PrefixesExist(shape.nodes, shape.kids, shape.height, q[..m], n + 1);
    }
  }

  lemma {:induction false} SkipEmpty(t: Table, q: seq<string>, n: nat, m: nat)
    requires n <= m <= |q| && forall j :: n < j <= m ==> Slot(q[..j], false) !in t
    ensures Deepest(t, q, m) == Deepest(t, q, n)
  {
    if n < m {
      SkipEmpty(t, q, n, m - 1);
    }
  }

  /* ---------- The order of a walk ---------- */

  // Parents before children, siblings by label.
  predicate PathBefore(p: seq<string>, q: seq<string>) {
    q != [] && (p == [] || Less(p[0], q[0]) || (p[0] == q[0] && PathBefore(p[1..], q[1..])))
  }

  // On one path, exact before suffix.
  predicate Before(a: Slot, b: Slot) {
    PathBefore(a.path, b.path) || (a.path == b.path && a.exact && !b.exact)
  }

  // rules are the table's rules for the slots, which come in order.
  ghost predicate Visits(t: Table, rules: seq<Rule>, slots: seq<Slot>) {
    && |rules| == |slots|
    && (forall i :: 0 <= i < |slots| ==> slots[i] in t && rules[i] == t[slots[i]])
    && (forall i, j :: 0 <= i < j < |slots| ==> Before(slots[i], slots[j]))
  }

  // The rules of the whole table, slot by slot in walk order.
  ghost predicate InWalkOrder(t: Table, rules: seq<Rule>) {
    exists slots :: Visits(t, rules, slots) && forall k :: k in slots <==> k in t
  }

  function OwnSlots(t: Table, p: seq<string>): seq<Slot> {
    (if Slot(p, true) in t then [Slot(p, true)] else []) + (if Slot(p, false) in t then [Slot(p, false)] else [])
  }

  function OwnRules(t: Table, p: seq<string>): seq<Rule> {
    (if At(t, p, true) == None then [] else [At(t, p, true).value])
    + (if At(t, p, false) == None then [] else [At(t, p, false).value])
  }

  lemma VisitsOwn(t: Table, p: seq<string>)
    ensures Visits(t, OwnRules(t, p), OwnSlots(t, p))
    ensures forall k :: k in OwnSlots(t, p) <==> k in t && k.path == p
  {
  }

  // path runs through one of the children.
  ghost predicate BelowFirst(cs: seq<Child>, p: seq<string>, path: seq<string>) {
    exists i :: 0 <= i < |cs| && p + [cs[i].name] <= path
  }

  lemma BelowStep(cs: seq<Child>, p: seq<string>, i: nat)
    requires i < |cs|
    ensures forall path :: BelowFirst(cs[..i + 1], p, path) <==> BelowFirst(cs[..i], p, path) || p + [cs[i].name] <= path
  {
    forall path
      ensures BelowFirst(cs[..i + 1], p, path) <==> BelowFirst(cs[..i], p, path) || p + [cs[i].name] <= path
    {
      if BelowFirst(cs[..i], p, path) {
        var j :| 0 <= j < i && p + [cs[..i][j].name] <= path;
        assert p + [cs[..i + 1][j].name] <= path;
      }
      if p + [cs[i].name] <= path {
        assert p + [cs[..i + 1][i].name] <= path;
      }
      if BelowFirst(cs[..i + 1], p, path) {
        var j :| 0 <= j < i + 1 && p + [cs[..i + 1][j].name] <= path;
        assert j < i ==> p + [cs[..i][j].name] <= path;
      }
    }
  }

  lemma {:induction false} CommonPrefix(p: seq<string>, x: seq<string>, y: seq<string>)
    ensures PathBefore(p + x, p + y) <==> PathBefore(x, y)
    decreases |p|
  {
    if p == [] {
      assert p + x == x && p + y == y;
    } else {
      LessIsStrict(p[0], p[0]);
      assert (p + x)[1..] == p[1..] + x && (p + y)[1..] == p[1..] + y;
      CommonPrefix(p[1..], x, y);
    }
  }

  lemma SiblingBefore(p: seq<string>, a: seq<string>, b: seq<string>, name: string)
    requires p + [name] <= b && (a == p || exists n :: p + [n] <= a && Less(n, name))
    ensures PathBefore(a, b)
  {
    assert p <= a && a == p + a[|p|..] && b == p + b[|p|..];
    assert b[|p|] == (p + [name])[|p|] == name;
    CommonPrefix(p, a[|p|..], b[|p|..]);
    if a != p {
      var n :| p + [n] <= a && Less(n, name);
      assert a[|p|] == (p + [n])[|p|] == n;
    }
  }

  lemma ChildrenInOrder(t: Table, cs: seq<Child>, p: seq<string>, i: nat, slots: seq<Slot>, more: seq<Slot>)
    requires Sorted(cs) && i < |cs|
    requires forall k :: k in slots ==> k.path == p || BelowFirst(cs[..i], p, k.path)
    requires forall k :: k in more ==> p + [cs[i].name] <= k.path
    ensures forall a, b :: a in slots && b in more ==> Before(a, b)
  {
    forall a, b | a in slots && b in more
      ensures Before(a, b)
    {
      if a.path != p {
        var j :| 0 <= j < i && p + [cs[..i][j].name] <= a.path;
        assert Less(cs[j].name, cs[i].name);
      }
      SiblingBefore(p, a.path, b.path, cs[i].name);
    }
  }

  lemma {:induction false} PathBeforeIsStrict(p: seq<string>, q: seq<string>)
    ensures PathBefore(p, q) ==> !PathBefore(q, p) && p != q
  {
    if p != [] && q != [] {
      LessIsStrict(p[0], q[0]);
      PathBeforeIsStrict(p[1..], q[1..]);
    }
  }

  lemma HasElement(s: seq<Slot>)
    ensures s != [] ==> exists k :: k in s
  {
    if s != [] {
      assert s[0] in s;
    }
  }

  // The walk order leaves no choice: slots listed in it once each are listed in one way only.
  lemma {:induction false} VisitOrderIsUnique(t: Table, a: seq<Slot>, b: seq<Slot>, ra: seq<Rule>, rb: seq<Rule>)
    requires Visits(t, ra, a) && Visits(t, rb, b) && forall k :: k in a <==> k in b
    ensures a == b
    decreases |a|
  {
    if a == [] {
      HasElement(b);
    } else {
      assert a[0] in b && b[0] in a;
      var i :| 0 <= i < |a| && a[i] == b[0];
      var j :| 0 <= j < |b| && b[j] == a[0];
      PathBeforeIsStrict(a[0].path, b[0].path);
      PathBeforeIsStrict(b[0].path, a[0].path);
      assert a[0] == b[0];
      TailsAgree(t, a, b, ra, rb);
      VisitOrderIsUnique(t, a[1..], b[1..], ra[1..], rb[1..]);
    }
  }

  // A table has only one walk order.
  lemma WalkIsDeterministic(t: Table, a: seq<Rule>, b: seq<Rule>)
    requires InWalkOrder(t, a) && InWalkOrder(t, b)
    ensures a == b
  {
    hide Before;
    var p :| Visits(t, a, p) && forall k :: k in p <==> k in t;
    var q :| Visits(t, b, q) && forall k :: k in q <==> k in t;
    VisitOrderIsUnique(t, p, q, a, b);
  }

  lemma TailsAgree(t: Table, a: seq<Slot>, b: seq<Slot>, ra: seq<Rule>, rb: seq<Rule>)
    requires Visits(t, ra, a) && Visits(t, rb, b) && (forall k :: k in a <==> k in b)
    requires a != [] && b != [] && a[0] == b[0]
    ensures forall k :: k in a[1..] <==> k in b[1..]
  {
    PathBeforeIsStrict(a[0].path, a[0].path);
    assert !Before(a[0], a[0]);
    assert forall k :: k in a <==> k == a[0] || k in a[1..];
    assert forall k :: k in b <==> k == b[0] || k in b[1..];
    assert a[0] !in a[1..] by { assert forall i :: 0 < i < |a| ==> Before(a[0], a[i]); }
    assert b[0] !in b[1..] by { assert forall i :: 0 < i < |b| ==> Before(b[0], b[i]); }
  }

  lemma VisitsConcat(t: Table, rules: seq<Rule>, slots: seq<Slot>, more: seq<Rule>, moreSlots: seq<Slot>)
    requires Visits(t, rules, slots) && Visits(t, more, moreSlots)
    requires forall a, b :: a in slots && b in moreSlots ==> Before(a, b)
    ensures Visits(t, rules + more, slots + moreSlots)
  {
    hide Before;
    var s := slots + moreSlots;
    forall i, j | 0 <= i < j < |s|
      ensures Before(s[i], s[j])
    {
      if j < |slots| {
      } else if i >= |slots| {
        assert s[i] == moreSlots[i - |slots|] && s[j] == moreSlots[j - |slots|];
      } else {
        assert s[i] in slots && s[j] == moreSlots[j - |slots|];
      }
    }
  }

  // Every occupied path at or under p is p or runs through one of its children.
  lemma AllBelow(shape: Shape, t: Table, p: seq<string>)
    requires Tree(shape.nodes, shape.kids, shape.height) && p in shape.kids
    requires forall k :: k in t ==> k.path in shape.nodes
    ensures forall k :: k in t ==> (p <= k.path <==> k.path == p || BelowFirst(shape.kids[p], p, k.path))
  {
    hide Tree;
    forall k | k in t
      ensures p <= k.path <==> k.path == p || BelowFirst(shape.kids[p], p, k.path)
    {
      if p <= k.path && k.path != p {
        ThroughChild(shape, p, k.path);
      }
      if BelowFirst(shape.kids[p], p, k.path) {
        var i :| 0 <= i < |shape.kids[p]| && p + [shape.kids[p][i].name] <= k.path;
        assert p <= p + [shape.kids[p][i].name];
      }
    }
  }

  lemma TreeHangs(nodes: Nodes, kids: Kids, height: nat, q: seq<string>)
    requires Tree(nodes, kids, height) && q in nodes
    ensures Hangs(nodes, kids, q)
  {
  }

  lemma ThroughChild(shape: Shape, p: seq<string>, path: seq<string>)
    requires Tree(shape.nodes, shape.kids, shape.height) && path in shape.nodes && p in shape.kids
    requires p <= path && p != path
    ensures BelowFirst(shape.kids[p], p, path)
  {
    hide Tree;
    var q := path[..|p| + 1];
    PrefixesExist(shape.nodes, shape.kids, shape.height, path, |p| + 1);
    TreeHangs(shape.nodes, shape.kids, shape.height, q);
    assert q[..|q| - 1] == p && q == p + [q[|p|]];
    var i :| 0 <= i < |shape.kids[p]| && shape.kids[p][i] == Child(q[|p|], shape.nodes[q]);
    assert p + [shape.kids[p][i].name] <= path;
  }

  lemma VisitsLists(t: Table, rules: seq<Rule>, slots: seq<Slot>)
    requires Visits(t, rules, slots) && Placed(t) && forall k :: k in slots <==> k in t
    ensures Lists(rules, t)
  {
    hide Before, Path;
    forall k | k in t
      ensures t[k] in rules
    {
      var i :| 0 <= i < |slots| && slots[i] == k;
      assert rules[i] == t[k];
    }
  }

  lemma IngestNext(env: Env, t: Table, rules: seq<Rule>, i: nat)
    requires i < |rules|
    ensures Ingest(env, t, rules[i..]) == Ingest(env, Add(env, t, rules[i]), rules[i + 1..])
  {
    hide Add;
    assert rules[i..][0] == rules[i] && rules[i..][1..] == rules[i + 1..];
  }

  lemma IngestEnd(env: Env, t: Table, rules: seq<Rule>)
    ensures rules == [] ==> Ingest(env, t, rules) == t
  {
  }

  lemma AddSize(env: Env, t: Table, rule: Rule)
    ensures |Add(env, t, rule)| == |t| + if Adds(env, t, rule) then 1 else 0
  {
    hide Normalize, Path;
    if Adds(env, t, rule) {
      var k := SlotOf(Normalize(env, rule).value);
      assert t[k := Normalize(env, rule).value].Keys == t.Keys + {k};
    }
  }

  lemma SlotsPartition(t: Table)
    ensures |Slots(t, true)| + |Slots(t, false)| == |t|
  {
    assert t.Keys == Slots(t, true) + Slots(t, false);
    assert Slots(t, true) !! Slots(t, false);
  }

  /* ---------- The trie object ---------- */

  lemma RootTree(root: Node)
    ensures Tree(map[[] := root], map[[] := []], 0)
  {
  }

  class Trie {
    const env: Env
    var root: Node
    var exactCount: int
    var suffixCount: int

    // The rules by slot, the nodes by path, the children by path, and a bound on path lengths.
    ghost var table: Table
    ghost var shape: Shape

    // The node of each path holds the children and the rules recorded for it.
    ghost predicate Linked()
      reads this, shape.nodes.Values
    {
      shape.nodes.Keys == shape.kids.Keys &&
      forall p :: p in shape.nodes ==>
        && shape.nodes[p].children == shape.kids[p]
        && shape.nodes[p].exact == At(table, p, true) && shape.nodes[p].suffix == At(table, p, false)
    }

    ghost predicate Counted()
      reads this
    {
      exactCount == |Slots(table, true)| && suffixCount == |Slots(table, false)|
    }

    ghost predicate Valid()
      reads this, shape.nodes.Values
    {
      && Tree(shape.nodes, shape.kids, shape.height) && root == shape.nodes[[]]
      && Linked() && Counted() && Placed(table)
      && forall k :: k in table ==> k.path in shape.nodes
    }

    // Nodes are never replaced, and every node added is new.
    twostate predicate Grew()
      reads this
    {
      && (forall q :: q in old(shape.nodes) ==> q in shape.nodes && shape.nodes[q] == old(shape.nodes)[q])
      && (forall q :: q in shape.nodes && q !in old(shape.nodes) ==> fresh(shape.nodes[q]))
    }

    constructor (env: Env)
      ensures Valid() && table == map[] && this.env == env
      ensures forall q :: q in shape.nodes ==> fresh(shape.nodes[q])
    {
      this.env := env;
      root := new Node();
      exactCount, suffixCount, table := 0, 0, map[];
      new;
      shape := Shape(map[[] := root], map[[] := []], 0);
      RootTree(root);
      assert Slots(map[], true) == {} && Slots(map[], false) == {};
    }

    // Linked, except that the node of p may have other children.
    ghost predicate LinkedBut(p: seq<string>)
      reads this, shape.nodes.Values
    {
      shape.nodes.Keys == shape.kids.Keys &&
      forall q :: q in shape.nodes ==>
        && (q != p ==> shape.nodes[q].children == shape.kids[q])
        && shape.nodes[q].exact == At(table, q, true) && shape.nodes[q].suffix == At(table, q, false)
    }

    // Records a child just created under p.
    ghost method Record(p: seq<string>, name: string, child: Node, at: nat)
      requires Tree(shape.nodes, shape.kids, shape.height) && p in shape.nodes && root == shape.nodes[[]]
      requires LinkedBut(p) && Counted() && Placed(table)
      requires forall k :: k in table ==> k.path in shape.nodes
      requires Sorted(shape.nodes[p].children) && at <= |shape.kids[p]|
      requires shape.nodes[p].children == shape.kids[p][..at] + [Child(name, child)] + shape.kids[p][at..]
      requires forall c :: c in shape.kids[p] ==> c.name != name
      requires child.children == [] && child.exact == None && child.suffix == None
      requires forall q :: q in shape.nodes ==> shape.nodes[q] != child
      modifies this`shape
      ensures Valid() && shape.nodes == old(shape.nodes)[p + [name] := child]
      ensures p + [name] !in old(shape.nodes)
    {
      hide Tree, Placed, Slots, At;
      RecordFacts(shape.nodes, shape.kids, shape.height, table, p, name, child, shape.nodes[p].children, at);
      shape := Shape(shape.nodes[p + [name] := child],
                     shape.kids[p := shape.nodes[p].children][p + [name] := []],
                     if |p| < shape.height then shape.height else |p| + 1);
    }

    // One step of AddRule's walk: the child of curr for the next label, created if missing.
    method Descend(ghost p: seq<string>, curr: Node, name: string) returns (child: Node)
      requires Valid() && p in shape.nodes && shape.nodes[p] == curr
      modifies this`shape, curr
      ensures Valid()
      ensures p + [name] in shape.nodes && shape.nodes[p + [name]] == child
      ensures Grew()
    {
      hide Tree, Placed, Slots;
      TreeFacts(shape.nodes, shape.kids, shape.height, p);
      ghost var at;
      child, at := curr.AddChild(name);
      assert LinkedBut(p);
      if curr.children == shape.kids[p] {
        EdgeLeads(shape.nodes, shape.kids, shape.height, p, shape.kids[p][at]);
      } else {
        Record(p, name, child, at);
      }
    }

    // The node for a domain's labels from the top-level label down, created where missing.
    method Insert(domain: string) returns (curr: Node)
      requires Valid()
      modifies this`shape, shape.nodes.Values
      ensures Valid()
      ensures Path(domain) in shape.nodes && shape.nodes[Path(domain)] == curr
      ensures Grew()
    {
      hide Valid, Tree, Path, LastDot;
      ghost var done: seq<string> := [];
      NodeFacts([]);
      curr := root;
      var end := |domain|;
      assert domain[..end] == domain;
      PathOfNothing();
      while end > 0
        invariant -1 <= end <= |domain|
        invariant Valid() && done in shape.nodes && shape.nodes[done] == curr
        invariant Path(domain) == done + Path(domain[..if end < 0 then 0 else end])
        invariant Grew()
        decreases end
      {
        var start := LastDot(domain[..end]);
        var name := domain[start + 1..end];
        PathUnfolds(domain, end);
        end := start;
        if name == "" {
          continue;
        }
        curr := Descend(done, curr, name);
        done := done + [name];
      }
      assert domain[..0] == "" && done + [] == done;
    }

    // Fills an empty slot of the node for a stored rule's path.
    method Store(curr: Node, stored: Rule)
      requires Valid() && (stored.scope == EXACT || stored.scope == SUFFIX) && SlotOf(stored) !in table
      requires Path(stored.domain) in shape.nodes && shape.nodes[Path(stored.domain)] == curr
      modifies this`table, this`exactCount, this`suffixCount, curr
      ensures Valid() && table == old(table)[SlotOf(stored) := stored]
    {
      hide Tree, Path, At, Slots, Placed;
      PlacedStored(table, stored);
      ghost var p := Path(stored.domain);
      TreeFacts(shape.nodes, shape.kids, shape.height, p);
      SlotsGrow(table, stored);
      forall q, exact
        ensures At(table[SlotOf(stored) := stored], q, exact)
             == if Slot(q, exact) == SlotOf(stored) then Some(stored) else At(table, q, exact)
      {
        AtStored(table, stored, q, exact);
      }
      table := table[SlotOf(stored) := stored];
      if stored.scope == EXACT {
        curr.exact := Some(stored);
        exactCount := exactCount + 1;
      } else {
        curr.suffix := Some(stored);
        suffixCount := suffixCount + 1;
      }
    }

    // The checks AddRule makes before it walks the tree.
    method Prepare(rule: Rule) returns (stored: Option<Rule>)
      ensures stored == Normalize(env, rule)
    {
      hide TrimSpace, ToLower, Sanitize, Collapse, CutDots, ValidCategory;
      var raw := TrimSpace(rule.domain);
      if raw == "" {
        return None;
      }
      var forcedSuffix := "*." <= raw;
      var domain := SanitizeDomain(NormalizeDomain(env, raw));
      if domain == "" {
        return None;
      }
      domain := CollapseDots(CutDots(domain));
      if !env.registrable(domain) {
        return None;
      }
      var scope, origin := rule.scope, rule.origin;
      if forcedSuffix {
        scope, origin := SUFFIX, Wildcard;
      }
      if scope != EXACT && scope != SUFFIX {
        scope := SUFFIX;
      }
      var category := ToLower(TrimSpace(rule.category));
      if !ValidCategory(category) {
        category := UNKNOWN;
      }
      var action := ToLower(TrimSpace(rule.action));
      if action == "" {
        action := BLOCK;
      } else if action != BLOCK {
        return None;
      }
      return Some(Rule(domain, scope, rule.sourceId, category, action, origin));
    }

    method AddRule(rule: Rule) returns (ok: bool)
      requires Valid()
      modifies this, shape.nodes.Values
      ensures Valid() && table == Add(env, old(table), rule) && ok == Adds(env, old(table), rule)
      ensures Grew()
    {
      hide Valid, Path, Normalize;
      var prepared := Prepare(rule);
      if prepared == None {
        return false;
      }
      var stored := prepared.value;
      var curr := Insert(stored.domain);
      SlotOfNode(curr, stored);
      if (if stored.scope == EXACT then curr.exact else curr.suffix) != None {
        return false;
      }
      Store(curr, stored);
      return true;
    }

    // A node's slots show whether the table holds a rule for its path.
    lemma SlotOfNode(curr: Node, stored: Rule)
      requires Valid() && Path(stored.domain) in shape.nodes && shape.nodes[Path(stored.domain)] == curr
      ensures (if stored.scope == EXACT then curr.exact else curr.suffix) == None <==> SlotOf(stored) !in table
    {
      hide Path;
    }

    // What the node of a path holds.
    lemma NodeFacts(p: seq<string>)
      requires Valid()
      ensures Tree(shape.nodes, shape.kids, shape.height) && [] in shape.nodes && shape.nodes[[]] == root
      ensures forall k :: k in table ==> k.path in shape.nodes
      ensures p in shape.nodes ==>
                var n := shape.nodes[p];
                && p in shape.kids && |p| <= shape.height && n.children == shape.kids[p] && Sorted(n.children)
                && n.exact == At(table, p, true) && n.suffix == At(table, p, false)
    {
      hide Leads, Hangs;
      RootNode(shape.nodes, shape.kids, shape.height);
      if p in shape.nodes {
        TreeFacts(shape.nodes, shape.kids, shape.height, p);
      }
    }

    // A descent has reached the node of the first n labels of q, with the deepest suffix rule so far.
    ghost predicate Reached(q: seq<string>, n: nat, curr: Node, deepest: Option<Rule>)
      reads this
    {
      n <= |q| && q[..n] in shape.nodes && shape.nodes[q[..n]] == curr && deepest == Deepest(table, q, n)
    }

    lemma StartDescent(q: seq<string>)
      requires Valid()
      ensures Reached(q, 0, root, None)
    {
      hide Valid, Tree;
      NodeFacts([]);
      assert q[..0] == [];
    }

    lemma SortedHere(q: seq<string>, n: nat, curr: Node, deepest: Option<Rule>)
      requires Valid() && Reached(q, n, curr, deepest)
      ensures Sorted(curr.children)
    {
      hide Valid, Tree, Deepest;
      NodeFacts(q[..n]);
    }

    lemma StepDown(q: seq<string>, n: nat, curr: Node, deepest: Option<Rule>, child: Node)
      requires Valid() && Reached(q, n, curr, deepest) && n < |q| && Child(q[n], child) in curr.children
      ensures Reached(q, n + 1, child, if child.suffix != None then child.suffix else deepest)
    {
      hide Valid, Tree, Deepest;
      NodeFacts(q[..n]);
      EdgeLeads(shape.nodes, shape.kids, shape.height, q[..n], Child(q[n], child));
      assert q[..n] + [q[n]] == q[..n + 1];
      NodeFacts(q[..n + 1]);
      DeepestStep(table, q, n + 1);
    }

    lemma DeadEnd(q: seq<string>, n: nat, curr: Node, deepest: Option<Rule>)
      requires Valid() && Reached(q, n, curr, deepest) && n < |q| && forall c :: c in curr.children ==> c.name != q[n]
      ensures Best(table, q) == deepest
    {
      hide Valid, Tree, Deepest, Best;
      NodeFacts(q[..n]);
      NothingBelow(shape, table, q, n);
      BestIs(table, q);
    }

    lemma Arrived(q: seq<string>, curr: Node, deepest: Option<Rule>)
      requires Valid() && Reached(q, |q|, curr, deepest)
      ensures Best(table, q) == if curr.exact != None then curr.exact else deepest
    {
      hide Valid, Tree, Deepest, Best;
      assert q[..|q|] == q;
      NodeFacts(q);
      BestIs(table, q);
    }

    method MatchRuleDetail(domain: string) returns (detail: MatchDetail)
      requires Valid()
      ensures detail == Detail(env, table, domain)
    {
      hide Valid, Deepest, Path, Best, LastDot;
      var query := NormalizeDomain(env, domain);
      if query == "" {
        return NoMatch;
      }
      ghost var q, n := Path(query), 0;
      var curr, deepest := root, None;
      StartDescent(q);
      var end := |query|;
      assert query[..end] == query && q[0..] == q;
      PathOfNothing();
      while end > 0
        invariant -1 <= end <= |query| && n <= |q|
        invariant Valid() && Reached(q, n, curr, deepest)
        invariant q[n..] == Path(query[..if end < 0 then 0 else end])
        decreases end
      {
        var start := LastDot(query[..end]);
        var name := query[start + 1..end];
        PathUnfolds(query, end);
        end := start;
        if name == "" {
          continue;
        }
        NextLabel(q, n, name, Path(query[..if end < 0 then 0 else end]));
        SortedHere(q, n, curr, deepest);
        var child := curr.FindChild(name);
        match child {
          case None =>
            DeadEnd(q, n, curr, deepest);
            return if deepest == None then NoMatch else Match(deepest.value, query);
          case Some(next) =>
            StepDown(q, n, curr, deepest, next);
            if next.suffix != None {
              deepest := next.suffix;
            }
            curr, n := next, n + 1;
        }
      }
      assert query[..0] == "" && n == |q|;
      Arrived(q, curr, deepest);
      if curr.exact != None {
        return Match(curr.exact.value, query);
      }
      if deepest != None {
        return Match(deepest.value, query);
      }
      return NoMatch;
    }

    // The recursive walk of ForEach below one node.
    method Walk(ghost p: seq<string>, node: Node) returns (rules: seq<Rule>, ghost slots: seq<Slot>)
      requires Valid() && p in shape.nodes && shape.nodes[p] == node
      ensures Visits(table, rules, slots)
      ensures forall k :: k in slots <==> k in table && p <= k.path
      decreases shape.height - |p|
    {
      hide Valid, Tree, Visits, Leads, Hangs, OwnSlots;
      NodeFacts(p);
      ghost var own := OwnSlots(table, p);
      rules, slots := [], own;
      VisitsOwn(table, p);
      if node.exact != None {
        rules := rules + [node.exact.value];
      }
      if node.suffix != None {
        rules := rules + [node.suffix.value];
      }
      assert rules == OwnRules(table, p);
      var i := 0;
      while i < |node.children|
        invariant 0 <= i <= |node.children|
        invariant Visits(table, rules, slots)
        invariant forall k :: k in slots <==> k in table && (k.path == p || BelowFirst(shape.kids[p][..i], p, k.path))
      {
        var c := node.children[i];
        EdgeLeads(shape.nodes, shape.kids, shape.height, p, c);
        NodeFacts(p + [c.name]);
        var more; ghost var moreSlots;
        more, moreSlots := Walk(p + [c.name], c.node);
        ChildrenInOrder(table, shape.kids[p], p, i, slots, moreSlots);
        VisitsConcat(table, rules, slots, more, moreSlots);
        BelowStep(shape.kids[p], p, i);
        rules, slots := rules + more, slots + moreSlots;
        i := i + 1;
      }
      assert shape.kids[p][..i] == shape.kids[p];
      AllBelow(shape, table, p);
    }

    // Every stored rule once, in reverse-label order.
    method ForEach() returns (rules: seq<Rule>)
      requires Valid()
      ensures InWalkOrder(table, rules) && Lists(rules, table)
    {
      hide Tree, Before, Path;
      NodeFacts([]);
      ghost var slots;
      rules, slots := Walk([], root);
      VisitsLists(table, rules, slots);
      assert forall k :: k in slots <==> k in table;
    }

    // Adds every rule of src whose slot is still empty here.
    method MergeFrom(src: Trie) returns (merged: nat, ghost rules: seq<Rule>)
      requires Valid() && src.Valid()
      modifies this, shape.nodes.Values
      ensures Valid()
      ensures Lists(rules, old(src.table)) && table == Ingest(env, old(table), rules)
      ensures AllStable(env, old(src.table)) ==> table == old(src.table) + old(table)
      ensures |table| == |old(table)| + merged
      ensures Grew()
    {
      hide Valid, Lists, AllStable, Ingest;
      PlacedTable(src);
      var walk := src.ForEach();
      rules := walk;
      ghost var before := table;
      merged := AddAll(walk);
      if AllStable(env, old(src.table)) {
        MergeIsUnion(env, before, old(src.table), walk);
      }
    }

    // Adds rules one after the other and counts those that found an empty slot.
    method AddAll(rules: seq<Rule>) returns (added: nat)
      requires Valid()
      modifies this, shape.nodes.Values
      ensures Valid() && table == Ingest(env, old(table), rules) && |table| == |old(table)| + added
      ensures Grew()
    {
      hide Valid, Add, Adds, Ingest;
      added := 0;
      var i := 0;
      assert rules[i..] == rules;
      while i < |rules|
        invariant 0 <= i <= |rules| && Valid()
        invariant Ingest(env, old(table), rules) == Ingest(env, table, rules[i..])
        invariant |table| == |old(table)| + added
        invariant forall q :: q in shape.nodes && q !in old(shape.nodes) ==> fresh(shape.nodes[q])
        invariant forall q :: q in old(shape.nodes) ==> q in shape.nodes && shape.nodes[q] == old(shape.nodes)[q]
      {
        AddSize(env, table, rules[i]);
        IngestNext(env, table, rules, i);
        var stored := AddRule(rules[i]);
        if stored {
          added := added + 1;
        }
        i := i + 1;
      }
      IngestEnd(env, table, rules[i..]);
    }

    function Count(): (n: int)
      requires Valid()
      reads this, shape.nodes.Values
      ensures n == |table|
    {
      SlotsPartition(table);
      exactCount + suffixCount
    }
  }

  lemma PlacedTable(t: Trie)
    requires t.Valid()
    ensures Placed(t.table)
  {
  }
}
