/** Day 19, Monster Messages: rules of a small grammar are compiled into a
    "possibility tree", a directed graph whose edges are labelled with
    letters, and a message is valid when walking it letter by letter from
    the root can end in a node without outgoing edges.

    The graph is built by expanding rule 0 between a begin node (0) and an
    end node (1).  A rule that is a single literal adds one edge; a rule of
    alternatives expands every alternative between the same two nodes; an
    alternative that is a chain of rules threads fresh intermediate nodes
    between its members.  The central result is that the walk accepts a
    message exactly when the grammar derives it from rule 0. */
module MonsterMessages {
  import opened Text

  // ---------------------------------------------------------------------
  // Rules

  /** Rule names are u16 in the source; the parser enforces the bound. */
  type RuleName = nat

  datatype RuleOption = Chain(refs: seq<RuleName>) | Literal(letter: char)

  type Rules = map<RuleName, seq<RuleOption>>

  /** A rule written as one quoted letter. */
  predicate IsLiteralRule(opts: seq<RuleOption>)
  {
    |opts| == 1 && opts[0].Literal?
  }

  /** The expansion recurses through the rules without bound on a
      cyclic grammar; a rank that strictly decreases along every reference
      to an existing rule witnesses that the rules are acyclic. */
  predicate RefsBelow(rules: Rules, rank: map<RuleName, nat>, bound: nat, refs: seq<RuleName>)
  {
    forall q :: q in refs ==> Height(rules, rank, q) < bound
  }

  predicate ChainsBelow(rules: Rules, rank: map<RuleName, nat>, bound: nat, opts: seq<RuleOption>)
  {
    forall o :: o in opts && o.Chain? ==> RefsBelow(rules, rank, bound, o.refs)
  }

  function Height(rules: Rules, rank: map<RuleName, nat>, r: RuleName): nat
  {
    if r in rules && r in rank then rank[r] + 1 else 0
  }

  ghost predicate Ranked(rules: Rules, rank: map<RuleName, nat>)
  {
    forall r :: r in rules ==> r in rank && ChainsBelow(rules, rank, rank[r] + 1, rules[r])
  }

  /** Every alternative is a non-empty chain or a letter, and every rule has
      an alternative: the shape of every well-formed puzzle input. */
  predicate ChainsNonEmpty(opts: seq<RuleOption>)
  {
    forall o :: o in opts && o.Chain? ==> |o.refs| > 0
  }

  ghost predicate NonEmpty(rules: Rules)
  {
    forall r :: r in rules ==> |rules[r]| > 0 && ChainsNonEmpty(rules[r])
  }

  // ---------------------------------------------------------------------
  // What the rules mean: the words each rule derives

  ghost predicate Derives(rules: Rules, rank: map<RuleName, nat>, rule: RuleName, w: string)
    requires Ranked(rules, rank)
    decreases Height(rules, rank, rule), 2
  {
    rule in rules && OptionsDerive(rules, rank, Height(rules, rank, rule), rules[rule], w)
  }

  /** Some alternative derives w. */
  ghost predicate OptionsDerive(rules: Rules, rank: map<RuleName, nat>, bound: nat, opts: seq<RuleOption>, w: string)
    requires Ranked(rules, rank) && ChainsBelow(rules, rank, bound, opts)
    decreases bound, 1, |opts|
  {
    opts != [] &&
    ((match opts[0]
      case Literal(c) => w == [c]
      case Chain(refs) => ChainDerives(rules, rank, bound, refs, w))
     || OptionsDerive(rules, rank, bound, opts[1..], w))
  }

  /** w splits into consecutive pieces, the i-th derived by the i-th rule. */
  ghost predicate ChainDerives(rules: Rules, rank: map<RuleName, nat>, bound: nat, refs: seq<RuleName>, w: string)
    requires Ranked(rules, rank) && RefsBelow(rules, rank, bound, refs)
    decreases bound, 0, |refs|
  {
    if refs == [] then w == []
    else exists k :: 0 <= k <= |w| && Derives(rules, rank, refs[0], w[..k]) && ChainDerives(rules, rank, bound, refs[1..], w[k..])
  }

  /** Every rule reachable from rule is defined, and a literal never sits
      among other alternatives: exactly the rules whose expansion does not
      panic. */
  ghost predicate Resolves(rules: Rules, rank: map<RuleName, nat>, rule: RuleName)
    requires Ranked(rules, rank)
    decreases Height(rules, rank, rule), 2
  {
    rule in rules &&
    (IsLiteralRule(rules[rule]) || OptionsResolve(rules, rank, Height(rules, rank, rule), rules[rule]))
  }

  ghost predicate OptionsResolve(rules: Rules, rank: map<RuleName, nat>, bound: nat, opts: seq<RuleOption>)
    requires Ranked(rules, rank) && ChainsBelow(rules, rank, bound, opts)
    decreases bound, 1
  {
    forall i :: 0 <= i < |opts| ==> opts[i].Chain? && ChainResolves(rules, rank, bound, opts[i].refs)
  }

  ghost predicate ChainResolves(rules: Rules, rank: map<RuleName, nat>, bound: nat, refs: seq<RuleName>)
    requires Ranked(rules, rank) && RefsBelow(rules, rank, bound, refs)
    decreases bound, 0
  {
    forall j :: 0 <= j < |refs| ==> Resolves(rules, rank, refs[j])
  }

  // ---------------------------------------------------------------------
  // The possibility tree as a value

  datatype Edge = Edge(src: nat, letter: char, dst: nat)

  /** Nodes are 0 .. nodeCount - 1, numbered in order of creation.  */
  datatype Graph = Graph(nodeCount: nat, edges: seq<Edge>)

  function WithNode(g: Graph): (r: Graph)
    ensures r.nodeCount == g.nodeCount + 1 && r.edges == g.edges
  {
    Graph(g.nodeCount + 1, g.edges)
  }

  function WithEdge(g: Graph, a: nat, c: char, b: nat): (r: Graph)
    ensures r.nodeCount == g.nodeCount && r.edges == g.edges + [Edge(a, c, b)]
  {
    g.(edges := g.edges + [Edge(a, c, b)])
  }

  /** g' is g with nodes and edges appended. */
  predicate Extends(g: Graph, g': Graph)
  {
    g.nodeCount <= g'.nodeCount && |g.edges| <= |g'.edges| && g'.edges[..|g.edges|] == g.edges
  }

  function Added(g: Graph, g': Graph): seq<Edge>
    requires |g.edges| <= |g'.edges|
  {
    g'.edges[|g.edges|..]
  }

  /** x is the given fixed node or one of the nodes lo .. hi - 1. */
  predicate InFragment(x: nat, fixed: nat, lo: nat, hi: nat)
  {
    x == fixed || lo <= x < hi
  }

  /** The edges of an expansion between b and e that created the nodes
      lo .. hi - 1: they leave b or a created node and enter e or a
      created node. */
  predicate Fragment(es: seq<Edge>, b: nat, e: nat, lo: nat, hi: nat)
  {
    forall ed :: ed in es ==> InFragment(ed.src, b, lo, hi) && InFragment(ed.dst, e, lo, hi)
  }

  predicate Grows(g: Graph, g': Graph, b: nat, e: nat)
  {
    Extends(g, g') && Fragment(Added(g, g'), b, e, g.nodeCount, g'.nodeCount)
  }

  predicate HasOut(es: seq<Edge>, x: nat)
  {
    exists ed :: ed in es && ed.src == x
  }

  /** Every node created by the expansion has an outgoing edge. */
  predicate FreshLive(g: Graph, g': Graph)
    requires |g.edges| <= |g'.edges|
  {
    forall x :: g.nodeCount <= x < g'.nodeCount ==> HasOut(Added(g, g'), x)
  }

  // ---------------------------------------------------------------------
  // The expansion as functions

  /** Expanding rule between b and e: a missing rule fails, a rule made of
      one literal adds a single edge, any other rule expands each of its
      alternatives.  A Rust panic is an Err. */
  function ExpandRule(g: Graph, b: nat, e: nat, rules: Rules, ghost rank: map<RuleName, nat>, rule: RuleName): (r: Result<Graph>)
    requires Ranked(rules, rank)
    ensures r.Ok? <==> Resolves(rules, rank, rule)
    ensures r.Ok? ==> Grows(g, r.value, b, e)
    ensures r.Ok? && NonEmpty(rules) ==> FreshLive(g, r.value) && HasOut(Added(g, r.value), b)
    decreases Height(rules, rank, rule), 2
  {
    if rule !in rules then Err("Rule not found")
    else if IsLiteralRule(rules[rule]) then
      var g' := WithEdge(g, b, rules[rule][0].letter, e);
      assert Added(g, g') == [Edge(b, rules[rule][0].letter, e)];
      Ok(g')
    else ExpandOptions(g, b, e, rules, rank, Height(rules, rank, rule), rules[rule])
  }

  function ExpandOptions(g: Graph, b: nat, e: nat, rules: Rules, ghost rank: map<RuleName, nat>,
                         ghost bound: nat, opts: seq<RuleOption>): (r: Result<Graph>)
    requires Ranked(rules, rank) && ChainsBelow(rules, rank, bound, opts)
    ensures r.Ok? <==> OptionsResolve(rules, rank, bound, opts)
    ensures r.Ok? ==> Grows(g, r.value, b, e)
    ensures r.Ok? && NonEmpty(rules) && ChainsNonEmpty(opts) ==>
      FreshLive(g, r.value) && (opts != [] ==> HasOut(Added(g, r.value), b))
    decreases bound, 1, |opts|
  {
    if opts == [] then Ok(g)
    else match opts[0]
      case Literal(_) => Err("More than 1 literal in rule")
      case Chain(refs) =>
        match ExpandChainRefs(g, b, e, rules, rank, bound, refs)
        case Err(m) => Err(m)
        case Ok(g1) =>
          var r := ExpandOptions(g1, b, e, rules, rank, bound, opts[1..]);
          assert OptionsResolve(rules, rank, bound, opts) <==>
                 ChainResolves(rules, rank, bound, refs) && OptionsResolve(rules, rank, bound, opts[1..]) by {
            assert forall i :: 1 <= i < |opts| ==> opts[i] == opts[1..][i - 1];
          }
          if r.Ok? then
            GrowsTrans(g, g1, r.value, b, e);
            LiveTrans(g, g1, r.value);
            r
          else r
  }

  /** Expanding a chain of rules from cb to e: each member between the
      previous node and a fresh node, the last one into e. */
  function ExpandChainRefs(g: Graph, cb: nat, e: nat, rules: Rules, ghost rank: map<RuleName, nat>,
                           ghost bound: nat, refs: seq<RuleName>): (r: Result<Graph>)
    requires Ranked(rules, rank) && RefsBelow(rules, rank, bound, refs)
    ensures r.Ok? <==> ChainResolves(rules, rank, bound, refs)
    ensures r.Ok? ==> Grows(g, r.value, cb, e)
    ensures r.Ok? && NonEmpty(rules) ==>
      FreshLive(g, r.value) && (refs != [] ==> HasOut(Added(g, r.value), cb))
    decreases bound, 0, |refs|
  {
    if refs == [] then Ok(g)
    else if |refs| == 1 then ExpandRule(g, cb, e, rules, rank, refs[0])
    else
      var n := g.nodeCount;
      match ExpandRule(WithNode(g), cb, n, rules, rank, refs[0])
      case Err(m) => Err(m)
      case Ok(g1) =>
        var r := ExpandChainRefs(g1, n, e, rules, rank, bound, refs[1..]);
        assert ChainResolves(rules, rank, bound, refs) <==>
               Resolves(rules, rank, refs[0]) && ChainResolves(rules, rank, bound, refs[1..]) by {
          assert forall j :: 1 <= j < |refs| ==> refs[j] == refs[1..][j - 1];
        }
        if r.Ok? then
          ChainGrows(g, g1, r.value, cb, n, e);
          ChainLive(g, g1, r.value, cb, n);
          r
        else r
  }

  /** The possibility tree of the rules: rule 0 expanded between node 0
      (the root) and node 1. */
  function Build(rules: Rules, ghost rank: map<RuleName, nat>): (r: Result<Graph>)
    requires Ranked(rules, rank)
    ensures r.Ok? <==> Resolves(rules, rank, 0)
    ensures r.Ok? ==> r.value.nodeCount >= 2
  {
    ExpandRule(Graph(2, []), 0, 1, rules, rank, 0)
  }

  // Bookkeeping lemmas for the contracts above.

  lemma GrowsTrans(g0: Graph, g1: Graph, g2: Graph, b: nat, e: nat)
    requires Grows(g0, g1, b, e) && Grows(g1, g2, b, e)
    ensures Grows(g0, g2, b, e)
    ensures Added(g0, g2) == Added(g0, g1) + Added(g1, g2)
  {
    assert g2.edges[..|g0.edges|] == g1.edges[..|g0.edges|];
    assert Added(g0, g2) == Added(g0, g1) + Added(g1, g2);
  }

  lemma LiveTrans(g0: Graph, g1: Graph, g2: Graph)
    requires Extends(g0, g1) && Extends(g1, g2)
    requires Added(g0, g2) == Added(g0, g1) + Added(g1, g2)
    ensures FreshLive(g0, g1) && FreshLive(g1, g2) ==> FreshLive(g0, g2)
    ensures forall x :: HasOut(Added(g0, g1), x) ==> HasOut(Added(g0, g2), x)
  {
    forall x | HasOut(Added(g0, g1), x) ensures HasOut(Added(g0, g2), x) {
      var ed :| ed in Added(g0, g1) && ed.src == x;
      assert ed in Added(g0, g2);
    }
    if FreshLive(g0, g1) && FreshLive(g1, g2) {
      forall x | g0.nodeCount <= x < g2.nodeCount ensures HasOut(Added(g0, g2), x) {
        if x >= g1.nodeCount {
          assert HasOut(Added(g1, g2), x);
          var ed :| ed in Added(g1, g2) && ed.src == x;
          assert ed in Added(g0, g2);
        }
      }
    }
  }

  lemma ChainGrows(g: Graph, g1: Graph, g2: Graph, cb: nat, n: nat, e: nat)
    requires n == g.nodeCount
    requires Grows(WithNode(g), g1, cb, n) && Grows(g1, g2, n, e)
    ensures Grows(g, g2, cb, e)
    ensures Added(g, g2) == Added(g, g1) + Added(g1, g2)
  {
    assert g2.edges[..|g.edges|] == g1.edges[..|g.edges|];
    assert Added(g, g2) == Added(g, g1) + Added(g1, g2);
  }

  lemma ChainLive(g: Graph, g1: Graph, g2: Graph, cb: nat, n: nat)
    requires n == g.nodeCount && Extends(WithNode(g), g1) && Extends(g1, g2) && Extends(g, g2)
    requires Added(g, g2) == Added(g, g1) + Added(g1, g2)
    ensures FreshLive(WithNode(g), g1) && HasOut(Added(WithNode(g), g1), cb) &&
            FreshLive(g1, g2) && HasOut(Added(g1, g2), n) ==>
            FreshLive(g, g2) && HasOut(Added(g, g2), cb)
  {
    assert Added(WithNode(g), g1) == Added(g, g1);
    forall x | HasOut(Added(g, g1), x) ensures HasOut(Added(g, g2), x) {
      var ed :| ed in Added(g, g1) && ed.src == x;
      assert ed in Added(g, g2);
    }
    forall x | HasOut(Added(g1, g2), x) ensures HasOut(Added(g, g2), x) {
      var ed :| ed in Added(g1, g2) && ed.src == x;
      assert ed in Added(g, g2);
    }
  }

  // ---------------------------------------------------------------------
  // Walking the tree

  /** Following edges labelled with the letters of w leads from a to z. */
  ghost predicate Path(es: seq<Edge>, a: nat, w: string, z: nat)
    decreases |w|
  {
    if w == [] then a == z
    else exists ed :: ed in es && ed.src == a && ed.letter == w[0] && Path(es, ed.dst, w[1..], z)
  }

  /** The acceptance rule of the walk: w leads from the root to a node
      without outgoing edges. */
  ghost predicate AcceptsByPath(es: seq<Edge>, root: nat, w: string)
  {
    exists x :: Path(es, root, w, x) && !HasOut(es, x)
  }

  predicate InRegion(x: nat, p: nat, q: nat, lo: nat, hi: nat)
  {
    x == p || x == q || lo <= x < hi
  }

  /** A walk that starts inside a region closed under the edges of B, and
      from which E has no other edges than those of B, is the same walk in
      E and in B. */
  lemma {:induction false} PathRestrict(E: seq<Edge>, B: seq<Edge>, p: nat, q: nat, lo: nat, hi: nat, x: nat, w: string, z: nat)
    requires InRegion(x, p, q, lo, hi)
    requires forall ed :: ed in B ==> ed in E && InRegion(ed.dst, p, q, lo, hi)
    requires forall ed :: ed in E && InRegion(ed.src, p, q, lo, hi) ==> ed in B
    ensures Path(E, x, w, z) <==> Path(B, x, w, z)
    decreases |w|
  {
    if w != [] {
      if Path(E, x, w, z) {
        var ed :| ed in E && ed.src == x && ed.letter == w[0] && Path(E, ed.dst, w[1..], z);
        PathRestrict(E, B, p, q, lo, hi, ed.dst, w[1..], z);
      }
      if Path(B, x, w, z) {
        var ed :| ed in B && ed.src == x && ed.letter == w[0] && Path(B, ed.dst, w[1..], z);
        PathRestrict(E, B, p, q, lo, hi, ed.dst, w[1..], z);
      }
    }
  }

  /** Two expansions between the same b and e with disjoint created nodes
      accept the union of what each accepts. */
  lemma PathUnion(F: seq<Edge>, R: seq<Edge>, b: nat, e: nat, lo: nat, mid: nat, hi: nat, w: string)
    requires b != e && b < lo && e < lo && lo <= mid <= hi
    requires Fragment(F, b, e, lo, mid) && Fragment(R, b, e, mid, hi)
    ensures Path(F + R, b, w, e) <==> Path(F, b, w, e) || Path(R, b, w, e)
  {
    if w != [] {
      if Path(F + R, b, w, e) {
        PathUnionSplit(F, R, b, e, lo, mid, hi, w);
      }
      if Path(F, b, w, e) {
        PathUnionLeft(F, R, b, e, lo, mid, hi, w);
      }
      if Path(R, b, w, e) {
        PathUnionRight(F, R, b, e, lo, mid, hi, w);
      }
    }
  }

  lemma PathUnionSplit(F: seq<Edge>, R: seq<Edge>, b: nat, e: nat, lo: nat, mid: nat, hi: nat, w: string)
    requires b != e && b < lo && e < lo && lo <= mid <= hi
    requires Fragment(F, b, e, lo, mid) && Fragment(R, b, e, mid, hi)
    requires w != [] && Path(F + R, b, w, e)
    ensures Path(F, b, w, e) || Path(R, b, w, e)
  {
    var E := F + R;
    var ed :| ed in E && ed.src == b && ed.letter == w[0] && Path(E, ed.dst, w[1..], e);
    if ed in F {
      PathRestrict(E, F, e, e, lo, mid, ed.dst, w[1..], e);
    } else {
      PathRestrict(E, R, e, e, mid, hi, ed.dst, w[1..], e);
    }
  }

  lemma PathUnionLeft(F: seq<Edge>, R: seq<Edge>, b: nat, e: nat, lo: nat, mid: nat, hi: nat, w: string)
    requires b != e && b < lo && e < lo && lo <= mid <= hi
    requires Fragment(F, b, e, lo, mid) && Fragment(R, b, e, mid, hi)
    requires w != [] && Path(F, b, w, e)
    ensures Path(F + R, b, w, e)
  {
    var E := F + R;
    var ed :| ed in F && ed.src == b && ed.letter == w[0] && Path(F, ed.dst, w[1..], e);
    PathRestrict(E, F, e, e, lo, mid, ed.dst, w[1..], e);
    assert ed in E;
  }

  lemma PathUnionRight(F: seq<Edge>, R: seq<Edge>, b: nat, e: nat, lo: nat, mid: nat, hi: nat, w: string)
    requires b != e && b < lo && e < lo && lo <= mid <= hi
    requires Fragment(F, b, e, lo, mid) && Fragment(R, b, e, mid, hi)
    requires w != [] && Path(R, b, w, e)
    ensures Path(F + R, b, w, e)
  {
    var E := F + R;
    var ed :| ed in R && ed.src == b && ed.letter == w[0] && Path(R, ed.dst, w[1..], e);
    PathRestrict(E, R, e, e, mid, hi, ed.dst, w[1..], e);
    assert ed in E;
  }

  predicate ChainParts(F1: seq<Edge>, F2: seq<Edge>, cb: nat, n: nat, e: nat, h1: nat, h2: nat)
  {
    cb < n && e < n && cb != e && n + 1 <= h1 <= h2 &&
    Fragment(F1, cb, n, n + 1, h1) && Fragment(F2, n, e, h1, h2)
  }

  /** From n, the joined edges walk exactly as the second part does. */
  lemma PathSecondPart(F1: seq<Edge>, F2: seq<Edge>, cb: nat, n: nat, e: nat, h1: nat, h2: nat, u: string)
    requires ChainParts(F1, F2, cb, n, e, h1, h2)
    ensures Path(F1 + F2, n, u, e) <==> Path(F2, n, u, e)
  {
    PathRestrict(F1 + F2, F2, n, e, h1, h2, n, u, e);
  }

  lemma {:induction false} PathConcatSplit(F1: seq<Edge>, F2: seq<Edge>, cb: nat, n: nat, e: nat, h1: nat, h2: nat, x: nat, w: string)
    requires ChainParts(F1, F2, cb, n, e, h1, h2) && InFragment(x, cb, n + 1, h1)
    requires Path(F1 + F2, x, w, e)
    ensures exists k :: 0 <= k <= |w| && Path(F1, x, w[..k], n) && Path(F2, n, w[k..], e)
    decreases |w|
  {
    var E := F1 + F2;
    var ed :| ed in E && ed.src == x && ed.letter == w[0] && Path(E, ed.dst, w[1..], e);
    assert ed in F1;
    if ed.dst == n {
      PathSecondPart(F1, F2, cb, n, e, h1, h2, w[1..]);
      assert Path(F1, ed.dst, w[..1][1..], n);
      assert Path(F1, x, w[..1], n);
    } else {
      PathConcatSplit(F1, F2, cb, n, e, h1, h2, ed.dst, w[1..]);
      var k' :| 0 <= k' <= |w[1..]| && Path(F1, ed.dst, w[1..][..k'], n) && Path(F2, n, w[1..][k'..], e);
      assert w[..k' + 1][1..] == w[1..][..k'];
      assert Path(F1, x, w[..k' + 1], n);
      assert w[k' + 1..] == w[1..][k'..];
    }
  }

  lemma {:induction false} PathConcatJoin(F1: seq<Edge>, F2: seq<Edge>, cb: nat, n: nat, e: nat, h1: nat, h2: nat, x: nat, w: string, k: nat)
    requires ChainParts(F1, F2, cb, n, e, h1, h2) && InFragment(x, cb, n + 1, h1)
    requires k <= |w| && Path(F1, x, w[..k], n) && Path(F2, n, w[k..], e)
    ensures Path(F1 + F2, x, w, e)
    decreases |w|
  {
    var E := F1 + F2;
    var u := w[..k];
    assert u != [];
    var ed :| ed in F1 && ed.src == x && ed.letter == u[0] && Path(F1, ed.dst, u[1..], n);
    assert ed in E;
    if ed.dst == n {
      assert u[1..] == [];
      PathSecondPart(F1, F2, cb, n, e, h1, h2, w[1..]);
      assert Path(E, ed.dst, w[1..], e);
    } else {
      assert w[1..][..k - 1] == u[1..];
      assert w[1..][k - 1..] == w[k..];
      PathConcatJoin(F1, F2, cb, n, e, h1, h2, ed.dst, w[1..], k - 1);
    }
  }

  /** The expansion of a chain head from cb to the fresh node n, followed
      by the rest of the chain from n to e, accepts exactly the words that
      split into a word of the first part and a word of the second. */
  lemma PathConcat(F1: seq<Edge>, F2: seq<Edge>, cb: nat, n: nat, e: nat, h1: nat, h2: nat, w: string)
    requires ChainParts(F1, F2, cb, n, e, h1, h2)
    ensures Path(F1 + F2, cb, w, e) <==>
      exists k :: 0 <= k <= |w| && Path(F1, cb, w[..k], n) && Path(F2, n, w[k..], e)
  {
    if Path(F1 + F2, cb, w, e) {
      PathConcatSplit(F1, F2, cb, n, e, h1, h2, cb, w);
    }
    if exists k :: 0 <= k <= |w| && Path(F1, cb, w[..k], n) && Path(F2, n, w[k..], e) {
      var k :| 0 <= k <= |w| && Path(F1, cb, w[..k], n) && Path(F2, n, w[k..], e);
      PathConcatJoin(F1, F2, cb, n, e, h1, h2, cb, w, k);
    }
  }

  lemma PathNoEdges(a: nat, w: string, z: nat)
    requires a != z
    ensures !Path([], a, w, z)
  {
  }

  /** A single edge b --c--> e accepts exactly the word c. */
  lemma PathSingle(b: nat, c: char, e: nat, w: string)
    requires b != e
    ensures Path([Edge(b, c, e)], b, w, e) <==> w == [c]
  {
    var es := [Edge(b, c, e)];
    if w == [c] {
      assert Path(es, e, w[1..], e);
    }
    if Path(es, b, w, e) {
      var ed :| ed in es && ed.src == b && ed.letter == w[0] && Path(es, ed.dst, w[1..], e);
      assert ed == Edge(b, c, e);
      assert w[1..] == [];
      assert w == [w[0]] + w[1..];
    }
  }

  // ---------------------------------------------------------------------
  // The expansion accepts exactly what the rules derive

  lemma {:induction false} ExpandRuleLanguage(g: Graph, b: nat, e: nat, rules: Rules, rank: map<RuleName, nat>, rule: RuleName, w: string)
    requires Ranked(rules, rank) && NonEmpty(rules)
    requires b != e && b < g.nodeCount && e < g.nodeCount
    requires ExpandRule(g, b, e, rules, rank, rule).Ok?
    ensures Path(Added(g, ExpandRule(g, b, e, rules, rank, rule).value), b, w, e) <==> Derives(rules, rank, rule, w)
    decreases Height(rules, rank, rule), 2
  {
    var opts := rules[rule];
    var bound := Height(rules, rank, rule);
    var g' := ExpandRule(g, b, e, rules, rank, rule).value;
    assert OptionsDerive(rules, rank, bound, opts[1..], w) ==> OptionsDerive(rules, rank, bound, opts, w);
    if IsLiteralRule(opts) {
      assert Added(g, g') == [Edge(b, opts[0].letter, e)];
      PathSingle(b, opts[0].letter, e, w);
      assert !OptionsDerive(rules, rank, bound, opts[1..], w);
    } else {
      ExpandOptionsLanguage(g, b, e, rules, rank, bound, opts, w);
    }
  }

  lemma {:induction false} ExpandOptionsLanguage(g: Graph, b: nat, e: nat, rules: Rules, rank: map<RuleName, nat>,
                                                 bound: nat, opts: seq<RuleOption>, w: string)
    requires Ranked(rules, rank) && NonEmpty(rules) && ChainsBelow(rules, rank, bound, opts) && ChainsNonEmpty(opts)
    requires b != e && b < g.nodeCount && e < g.nodeCount
    requires ExpandOptions(g, b, e, rules, rank, bound, opts).Ok?
    ensures Path(Added(g, ExpandOptions(g, b, e, rules, rank, bound, opts).value), b, w, e) <==>
            OptionsDerive(rules, rank, bound, opts, w)
    decreases bound, 1, |opts|
  {
    var g' := ExpandOptions(g, b, e, rules, rank, bound, opts).value;
    if opts == [] {
      assert Added(g, g') == [];
      PathNoEdges(b, w, e);
    } else {
      var refs := opts[0].refs;
      var g1 := ExpandChainRefs(g, b, e, rules, rank, bound, refs).value;
      assert g' == ExpandOptions(g1, b, e, rules, rank, bound, opts[1..]).value;
      assert ChainsNonEmpty(opts[1..]) by {
        assert forall i :: 0 <= i < |opts[1..]| ==> opts[1..][i] == opts[i + 1];
      }
      GrowsTrans(g, g1, g', b, e);
      PathUnion(Added(g, g1), Added(g1, g'), b, e, g.nodeCount, g1.nodeCount, g'.nodeCount, w);
      ExpandChainRefsLanguage(g, b, e, rules, rank, bound, refs, w);
      ExpandOptionsLanguage(g1, b, e, rules, rank, bound, opts[1..], w);
    }
  }

  lemma {:induction false} ExpandChainRefsLanguage(g: Graph, cb: nat, e: nat, rules: Rules, rank: map<RuleName, nat>,
                                                   bound: nat, refs: seq<RuleName>, w: string)
    requires Ranked(rules, rank) && NonEmpty(rules) && RefsBelow(rules, rank, bound, refs) && refs != []
    requires cb != e && cb < g.nodeCount && e < g.nodeCount
    requires ExpandChainRefs(g, cb, e, rules, rank, bound, refs).Ok?
    ensures Path(Added(g, ExpandChainRefs(g, cb, e, rules, rank, bound, refs).value), cb, w, e) <==>
            ChainDerives(rules, rank, bound, refs, w)
    decreases bound, 0, |refs|, 2
  {
    if |refs| == 1 {
      ExpandRuleLanguage(g, cb, e, rules, rank, refs[0], w);
      assert w[..|w|] == w;
      if ChainDerives(rules, rank, bound, refs, w) {
        var k :| 0 <= k <= |w| && Derives(rules, rank, refs[0], w[..k]) && ChainDerives(rules, rank, bound, refs[1..], w[k..]);
        assert k == |w|;
      }
    } else {
      ChainConsLanguage(g, cb, e, rules, rank, bound, refs, w);
    }
  }

  /** One step of a chain of two or more rules. */
  lemma ChainStep(g: Graph, cb: nat, e: nat, rules: Rules, rank: map<RuleName, nat>, bound: nat, refs: seq<RuleName>)
    requires Ranked(rules, rank) && RefsBelow(rules, rank, bound, refs) && |refs| >= 2
    requires ExpandChainRefs(g, cb, e, rules, rank, bound, refs).Ok?
    ensures ExpandRule(WithNode(g), cb, g.nodeCount, rules, rank, refs[0]).Ok?
    ensures RefsBelow(rules, rank, bound, refs[1..])
    ensures ExpandChainRefs(ExpandRule(WithNode(g), cb, g.nodeCount, rules, rank, refs[0]).value, g.nodeCount, e, rules, rank, bound, refs[1..])
         == ExpandChainRefs(g, cb, e, rules, rank, bound, refs)
  {
  }

  lemma {:induction false} ChainConsLanguage(g: Graph, cb: nat, e: nat, rules: Rules, rank: map<RuleName, nat>,
                                             bound: nat, refs: seq<RuleName>, w: string)
    requires Ranked(rules, rank) && NonEmpty(rules) && RefsBelow(rules, rank, bound, refs) && |refs| >= 2
    requires cb != e && cb < g.nodeCount && e < g.nodeCount
    requires ExpandChainRefs(g, cb, e, rules, rank, bound, refs).Ok?
    ensures Path(Added(g, ExpandChainRefs(g, cb, e, rules, rank, bound, refs).value), cb, w, e) <==>
            ChainDerives(rules, rank, bound, refs, w)
    decreases bound, 0, |refs|, 1
  {
    var n := g.nodeCount;
    ChainStep(g, cb, e, rules, rank, bound, refs);
    var g1 := ExpandRule(WithNode(g), cb, n, rules, rank, refs[0]).value;
    var g' := ExpandChainRefs(g1, n, e, rules, rank, bound, refs[1..]).value;
    ChainGrows(g, g1, g', cb, n, e);
    var F1, F2 := Added(g, g1), Added(g1, g');
    assert Added(WithNode(g), g1) == F1;
    PathConcat(F1, F2, cb, n, e, g1.nodeCount, g'.nodeCount, w);
    forall k | 0 <= k <= |w|
      ensures Path(F1, cb, w[..k], n) <==> Derives(rules, rank, refs[0], w[..k])
      ensures Path(F2, n, w[k..], e) <==> ChainDerives(rules, rank, bound, refs[1..], w[k..])
    {
      ChainPieceLanguage(g, cb, e, rules, rank, bound, refs, w[..k], w[k..]);
    }
    ChainSplitEquiv(F1, F2, cb, n, e, rules, rank, bound, refs, w);
  }

  /** The head rule and the rest of the chain each accept what they derive. */
  lemma {:induction false} ChainPieceLanguage(g: Graph, cb: nat, e: nat, rules: Rules, rank: map<RuleName, nat>,
                                              bound: nat, refs: seq<RuleName>, u: string, v: string)
    requires Ranked(rules, rank) && NonEmpty(rules) && RefsBelow(rules, rank, bound, refs) && |refs| >= 2
    requires cb != e && cb < g.nodeCount && e < g.nodeCount
    requires ExpandChainRefs(g, cb, e, rules, rank, bound, refs).Ok?
    ensures ExpandRule(WithNode(g), cb, g.nodeCount, rules, rank, refs[0]).Ok?
    ensures var g1 := ExpandRule(WithNode(g), cb, g.nodeCount, rules, rank, refs[0]).value;
      RefsBelow(rules, rank, bound, refs[1..]) && ExpandChainRefs(g1, g.nodeCount, e, rules, rank, bound, refs[1..]).Ok? &&
      (Path(Added(WithNode(g), g1), cb, u, g.nodeCount) <==> Derives(rules, rank, refs[0], u)) &&
      (var g2 := ExpandChainRefs(g1, g.nodeCount, e, rules, rank, bound, refs[1..]).value;
       Path(Added(g1, g2), g.nodeCount, v, e) <==> ChainDerives(rules, rank, bound, refs[1..], v))
    decreases bound, 0, |refs|, 0
  {
    var n := g.nodeCount;
    ChainStep(g, cb, e, rules, rank, bound, refs);
    var g1 := ExpandRule(WithNode(g), cb, n, rules, rank, refs[0]).value;
    var g' := ExpandChainRefs(g1, n, e, rules, rank, bound, refs[1..]).value;
    ChainGrows(g, g1, g', cb, n, e);
    ExpandRuleLanguage(WithNode(g), cb, n, rules, rank, refs[0], u);
    ExpandChainRefsLanguage(g1, n, e, rules, rank, bound, refs[1..], v);
  }

  /** Both sides of the chain case split the word at the same points. */
  lemma ChainSplitEquiv(F1: seq<Edge>, F2: seq<Edge>, cb: nat, n: nat, e: nat, rules: Rules, rank: map<RuleName, nat>,
                        bound: nat, refs: seq<RuleName>, w: string)
    requires Ranked(rules, rank) && RefsBelow(rules, rank, bound, refs) && |refs| >= 2
    requires forall k :: 0 <= k <= |w| ==>
      (Path(F1, cb, w[..k], n) <==> Derives(rules, rank, refs[0], w[..k])) &&
      (Path(F2, n, w[k..], e) <==> ChainDerives(rules, rank, bound, refs[1..], w[k..]))
    requires Path(F1 + F2, cb, w, e) <==>
      exists k :: 0 <= k <= |w| && Path(F1, cb, w[..k], n) && Path(F2, n, w[k..], e)
    ensures Path(F1 + F2, cb, w, e) <==> ChainDerives(rules, rank, bound, refs, w)
  {
    if ChainDerives(rules, rank, bound, refs, w) {
      var k :| 0 <= k <= |w| && Derives(rules, rank, refs[0], w[..k]) && ChainDerives(rules, rank, bound, refs[1..], w[k..]);
      assert Path(F1, cb, w[..k], n) && Path(F2, n, w[k..], e);
    }
    if Path(F1 + F2, cb, w, e) {
      var k :| 0 <= k <= |w| && Path(F1, cb, w[..k], n) && Path(F2, n, w[k..], e);
      assert Derives(rules, rank, refs[0], w[..k]) && ChainDerives(rules, rank, bound, refs[1..], w[k..]);
    }
  }

  /** The end of a walk is its start or the target of an edge. */
  lemma {:induction false} PathEnd(es: seq<Edge>, a: nat, w: string, z: nat)
    requires Path(es, a, w, z)
    ensures z == a || exists ed :: ed in es && ed.dst == z
    decreases |w|
  {
    if w != [] {
      var ed :| ed in es && ed.src == a && ed.letter == w[0] && Path(es, ed.dst, w[1..], z);
      PathEnd(es, ed.dst, w[1..], z);
    }
  }

  /** In the possibility tree the end node 1 never gets an outgoing edge,
      and for rules without empty chains every other node has one: node 1
      is the only leaf. */
  lemma BuildLeaves(rules: Rules, rank: map<RuleName, nat>)
    requires Ranked(rules, rank)
    requires Build(rules, rank).Ok?
    ensures !HasOut(Build(rules, rank).value.edges, 1)
    ensures NonEmpty(rules) ==> forall x :: 0 <= x < Build(rules, rank).value.nodeCount && x != 1 ==>
      HasOut(Build(rules, rank).value.edges, x)
  {
    var g0 := Graph(2, []);
    var g := Build(rules, rank).value;
    assert Added(g0, g) == g.edges;
    forall ed | ed in g.edges
      ensures ed.src != 1
    {
      assert InFragment(ed.src, 0, 2, g.nodeCount);
    }
  }

  /** The possibility tree accepts a message, by the walk from node 0 that
      must end in a node without outgoing edges, exactly when rule 0
      derives it. */
  lemma AcceptsIffDerives(rules: Rules, rank: map<RuleName, nat>, w: string)
    requires Ranked(rules, rank) && NonEmpty(rules)
    requires Build(rules, rank).Ok?
    ensures AcceptsByPath(Build(rules, rank).value.edges, 0, w) <==> Derives(rules, rank, 0, w)
  {
    var g0 := Graph(2, []);
    var g := Build(rules, rank).value;
    assert Added(g0, g) == g.edges;
    ExpandRuleLanguage(g0, 0, 1, rules, rank, 0, w);
    if Derives(rules, rank, 0, w) {
      assert !HasOut(g.edges, 1);
    }
    if AcceptsByPath(g.edges, 0, w) {
      var x :| Path(g.edges, 0, w, x) && !HasOut(g.edges, x);
      PathEnd(g.edges, 0, w, x);
      assert x == 1;
    }
  }

  lemma {:induction false} PathSnoc(es: seq<Edge>, a: nat, u: string, c: char, z: nat)
    ensures Path(es, a, u + [c], z) <==> exists y :: Path(es, a, u, y) && Edge(y, c, z) in es
    decreases |u|
  {
    if u == [] {
      assert [] + [c] == [c];
      if Path(es, a, [c], z) {
        assert [c][0] == c && [c][1..] == [];
        var ed :| ed in es && ed.src == a && ed.letter == c && Path(es, ed.dst, [], z);
        assert ed == Edge(a, c, z);
        assert Path(es, a, [], a);
      }
      if exists y :: Path(es, a, u, y) && Edge(y, c, z) in es {
        assert Edge(a, c, z) in es;
        assert Path(es, z, [c][1..], z);
      }
    } else {
      var w := u + [c];
      assert w[0] == u[0] && w[1..] == u[1..] + [c];
      if Path(es, a, w, z) {
        var ed :| ed in es && ed.src == a && ed.letter == u[0] && Path(es, ed.dst, u[1..] + [c], z);
        PathSnoc(es, ed.dst, u[1..], c, z);
        var y :| Path(es, ed.dst, u[1..], y) && Edge(y, c, z) in es;
        assert Path(es, a, u, y);
      }
      if exists y :: Path(es, a, u, y) && Edge(y, c, z) in es {
        var y :| Path(es, a, u, y) && Edge(y, c, z) in es;
        var ed :| ed in es && ed.src == a && ed.letter == u[0] && Path(es, ed.dst, u[1..], y);
        PathSnoc(es, ed.dst, u[1..], c, z);
      }
    }
  }

  // ---------------------------------------------------------------------
  // The possibility tree as a graph updated in place

  class PossibilityTree {
    var nodeCount: nat
    var edges: seq<Edge>

    constructor ()
      ensures nodeCount == 0 && edges == []
    {
      nodeCount := 0;
      edges := [];
    }

    function Value(): Graph
      reads this
    {
      Graph(nodeCount, edges)
    }

    /** Adds a node and returns its index, the number of nodes before. */
    method AddNode() returns (n: nat)
      modifies this
      ensures n == old(nodeCount) && Value() == WithNode(old(Value()))
    {
      n := nodeCount;
      nodeCount := nodeCount + 1;
    }

    method AddEdge(a: nat, c: char, b: nat)
      modifies this
      ensures Value() == WithEdge(old(Value()), a, c, b)
    {
      edges := edges + [Edge(a, c, b)];
    }
  }

  /** Expands rule between begin and end in the tree; an Err carries the
      panic of a missing rule or of a literal among alternatives. */
  method ExpandChain(tree: PossibilityTree, begin: nat, end: nat, rules: Rules, ghost rank: map<RuleName, nat>, rule: RuleName)
    returns (r: Result<()>)
    requires Ranked(rules, rank)
    modifies tree
    ensures r.Ok? ==> ExpandRule(old(tree.Value()), begin, end, rules, rank, rule) == Ok(tree.Value())
    ensures r.Err? ==> ExpandRule(old(tree.Value()), begin, end, rules, rank, rule) == Err(r.error)
    decreases Height(rules, rank, rule), 2
  {
    if rule !in rules {
      return Err("Rule not found");
    }
    var options := rules[rule];
    if IsLiteralRule(options) {
      tree.AddEdge(begin, options[0].letter, end);
      return Ok(());
    }
    ghost var bound := Height(rules, rank, rule);
    ghost var g0 := tree.Value();
    var i := 0;
    while i < |options|
      invariant 0 <= i <= |options|
      invariant ExpandOptions(g0, begin, end, rules, rank, bound, options) ==
                ExpandOptions(tree.Value(), begin, end, rules, rank, bound, options[i..])
    {
      match options[i]
      case Literal(_) =>
        return Err("More than 1 literal in rule");
      case Chain(chainedRules) =>
        ghost var gc := tree.Value();
        assert options[i..][1..] == options[i + 1..];
        var chainBegin := begin;
        var j := 0;
        while j < |chainedRules|
          invariant 0 <= j <= |chainedRules|
          invariant ExpandChainRefs(gc, begin, end, rules, rank, bound, chainedRules) ==
                    ExpandChainRefs(tree.Value(), chainBegin, end, rules, rank, bound, chainedRules[j..])
        {
          var chainNext: nat;
          if j + 1 < |chainedRules| {
            chainNext := tree.AddNode();
          } else {
            chainNext := end;
          }
          var step := ExpandChain(tree, chainBegin, chainNext, rules, rank, chainedRules[j]);
          if step.Err? {
            return step;
          }
          assert chainedRules[j..][1..] == chainedRules[j + 1..];
          chainBegin := chainNext;
          j := j + 1;
        }
      i := i + 1;
    }
    r := Ok(());
  }

  /** A fresh tree with the root 0 and the end node 1, and rule 0 expanded
      between them. */
  method BuildPossibilityTree(rules: Rules, ghost rank: map<RuleName, nat>) returns (tree: PossibilityTree, root: nat, built: Result<()>)
    requires Ranked(rules, rank)
    ensures fresh(tree) && root == 0
    ensures built.Ok? <==> Build(rules, rank).Ok?
    ensures built.Ok? ==> tree.Value() == Build(rules, rank).value
    ensures built.Err? ==> Build(rules, rank) == Err(built.error)
  {
    tree := new PossibilityTree();
    root := tree.AddNode();
    var end := tree.AddNode();
    built := ExpandChain(tree, root, end, rules, rank, 0);
  }

  /** The end nodes of the edges from one of heads labelled c. */
  function Advance(es: seq<Edge>, heads: seq<nat>, c: char): (r: seq<nat>)
    ensures forall y :: y in r <==> exists x :: x in heads && Edge(x, c, y) in es
  {
    if heads == [] then [] else Targets(es, heads[0], c) + Advance(es, heads[1..], c)
  }

  function Targets(es: seq<Edge>, x: nat, c: char): (r: seq<nat>)
    ensures forall y :: y in r <==> Edge(x, c, y) in es
  {
    if es == [] then []
    else (if es[0].src == x && es[0].letter == c then [es[0].dst] else []) + Targets(es[1..], x, c)
  }

  function HasDeadEnd(es: seq<Edge>, heads: seq<nat>): (r: bool)
    ensures r <==> exists x :: x in heads && !HasOut(es, x)
  {
    if heads == [] then false else !HasOut(es, heads[0]) || HasDeadEnd(es, heads[1..])
  }

  /** Walks the message through the tree, keeping all the nodes the
      prefix read so far can reach, and accepts when one of them has no
      outgoing edge. */
  method ValidateMessage(message: string, tree: PossibilityTree, root: nat) returns (valid: bool)
    ensures valid <==> AcceptsByPath(tree.edges, root, message)
  {
    var heads := [root];
    for i := 0 to |message|
      invariant forall x :: x in heads <==> Path(tree.edges, root, message[..i], x)
    {
      ghost var before := heads;
      heads := Advance(tree.edges, heads, message[i]);
      forall y ensures y in heads <==> Path(tree.edges, root, message[..i + 1], y) {
        assert message[..i + 1] == message[..i] + [message[i]];
        PathSnoc(tree.edges, root, message[..i], message[i], y);
      }
    }
    assert message[..|message|] == message;
    valid := HasDeadEnd(tree.edges, heads);
  }

  ghost function CountDerived(rules: Rules, rank: map<RuleName, nat>, messages: seq<string>): nat
    requires Ranked(rules, rank)
  {
    if messages == [] then 0
    else CountDerived(rules, rank, messages[..|messages| - 1]) + if Derives(rules, rank, 0, messages[|messages| - 1]) then 1 else 0
  }

  /** The answer to the first part: how many messages rule 0 matches, or
      the panic the rules cause. */
  method CountMatching(rules: Rules, ghost rank: map<RuleName, nat>, messages: seq<string>) returns (r: Result<nat>)
    requires Ranked(rules, rank)
    ensures r.Ok? <==> Resolves(rules, rank, 0)
    ensures r.Err? ==> Build(rules, rank) == Err(r.error)
    ensures r.Ok? && NonEmpty(rules) ==> r.value == CountDerived(rules, rank, messages)
  {
    var tree, root, built := BuildPossibilityTree(rules, rank);
    if built.Err? {
      return Err(built.error);
    }
    var count := 0;
    for i := 0 to |messages|
      invariant tree.Value() == Build(rules, rank).value
      invariant NonEmpty(rules) ==> count == CountDerived(rules, rank, messages[..i])
    {
      var valid := ValidateMessage(messages[i], tree, root);
      if NonEmpty(rules) {
        AcceptsIffDerives(rules, rank, messages[i]);
        assert messages[..i + 1][..i] == messages[..i];
        assert messages[..i + 1][i] == messages[i];
      }
      if valid {
        count := count + 1;
      }
    }
    assert messages[..|messages|] == messages;
    return Ok(count);
  }

  // ---------------------------------------------------------------------
  // Parsing the rules block

  function ChainOf(option: string): RuleOption
  {
    Chain(ParseNats(SplitWhitespace(option), U16_MAX))
  }

  /** An alternative refers to the whitespace-separated words that read as
      u16 rule names, in order; any other word is dropped. */
  lemma ChainOfKeepsNames(option: string)
    ensures FilterMapped(SplitWhitespace(option), ParserUpTo(U16_MAX), ChainOf(option).refs)
  {
    ParseNatsFilterMapped(SplitWhitespace(option), U16_MAX);
  }

  /** The right-hand side of a rule: a quoted letter, or alternatives
      separated by '|'.  An empty quotation panics. */
  function ConvertToRuleOptions(options: string): (r: Result<seq<RuleOption>>)
    ensures r.Ok? ==> |r.value| >= 1
    ensures r.Ok? ==> IsLiteralRule(r.value) || forall o :: o in r.value ==> o.Chain?
    ensures r.Err? <==> |options| > 0 && options[0] == '"' && TrimMatches(options, '"') == []
    ensures |options| > 0 && options[0] == '"' && r.Ok? ==>
      r.value == [Literal(TrimMatches(options, '"')[0])]
    ensures !(|options| > 0 && options[0] == '"') ==>
      var parts := Split(options, '|');
      r.Ok? && |r.value| == |parts| &&
      forall i :: 0 <= i < |parts| ==> r.value[i] == ChainOf(parts[i])
  {
    if |options| > 0 && options[0] == '"' then
      var t := TrimMatches(options, '"');
      if t == [] then Err("called `Option::unwrap()` on a `None` value") else Ok([Literal(t[0])])
    else
      var parts := Split(options, '|');
      Ok(seq(|parts|, i requires 0 <= i < |parts| => ChainOf(parts[i])))
  }

  /** One line "<name>: <options>". */
  function ParseRuleLine(line: string): (r: Result<(RuleName, seq<RuleOption>)>)
    ensures r.Ok? ==> r.value.0 <= U16_MAX && |r.value.1| >= 1
  {
    var pieces := SplitOn(line, ": ");
    match ParseNat(pieces[0], U16_MAX)
    case None => Err("Expected a integer rule name")
    case Some(name) =>
      if |pieces| < 2 then Err("Expected rule options")
      else match ConvertToRuleOptions(pieces[1])
        case Err(m) => Err(m)
        case Ok(opts) => Ok((name, opts))
  }

  /** The rules of the lines collected into a map; a later line for the
      same name replaces an earlier one. */
  function CollectRules(lines: seq<string>, acc: Rules): (r: Result<Rules>)
    ensures r.Ok? ==> acc.Keys <= r.value.Keys
  {
    if lines == [] then Ok(acc)
    else match ParseRuleLine(lines[0])
      case Err(m) => Err(m)
      case Ok(entry) => CollectRules(lines[1..], acc[entry.0 := entry.1])
  }

  function ParseRules(input: string): (r: Result<Rules>)
  {
    CollectRules(Lines(input), map[])
  }

  // Writing rules as text, the inverse of parsing.

  function RenderChain(refs: seq<RuleName>): string
  {
    Join(ShowNats(refs), " ")
  }

  function ChainTexts(opts: seq<RuleOption>): seq<string>
  {
    seq(|opts|, i requires 0 <= i < |opts| => if opts[i].Chain? then RenderChain(opts[i].refs) else "")
  }

  function RenderOptions(opts: seq<RuleOption>): string
  {
    if IsLiteralRule(opts) then ['"', opts[0].letter, '"'] else Join(ChainTexts(opts), " | ")
  }

  function RenderRule(entry: (RuleName, seq<RuleOption>)): string
  {
    ShowNat(entry.0) + ": " + RenderOptions(entry.1)
  }

  function RenderRules(entries: seq<(RuleName, seq<RuleOption>)>): string
  {
    Join(RenderLines(entries), "\n")
  }

  /** The rules a list of definitions denotes: each definition stands
      unless a later one redefines the same name. */
  function MapOf(entries: seq<(RuleName, seq<RuleOption>)>): Rules
  {
    if entries == [] then map[] else map[entries[0].0 := entries[0].1] + MapOf(entries[1..])
  }

  /** A rule the text format can express: a u16 name, and either one
      quoted letter or one or more chains of u16 names. */
  predicate Renderable(entry: (RuleName, seq<RuleOption>))
  {
    entry.0 <= U16_MAX &&
    ((IsLiteralRule(entry.1) && entry.1[0].letter != '"' && entry.1[0].letter != '\n') ||
     (|entry.1| >= 1 && forall o :: o in entry.1 ==> o.Chain? && forall q :: q in o.refs ==> q <= U16_MAX))
  }

  const Punctuation: set<char> := {'|', ':', '\n', '"'}

  lemma ChainTextAvoids(refs: seq<RuleName>, bad: set<char>)
    requires forall c :: c in bad ==> !IsDigit(c) && c != ' '
    ensures Avoids(RenderChain(refs), bad)
  {
    var names := ShowNats(refs);
    forall i | 0 <= i < |names| ensures Avoids(names[i], bad) {
      DigitsAvoid(names[i], bad);
    }
    JoinAvoids(names, " ", bad);
  }

  lemma ChainRoundTrip(refs: seq<RuleName>, left: bool, right: bool)
    requires forall q :: q in refs ==> q <= U16_MAX
    ensures ChainOf((if left then " " else "") + RenderChain(refs) + (if right then " " else "")) == Chain(refs)
  {
    SplitWhitespacePadded(RenderChain(refs), left, right);
    var names := ShowNats(refs);
    if refs == [] {
      assert SplitWhitespace("") == [];
    } else {
      forall i, j | 0 <= i < |names| && 0 <= j < |names[i]| ensures names[i][j] !in Whitespace {
        assert IsDigit(names[i][j]);
      }
      SplitWhitespaceJoin(names);
    }
    ParseShowNats(refs, U16_MAX);
  }

  /** The alternatives as written between the '|' separators. */
  function Pad(cs: seq<string>, i: nat): string
    requires i < |cs|
  {
    (if i > 0 then " " else "") + cs[i] + (if i + 1 < |cs| then " " else "")
  }

  function PadAll(cs: seq<string>): seq<string>
  {
    seq(|cs|, i requires 0 <= i < |cs| => Pad(cs, i))
  }

  lemma {:induction false} JoinPadded(cs: seq<string>)
    requires |cs| >= 1
    ensures Join(cs, " | ") == Join(PadAll(cs), "|")
    decreases |cs|
  {
    if |cs| == 1 {
      assert Pad(cs, 0) == cs[0];
      assert PadAll(cs) == [cs[0]];
    } else {
      var P, Q := PadAll(cs), PadAll(cs[1..]);
      JoinPadded(cs[1..]);
      forall j | 0 <= j < |Q| ensures P[j + 1] == (if j == 0 then " " + Q[0] else Q[j]) {
        assert P[j + 1] == Pad(cs, j + 1) && Q[j] == Pad(cs[1..], j);
        if j == 0 { assert Pad(cs[1..], 0) == cs[1] + (if 1 < |cs[1..]| then " " else ""); }
      }
      assert P[1..] == [" " + Q[0]] + Q[1..];
      JoinHead(Q, " ", "|");
      assert P[0] == cs[0] + " ";
    }
  }

  lemma OptionsRoundTrip(opts: seq<RuleOption>)
    requires Renderable((0, opts))
    ensures ConvertToRuleOptions(RenderOptions(opts)) == Ok(opts)
  {
    if IsLiteralRule(opts) {
      assert opts[0] in opts;
      LiteralRoundTrip(opts[0].letter);
      assert opts == [Literal(opts[0].letter)];
    } else {
      ChainsRoundTrip(opts);
    }
  }

  /** Only the first letter of a longer quotation is kept. */
  lemma QuotedKeepsFirstLetter()
    ensures ConvertToRuleOptions("\"ab\"") == Ok([Literal('a')])
  {
    var s := "\"ab\"";
    assert s[1..][|s[1..]| - 1] == '"' && s[1..][..|s[1..]| - 1] == "ab";
    assert TrimMatches(s, '"') == "ab";
  }

  lemma LiteralRoundTrip(c: char)
    requires c != '"'
    ensures ConvertToRuleOptions(['"', c, '"']) == Ok([Literal(c)])
  {
    var t: string := ['"', c, '"'];
    assert t[1..] == [c, '"'];
    assert [c, '"'][..1] == [c];
    assert TrimMatches([c], '"') == [c];
    assert TrimMatches([c, '"'], '"') == [c];
    assert TrimMatches(t, '"') == [c];
  }

  /** The pieces between the '|' of a rendered list of chains. */
  lemma SplitChainTexts(opts: seq<RuleOption>)
    requires |opts| >= 1 && forall o :: o in opts ==> o.Chain?
    ensures Split(Join(ChainTexts(opts), " | "), '|') == PadAll(ChainTexts(opts))
    ensures Avoids(Join(ChainTexts(opts), " | "), {'"'})
  {
    var cs := ChainTexts(opts);
    JoinPadded(cs);
    var P := PadAll(cs);
    forall i | 0 <= i < |P| ensures Avoids(P[i], Punctuation) {
      assert opts[i] in opts;
      ChainTextAvoids(opts[i].refs, Punctuation);
      AvoidsConcat(if i > 0 then " " else "", cs[i], Punctuation);
      AvoidsConcat((if i > 0 then " " else "") + cs[i], if i + 1 < |cs| then " " else "", Punctuation);
    }
    forall i, j | 0 <= i < |P| && 0 <= j < |P[i]| ensures P[i][j] !in {'|'} {
      assert P[i][j] !in Punctuation;
    }
    SplitAnyJoin(P, {'|'}, '|');
    forall i | 0 <= i < |P| ensures Avoids(P[i], {'"'}) {
      assert forall j :: 0 <= j < |P[i]| ==> P[i][j] !in Punctuation;
    }
    JoinAvoids(P, "|", {'"'});
  }

  lemma ChainsRoundTrip(opts: seq<RuleOption>)
    requires |opts| >= 1 && forall o :: o in opts ==> o.Chain? && forall q :: q in o.refs ==> q <= U16_MAX
    ensures ConvertToRuleOptions(Join(ChainTexts(opts), " | ")) == Ok(opts)
  {
    var cs := ChainTexts(opts);
    var body := Join(cs, " | ");
    SplitChainTexts(opts);
    var P := PadAll(cs);
    assert |body| > 0 ==> body[0] != '"';
    var r := ConvertToRuleOptions(body);
    assert r == Ok(seq(|P|, i requires 0 <= i < |P| => ChainOf(P[i])));
    forall i | 0 <= i < |opts| ensures ChainOf(P[i]) == opts[i] {
      assert opts[i] in opts;
      assert P[i] == (if i > 0 then " " else "") + RenderChain(opts[i].refs) + (if i + 1 < |cs| then " " else "");
      ChainRoundTrip(opts[i].refs, i > 0, i + 1 < |cs|);
    }
    assert seq(|P|, i requires 0 <= i < |P| => ChainOf(P[i])) == opts;
  }

  lemma BodyAvoidsColon(opts: seq<RuleOption>)
    requires Renderable((0, opts))
    ensures NoOccurrence(RenderOptions(opts), ": ")
  {
    var body := RenderOptions(opts);
    if IsLiteralRule(opts) {
      forall i | 0 <= i <= |body| ensures !StartsWith(body[i..], ": ") {
        if i < |body| - 1 { assert body[i..][..2] == [body[i], body[i + 1]]; }
      }
    } else {
      var cs := ChainTexts(opts);
      forall i | 0 <= i < |cs| ensures Avoids(cs[i], {':'}) {
        ChainTextAvoids(opts[i].refs, {':'});
      }
      JoinAvoids(cs, " | ", {':'});
      NoOccurrenceByFirst(body, ": ");
    }
  }

  lemma RuleLineRoundTrip(entry: (RuleName, seq<RuleOption>))
    requires Renderable(entry)
    ensures ParseRuleLine(RenderRule(entry)) == Ok(entry)
  {
    var name := ShowNat(entry.0);
    assert forall i :: 0 <= i < |name| ==> name[i] != ':' by {
      assert AllDigits(name);
    }
    assert Renderable((0, entry.1));
    BodyAvoidsColon(entry.1);
    SplitOnPair(name, RenderOptions(entry.1), ": ");
    ParseShowNat(entry.0, U16_MAX);
    OptionsRoundTrip(entry.1);
  }

  lemma RenderRuleAvoidsNewline(entry: (RuleName, seq<RuleOption>))
    requires Renderable(entry)
    ensures |RenderRule(entry)| > 0 && '\n' !in RenderRule(entry)
  {
    var name := ShowNat(entry.0);
    DigitsAvoid(name, {'\n'});
    var body := RenderOptions(entry.1);
    if !IsLiteralRule(entry.1) {
      var cs := ChainTexts(entry.1);
      forall i | 0 <= i < |cs| ensures Avoids(cs[i], {'\n'}) {
        assert entry.1[i] in entry.1;
        ChainTextAvoids(entry.1[i].refs, {'\n'});
      }
      JoinAvoids(cs, " | ", {'\n'});
    }
    AvoidsConcat(name, ": ", {'\n'});
    AvoidsConcat(name + ": ", body, {'\n'});
    assert Avoids(RenderRule(entry), {'\n'});
  }

  function RenderLines(entries: seq<(RuleName, seq<RuleOption>)>): seq<string>
  {
    seq(|entries|, i requires 0 <= i < |entries| => RenderRule(entries[i]))
  }

  lemma {:induction false} CollectRendered(entries: seq<(RuleName, seq<RuleOption>)>, acc: Rules)
    requires forall i :: 0 <= i < |entries| ==> Renderable(entries[i])
    ensures CollectRules(RenderLines(entries), acc) == Ok(acc + MapOf(entries))
    decreases |entries|
  {
    var lines := RenderLines(entries);
    if entries == [] {
      assert acc + map[] == acc;
    } else {
      var e0, tail := entries[0], entries[1..];
      RuleLineRoundTrip(e0);
      assert lines[0] == RenderRule(e0);
      assert lines[1..] == RenderLines(tail);
      CollectRendered(tail, acc[e0.0 := e0.1]);
      assert CollectRules(lines, acc) == CollectRules(RenderLines(tail), acc[e0.0 := e0.1]);
      assert MapOf(entries) == map[e0.0 := e0.1] + MapOf(tail);
      MapUnionShift(acc, e0.0, e0.1, MapOf(tail));
    }
  }

  lemma MapUnionShift(acc: Rules, k: RuleName, v: seq<RuleOption>, m: Rules)
    ensures acc[k := v] + m == acc + (map[k := v] + m)
  {
  }

  /** Parsing the text of well-formed rules gives back the rules. */
  lemma ParseRenderRules(entries: seq<(RuleName, seq<RuleOption>)>)
    requires forall i :: 0 <= i < |entries| ==> Renderable(entries[i])
    ensures ParseRules(RenderRules(entries)) == Ok(MapOf(entries))
  {
    RenderedLines(entries);
    CollectRendered(entries, map[]);
    assert map[] + MapOf(entries) == MapOf(entries);
  }

  /** The text of well-formed rules splits back into their lines. */
  lemma RenderedLines(entries: seq<(RuleName, seq<RuleOption>)>)
    requires forall i :: 0 <= i < |entries| ==> Renderable(entries[i])
    ensures Lines(RenderRules(entries)) == RenderLines(entries)
  {
    var lines := RenderLines(entries);
    forall i | 0 <= i < |lines| ensures |lines[i]| > 0 && '\n' !in lines[i] {
      RenderRuleAvoidsNewline(entries[i]);
    }
    LinesJoin(lines);
  }

  // ---------------------------------------------------------------------
  // The rules, the tree and the messages of the tests

  function ExampleRules(): Rules
  {
    map[0 := [Chain([4, 1, 5])],
        1 := [Chain([2, 3]), Chain([3, 2])],
        2 := [Chain([4, 4]), Chain([5, 5])],
        3 := [Chain([4, 5]), Chain([5, 4])],
        4 := [Literal('a')],
        5 := [Literal('b')]]
  }

  /** Rules 4 and 5 are letters, 2 and 3 refer only to them, 1 to 2 and
      3, and 0 to 1, 4 and 5. */
  function ExampleRank(): map<RuleName, nat>
  {
    map[0 := 3, 1 := 2, 2 := 1, 3 := 1, 4 := 0, 5 := 0]
  }

  /** The example rules are acyclic. */
  lemma ExampleRanked(rules: Rules, rank: map<RuleName, nat>)
    requires rules == ExampleRules() && rank == ExampleRank()
    ensures Ranked(rules, rank)
  {
    assert Height(rules, rank, 4) == 1 && Height(rules, rank, 5) == 1;
    assert Height(rules, rank, 2) == 2 && Height(rules, rank, 3) == 2;
    assert Height(rules, rank, 1) == 3;
    forall r | r in rules
      ensures r in rank && ChainsBelow(rules, rank, rank[r] + 1, rules[r])
    {
      assert r in {0, 1, 2, 3, 4, 5};
    }
  }

  /** No rule of the example has an empty alternative. */
  lemma ExampleNonEmpty(rules: Rules)
    requires rules == ExampleRules()
    ensures NonEmpty(rules)
  {
  }

  /** A rule that is one letter adds one edge. */
  lemma ExpandLetterRule(g: Graph, b: nat, e: nat, rules: Rules, rank: map<RuleName, nat>, rule: RuleName, c: char)
    requires Ranked(rules, rank) && rule in rules && rules[rule] == [Literal(c)]
    ensures ExpandRule(g, b, e, rules, rank, rule) == Ok(WithEdge(g, b, c, e))
  {
  }

  lemma ExpandChainOfTwo(g: Graph, cb: nat, e: nat, rules: Rules, rank: map<RuleName, nat>, bound: nat,
                         x: RuleName, y: RuleName, g1: Graph, g2: Graph)
    requires Ranked(rules, rank) && RefsBelow(rules, rank, bound, [x, y])
    requires ExpandRule(WithNode(g), cb, g.nodeCount, rules, rank, x) == Ok(g1)
    requires ExpandRule(g1, g.nodeCount, e, rules, rank, y) == Ok(g2)
    ensures ExpandChainRefs(g, cb, e, rules, rank, bound, [x, y]) == Ok(g2)
  {
    assert [x, y][1..] == [y];
  }

  lemma ExpandChainOfThree(g: Graph, cb: nat, e: nat, rules: Rules, rank: map<RuleName, nat>, bound: nat,
                           x: RuleName, y: RuleName, z: RuleName, g1: Graph, g3: Graph)
    requires Ranked(rules, rank) && RefsBelow(rules, rank, bound, [x, y, z])
    requires ExpandRule(WithNode(g), cb, g.nodeCount, rules, rank, x) == Ok(g1)
    requires ExpandChainRefs(g1, g.nodeCount, e, rules, rank, bound, [y, z]) == Ok(g3)
    ensures ExpandChainRefs(g, cb, e, rules, rank, bound, [x, y, z]) == Ok(g3)
  {
    assert [x, y, z][1..] == [y, z];
  }

  lemma ExpandOptionsCons(g: Graph, b: nat, e: nat, rules: Rules, rank: map<RuleName, nat>, bound: nat,
                          c: seq<RuleName>, rest: seq<RuleOption>, g1: Graph)
    requires Ranked(rules, rank) && ChainsBelow(rules, rank, bound, [Chain(c)] + rest)
    requires RefsBelow(rules, rank, bound, c) && ChainsBelow(rules, rank, bound, rest)
    requires ExpandChainRefs(g, b, e, rules, rank, bound, c) == Ok(g1)
    ensures ExpandOptions(g, b, e, rules, rank, bound, [Chain(c)] + rest) == ExpandOptions(g1, b, e, rules, rank, bound, rest)
  {
    assert ([Chain(c)] + rest)[1..] == rest;
  }

  lemma ExpandTwoOptions(g: Graph, b: nat, e: nat, rules: Rules, rank: map<RuleName, nat>, bound: nat,
                         c1: seq<RuleName>, c2: seq<RuleName>, g1: Graph, g2: Graph)
    requires Ranked(rules, rank) && RefsBelow(rules, rank, bound, c1) && RefsBelow(rules, rank, bound, c2)
    requires ExpandChainRefs(g, b, e, rules, rank, bound, c1) == Ok(g1)
    requires ExpandChainRefs(g1, b, e, rules, rank, bound, c2) == Ok(g2)
    ensures ExpandOptions(g, b, e, rules, rank, bound, [Chain(c1), Chain(c2)]) == Ok(g2)
  {
    assert [Chain(c2)] + [] == [Chain(c2)];
    ExpandOptionsCons(g1, b, e, rules, rank, bound, c2, [], g2);
    assert [Chain(c1)] + [Chain(c2)] == [Chain(c1), Chain(c2)];
    ExpandOptionsCons(g, b, e, rules, rank, bound, c1, [Chain(c2)], g1);
  }

  /** A rule that is not one letter expands its alternatives. */
  lemma ExpandOptionsRule(g: Graph, b: nat, e: nat, rules: Rules, rank: map<RuleName, nat>, rule: RuleName, g': Graph)
    requires Ranked(rules, rank) && rule in rules && !IsLiteralRule(rules[rule])
    requires ExpandOptions(g, b, e, rules, rank, Height(rules, rank, rule), rules[rule]) == Ok(g')
    ensures ExpandRule(g, b, e, rules, rank, rule) == Ok(g')
  {
  }

  /** Two letters in a row from b to e, through one fresh node. */
  function LetterPair(g: Graph, b: nat, c1: char, c2: char, e: nat): Graph
  {
    WithEdge(WithEdge(WithNode(g), b, c1, g.nodeCount), g.nodeCount, c2, e)
  }

  /** A rule of two alternatives, each a chain of two letter rules. */
  lemma ExpandLetterPairs(g: Graph, b: nat, e: nat, rules: Rules, rank: map<RuleName, nat>, rule: RuleName,
                          x: RuleName, y: RuleName, u: RuleName, v: RuleName, cx: char, cy: char, cu: char, cv: char)
    requires Ranked(rules, rank) && rule in rules && rules[rule] == [Chain([x, y]), Chain([u, v])]
    requires x in rules && rules[x] == [Literal(cx)] && y in rules && rules[y] == [Literal(cy)]
    requires u in rules && rules[u] == [Literal(cu)] && v in rules && rules[v] == [Literal(cv)]
    ensures ExpandRule(g, b, e, rules, rank, rule) == Ok(LetterPair(LetterPair(g, b, cx, cy, e), b, cu, cv, e))
  {
    var bound := Height(rules, rank, rule);
    assert Chain([x, y]) in rules[rule] && Chain([u, v]) in rules[rule];
    var n := g.nodeCount;
    var g1 := WithEdge(WithNode(g), b, cx, n);
    ExpandLetterRule(WithNode(g), b, n, rules, rank, x, cx);
    ExpandLetterRule(g1, n, e, rules, rank, y, cy);
    var p := LetterPair(g, b, cx, cy, e);
    ExpandChainOfTwo(g, b, e, rules, rank, bound, x, y, g1, p);
    var m := p.nodeCount;
    var p1 := WithEdge(WithNode(p), b, cu, m);
    ExpandLetterRule(WithNode(p), b, m, rules, rank, u, cu);
    ExpandLetterRule(p1, m, e, rules, rank, v, cv);
    ExpandChainOfTwo(p, b, e, rules, rank, bound, u, v, p1, LetterPair(p, b, cu, cv, e));
    ExpandTwoOptions(g, b, e, rules, rank, bound, [x, y], [u, v], p, LetterPair(p, b, cu, cv, e));
  }

  /** What rule 1 of the example adds between b and e: the chain 2 3, then
      the chain 3 2, each through a fresh middle node. */
  function RuleOneGraph(g: Graph, b: nat, e: nat): Graph
  {
    var n := g.nodeCount;
    var two := LetterPair(LetterPair(WithNode(g), b, 'a', 'a', n), b, 'b', 'b', n);
    var three := LetterPair(LetterPair(two, n, 'a', 'b', e), n, 'b', 'a', e);
    var m := three.nodeCount;
    var three' := LetterPair(LetterPair(WithNode(three), b, 'a', 'b', m), b, 'b', 'a', m);
    LetterPair(LetterPair(three', m, 'a', 'a', e), m, 'b', 'b', e)
  }

  lemma ExpandRuleOne(g: Graph, b: nat, e: nat, rules: Rules, rank: map<RuleName, nat>)
    requires rules == ExampleRules() && rank == ExampleRank()
    ensures Ranked(rules, rank)
    ensures ExpandRule(g, b, e, rules, rank, 1) == Ok(RuleOneGraph(g, b, e))
  {
    ExampleRuleFacts(rules, rank);
    ExpandRuleOneFrom(g, b, e, rules, rank);
  }

  /** What the expansion of rule 1 needs to know of the example rules. */
  ghost predicate RuleOneFacts(rules: Rules, rank: map<RuleName, nat>)
  {
    && Ranked(rules, rank)
    && 1 in rules && rules[1] == [Chain([2, 3]), Chain([3, 2])] && Height(rules, rank, 1) == 3
    && 2 in rules && rules[2] == [Chain([4, 4]), Chain([5, 5])]
    && 3 in rules && rules[3] == [Chain([4, 5]), Chain([5, 4])]
    && 4 in rules && rules[4] == [Literal('a')]
    && 5 in rules && rules[5] == [Literal('b')]
    && RefsBelow(rules, rank, 3, [2, 3]) && RefsBelow(rules, rank, 3, [3, 2])
  }

  lemma ExampleRuleFacts(rules: Rules, rank: map<RuleName, nat>)
    requires rules == ExampleRules() && rank == ExampleRank()
    ensures RuleOneFacts(rules, rank)
  {
    ExampleRanked(rules, rank);
  }

  lemma ExpandRuleOneFrom(g: Graph, b: nat, e: nat, rules: Rules, rank: map<RuleName, nat>)
    requires RuleOneFacts(rules, rank)
    ensures ExpandRule(g, b, e, rules, rank, 1) == Ok(RuleOneGraph(g, b, e))
  {
    var bound := Height(rules, rank, 1);
    var n := g.nodeCount;
    var two := LetterPair(LetterPair(WithNode(g), b, 'a', 'a', n), b, 'b', 'b', n);
    ExpandLetterPairs(WithNode(g), b, n, rules, rank, 2, 4, 4, 5, 5, 'a', 'a', 'b', 'b');
    var three := LetterPair(LetterPair(two, n, 'a', 'b', e), n, 'b', 'a', e);
    ExpandLetterPairs(two, n, e, rules, rank, 3, 4, 5, 5, 4, 'a', 'b', 'b', 'a');
    ExpandChainOfTwo(g, b, e, rules, rank, bound, 2, 3, two, three);
    var m := three.nodeCount;
    var three' := LetterPair(LetterPair(WithNode(three), b, 'a', 'b', m), b, 'b', 'a', m);
    ExpandLetterPairs(WithNode(three), b, m, rules, rank, 3, 4, 5, 5, 4, 'a', 'b', 'b', 'a');
    var two' := LetterPair(LetterPair(three', m, 'a', 'a', e), m, 'b', 'b', e);
    ExpandLetterPairs(three', m, e, rules, rank, 2, 4, 4, 5, 5, 'a', 'a', 'b', 'b');
    ExpandChainOfTwo(three, b, e, rules, rank, bound, 3, 2, three', two');
    ExpandTwoOptions(g, b, e, rules, rank, bound, [2, 3], [3, 2], three, two');
    ExpandOptionsRule(g, b, e, rules, rank, 1, two');
  }


  /** The tree build_possibility_tree makes of the example rules, nodes
      numbered in order of creation: 0 the root, 1 the end node. */
  function BuiltEdges(): seq<Edge>
  {
    [Edge(0, 'a', 2),
     Edge(2, 'a', 5), Edge(5, 'a', 4), Edge(2, 'b', 6), Edge(6, 'b', 4),
     Edge(4, 'a', 7), Edge(7, 'b', 3), Edge(4, 'b', 8), Edge(8, 'a', 3),
     Edge(2, 'a', 10), Edge(10, 'b', 9), Edge(2, 'b', 11), Edge(11, 'a', 9),
     Edge(9, 'a', 12), Edge(12, 'a', 3), Edge(9, 'b', 13), Edge(13, 'b', 3),
     Edge(3, 'b', 1)]
  }

  /** What rule 0 of the example, the chain 4 1 5, adds between the
      nodes 0 and 1 of a graph with two nodes. */
  function RuleZeroGraph(g: Graph): Graph
  {
    var g1 := WithEdge(WithNode(g), 0, 'a', 2);
    WithEdge(RuleOneGraph(WithNode(g1), 2, 3), 3, 'b', 1)
  }

  lemma ExpandRuleZeroChain(rules: Rules, rank: map<RuleName, nat>, bound: nat, g0: Graph)
    requires rules == ExampleRules() && rank == ExampleRank()
    requires g0.nodeCount == 2 && bound == 4
    ensures Ranked(rules, rank) && RefsBelow(rules, rank, bound, [4, 1, 5])
    ensures ExpandChainRefs(g0, 0, 1, rules, rank, bound, [4, 1, 5]) == Ok(RuleZeroGraph(g0))
  {
    RuleZeroRefs(rules, rank, bound);
    var g1 := WithEdge(WithNode(g0), 0, 'a', 2);
    ExpandLetterRule(WithNode(g0), 0, 2, rules, rank, 4, 'a');
    var g2 := RuleOneGraph(WithNode(g1), 2, 3);
    ExpandRuleOne(WithNode(g1), 2, 3, rules, rank);
    LastLetter(rules, rank, g2);
    RuleZeroTail(rules, rank, bound, g0, g1);
    ExpandChainOfThree(g0, 0, 1, rules, rank, bound, 4, 1, 5, g1, RuleZeroGraph(g0));
  }

  lemma RuleZeroRefs(rules: Rules, rank: map<RuleName, nat>, bound: nat)
    requires rules == ExampleRules() && rank == ExampleRank() && bound == 4
    ensures Ranked(rules, rank) && RefsBelow(rules, rank, bound, [4, 1, 5]) && RefsBelow(rules, rank, bound, [1, 5])
    ensures 4 in rules && rules[4] == [Literal('a')]
  {
    ExampleRanked(rules, rank);
  }

  /** The last two rules of the example's rule 0, the chain 1 5. */
  lemma RuleZeroTail(rules: Rules, rank: map<RuleName, nat>, bound: nat, g0: Graph, g1: Graph)
    requires Ranked(rules, rank) && RefsBelow(rules, rank, bound, [1, 5])
    requires g0.nodeCount == 2 && g1 == WithEdge(WithNode(g0), 0, 'a', 2)
    requires ExpandRule(WithNode(g1), 2, 3, rules, rank, 1) == Ok(RuleOneGraph(WithNode(g1), 2, 3))
    requires ExpandRule(RuleOneGraph(WithNode(g1), 2, 3), 3, 1, rules, rank, 5)
          == Ok(WithEdge(RuleOneGraph(WithNode(g1), 2, 3), 3, 'b', 1))
    ensures ExpandChainRefs(g1, 2, 1, rules, rank, bound, [1, 5]) == Ok(RuleZeroGraph(g0))
  {
    var g2 := RuleOneGraph(WithNode(g1), 2, 3);
    ExpandChainOfTwo(g1, 2, 1, rules, rank, bound, 1, 5, g2, WithEdge(g2, 3, 'b', 1));
  }

  lemma LastLetter(rules: Rules, rank: map<RuleName, nat>, g2: Graph)
    requires rules == ExampleRules() && rank == ExampleRank()
    ensures Ranked(rules, rank)
    ensures ExpandRule(g2, 3, 1, rules, rank, 5) == Ok(WithEdge(g2, 3, 'b', 1))
  {
    ExampleRanked(rules, rank);
    ExpandLetterRule(g2, 3, 1, rules, rank, 5, 'b');
  }

  lemma RuleZeroExample(g0: Graph, r: Graph)
    requires g0 == Graph(2, []) && r == Graph(14, BuiltEdges())
    ensures RuleZeroGraph(g0) == r
  {
  }

  lemma BuildRuleZero(rules: Rules, rank: map<RuleName, nat>, g0: Graph)
    requires rules == ExampleRules() && rank == ExampleRank() && g0 == Graph(2, [])
    ensures Ranked(rules, rank)
    ensures Build(rules, rank) == Ok(RuleZeroGraph(g0))
  {
    RuleZeroFacts(rules, rank);
    ExpandRuleZeroChain(rules, rank, 4, g0);
    ExpandRuleZero(rules, rank, g0, RuleZeroGraph(g0));
  }

  lemma RuleZeroFacts(rules: Rules, rank: map<RuleName, nat>)
    requires rules == ExampleRules() && rank == ExampleRank()
    ensures Ranked(rules, rank) && 0 in rules && rules[0] == [Chain([4, 1, 5])] && rank[0] == 3
  {
    ExampleRanked(rules, rank);
  }

  lemma ExpandRuleZero(rules: Rules, rank: map<RuleName, nat>, g0: Graph, r: Graph)
    requires Ranked(rules, rank) && 0 in rules && rules[0] == [Chain([4, 1, 5])] && rank[0] == 3
    requires RefsBelow(rules, rank, 4, [4, 1, 5])
    requires ExpandChainRefs(g0, 0, 1, rules, rank, 4, [4, 1, 5]) == Ok(r)
    ensures ExpandRule(g0, 0, 1, rules, rank, 0) == Ok(r)
  {
    assert Height(rules, rank, 0) == 4;
    assert rules[0] == [Chain([4, 1, 5])] + [];
    ExpandOptionsCons(g0, 0, 1, rules, rank, 4, [4, 1, 5], [], r);
    ExpandOptionsRule(g0, 0, 1, rules, rank, 0, r);
  }

  /** Building the example rules gives the tree above. */
  lemma BuildExample(rules: Rules, rank: map<RuleName, nat>)
    requires rules == ExampleRules() && rank == ExampleRank()
    ensures Ranked(rules, rank)
    ensures Build(rules, rank) == Ok(Graph(14, BuiltEdges()))
  {
    BuildRuleZero(rules, rank, Graph(2, []));
    RuleZeroExample(Graph(2, []), Graph(14, BuiltEdges()));
  }

  /** The tree test_build_possibility_tree expects and
      test_validate_message walks, nodes numbered in the order the tests
      create them. */
  function TestEdges(): seq<Edge>
  {
    [Edge(0, 'a', 1),
     Edge(1, 'a', 2), Edge(1, 'b', 3), Edge(2, 'a', 4), Edge(3, 'b', 4),
     Edge(1, 'a', 5), Edge(1, 'b', 6), Edge(5, 'b', 7), Edge(6, 'a', 7),
     Edge(4, 'a', 8), Edge(4, 'b', 9),
     Edge(7, 'a', 10), Edge(7, 'b', 11),
     Edge(8, 'b', 12), Edge(9, 'a', 12), Edge(10, 'a', 12), Edge(11, 'b', 12),
     Edge(12, 'b', 13)]
  }

  function Rename(f: seq<nat>, ed: Edge): Edge
    requires ed.src < |f| && ed.dst < |f|
  {
    Edge(f[ed.src], ed.letter, f[ed.dst])
  }

  /** f renames the nodes one to one (inv undoes it), every edge of E1
      renamed is an edge of E2, and the j-th edge of E2 is the p[j]-th edge
      of E1 renamed: the two trees are isomorphic, letters included. */
  predicate Renames(E1: seq<Edge>, E2: seq<Edge>, f: seq<nat>, inv: seq<nat>, p: seq<nat>)
  {
    (forall i :: 0 <= i < |f| ==> f[i] < |inv| && inv[f[i]] == i) &&
    (forall i :: 0 <= i < |E1| ==> E1[i].src < |f| && E1[i].dst < |f| && Rename(f, E1[i]) in E2) &&
    |p| == |E2| &&
    (forall j :: 0 <= j < |E2| ==> p[j] < |E1| && E2[j] == Rename(f, E1[p[j]]))
  }

  /** Walks are the same up to the renaming. */
  lemma {:induction false} PathRename(E1: seq<Edge>, E2: seq<Edge>, f: seq<nat>, inv: seq<nat>, p: seq<nat>,
                                      a: nat, w: string, z: nat)
    requires Renames(E1, E2, f, inv, p) && a < |f| && z < |f|
    ensures Path(E1, a, w, z) <==> Path(E2, f[a], w, f[z])
    decreases |w|
  {
    if w == [] {
      assert f[a] == f[z] ==> inv[f[a]] == inv[f[z]];
    } else {
      if Path(E1, a, w, z) {
        var ed :| ed in E1 && ed.src == a && ed.letter == w[0] && Path(E1, ed.dst, w[1..], z);
        var i :| 0 <= i < |E1| && E1[i] == ed;
        PathRename(E1, E2, f, inv, p, ed.dst, w[1..], z);
        assert Rename(f, ed) in E2;
      }
      if Path(E2, f[a], w, f[z]) {
        var ed2 :| ed2 in E2 && ed2.src == f[a] && ed2.letter == w[0] && Path(E2, ed2.dst, w[1..], f[z]);
        var j :| 0 <= j < |E2| && E2[j] == ed2;
        var ed := E1[p[j]];
        assert inv[f[ed.src]] == ed.src && inv[f[a]] == a;
        PathRename(E1, E2, f, inv, p, ed.dst, w[1..], z);
      }
    }
  }

  /** A node has an outgoing edge exactly when its new name has one. */
  lemma HasOutRename(E1: seq<Edge>, E2: seq<Edge>, f: seq<nat>, inv: seq<nat>, p: seq<nat>, x: nat)
    requires Renames(E1, E2, f, inv, p) && x < |f|
    ensures HasOut(E1, x) <==> HasOut(E2, f[x])
  {
    if HasOut(E1, x) {
      var ed :| ed in E1 && ed.src == x;
      var i :| 0 <= i < |E1| && E1[i] == ed;
      assert Rename(f, ed) in E2;
    }
    if HasOut(E2, f[x]) {
      var ed2 :| ed2 in E2 && ed2.src == f[x];
      var j :| 0 <= j < |E2| && E2[j] == ed2;
      var ed := E1[p[j]];
      assert inv[f[ed.src]] == ed.src && inv[f[x]] == x;
      assert ed in E1;
    }
  }

  /** Isomorphic trees accept the same messages: renaming the nodes does
      not change what validate_message decides. */
  lemma AcceptsRename(E1: seq<Edge>, E2: seq<Edge>, f: seq<nat>, inv: seq<nat>, p: seq<nat>, a: nat, w: string)
    requires Renames(E1, E2, f, inv, p) && a < |f|
    ensures AcceptsByPath(E1, a, w) <==> AcceptsByPath(E2, f[a], w)
  {
    if AcceptsByPath(E1, a, w) {
      var x :| Path(E1, a, w, x) && !HasOut(E1, x);
      PathEnd(E1, a, w, x);
      if x != a {
        var ed :| ed in E1 && ed.dst == x;
        var i :| 0 <= i < |E1| && E1[i] == ed;
      }
      PathRename(E1, E2, f, inv, p, a, w, x);
      HasOutRename(E1, E2, f, inv, p, x);
    }
    if AcceptsByPath(E2, f[a], w) {
      var y :| Path(E2, f[a], w, y) && !HasOut(E2, y);
      PathEnd(E2, f[a], w, y);
      var x: nat := a;
      if y != f[a] {
        var ed2 :| ed2 in E2 && ed2.dst == y;
        var j :| 0 <= j < |E2| && E2[j] == ed2;
        x := E1[p[j]].dst;
      }
      assert x < |f| && y == f[x];
      PathRename(E1, E2, f, inv, p, a, w, x);
      HasOutRename(E1, E2, f, inv, p, x);
    }
  }

  /** The built tree is the tree the test expects: node i of the one is
      node BuiltToTest()[i] of the other. */
  function BuiltToTest(): seq<nat> { [0, 13, 1, 12, 4, 2, 3, 8, 9, 7, 5, 6, 10, 11] }

  function TestToBuilt(): seq<nat> { [0, 2, 5, 6, 4, 10, 11, 9, 7, 8, 12, 13, 3, 1] }

  function TestEdgeOrigin(): seq<nat> { [0, 1, 3, 2, 4, 9, 11, 10, 12, 5, 7, 13, 15, 6, 8, 14, 16, 17] }

  lemma BuiltIsTestTree(E1: seq<Edge>, E2: seq<Edge>)
    requires E1 == BuiltEdges() && E2 == TestEdges()
    ensures Renames(E1, E2, BuiltToTest(), TestToBuilt(), TestEdgeOrigin())
  {
    var f := BuiltToTest();
    RenamingOneToOne(f, TestToBuilt());
    BuiltNodesNamed(E1, f);
    TestEdgesRenamed(E1, E2, f, TestEdgeOrigin());
    BuiltEdgesRenamed(E1, E2, f);
  }

  lemma RenamingOneToOne(f: seq<nat>, inv: seq<nat>)
    requires f == BuiltToTest() && inv == TestToBuilt()
    ensures forall i :: 0 <= i < |f| ==> f[i] < |inv| && inv[f[i]] == i
  {
  }

  lemma BuiltNodesNamed(E1: seq<Edge>, f: seq<nat>)
    requires E1 == BuiltEdges() && f == BuiltToTest()
    ensures forall i :: 0 <= i < |E1| ==> E1[i].src < |f| && E1[i].dst < |f|
  {
  }

  lemma TestEdgesRenamed(E1: seq<Edge>, E2: seq<Edge>, f: seq<nat>, p: seq<nat>)
    requires E1 == BuiltEdges() && E2 == TestEdges() && f == BuiltToTest() && p == TestEdgeOrigin()
    requires forall i :: 0 <= i < |E1| ==> E1[i].src < |f| && E1[i].dst < |f|
    ensures |p| == |E2| && forall j :: 0 <= j < |E2| ==> p[j] < |E1| && E2[j] == Rename(f, E1[p[j]])
  {
  }

  lemma BuiltEdgesRenamed(E1: seq<Edge>, E2: seq<Edge>, f: seq<nat>)
    requires E1 == BuiltEdges() && E2 == TestEdges() && f == BuiltToTest()
    requires forall i :: 0 <= i < |E1| ==> E1[i].src < |f| && E1[i].dst < |f|
    ensures forall i :: 0 <= i < |E1| ==> Rename(f, E1[i]) in E2
  {
  }

  /** The nodes w leads to from a are exactly those of heads. */
  ghost predicate Reaches(es: seq<Edge>, a: nat, w: string, heads: set<nat>)
  {
    forall z :: Path(es, a, w, z) <==> z in heads
  }

  lemma ReachesStart(es: seq<Edge>, a: nat)
    ensures Reaches(es, a, [], {a})
  {
  }

  /** heads' are the ends of the edges labelled c that leave heads. */
  ghost predicate Moves(es: seq<Edge>, heads: set<nat>, c: char, heads': set<nat>)
  {
    forall z :: z in heads' <==> exists y :: y in heads && Edge(y, c, z) in es
  }

  /** One more letter: the heads move along the edges labelled with it. */
  lemma ReachesStep(es: seq<Edge>, a: nat, u: string, c: char, heads: set<nat>, heads': set<nat>)
    requires Reaches(es, a, u, heads) && Moves(es, heads, c, heads')
    ensures Reaches(es, a, u + [c], heads')
  {
    forall z ensures Path(es, a, u + [c], z) <==> z in heads' {
      PathSnoc(es, a, u, c, z);
    }
  }

  lemma ReachesStepTo(es: seq<Edge>, a: nat, u: string, c: char, heads: set<nat>, heads': set<nat>, w: string)
    requires Reaches(es, a, u, heads) && Moves(es, heads, c, heads') && w == u + [c]
    ensures Reaches(es, a, w, heads')
  {
    ReachesStep(es, a, u, c, heads, heads');
  }

  lemma AcceptsReached(es: seq<Edge>, a: nat, w: string, heads: set<nat>)
    requires Reaches(es, a, w, heads)
    ensures AcceptsByPath(es, a, w) <==> exists x :: x in heads && !HasOut(es, x)
  {
  }

  /** The moves of the walks below, one letter at a time. */
  lemma MovesRootA(es: seq<Edge>)
    requires es == TestEdges()
    ensures Moves(es, {0}, 'a', {1})
  {
  }

  lemma MovesRootB(es: seq<Edge>)
    requires es == TestEdges()
    ensures Moves(es, {0}, 'b', {})
  {
  }

  lemma MovesOneA(es: seq<Edge>)
    requires es == TestEdges()
    ensures Moves(es, {1}, 'a', {2, 5})
  {
  }

  lemma MovesOneB(es: seq<Edge>)
    requires es == TestEdges()
    ensures Moves(es, {1}, 'b', {3, 6})
  {
  }

  lemma MovesThreeSixA(es: seq<Edge>)
    requires es == TestEdges()
    ensures Moves(es, {3, 6}, 'a', {7})
  {
  }

  lemma MovesThreeSixB(es: seq<Edge>)
    requires es == TestEdges()
    ensures Moves(es, {3, 6}, 'b', {4})
  {
  }

  lemma MovesTwoFiveA(es: seq<Edge>)
    requires es == TestEdges()
    ensures Moves(es, {2, 5}, 'a', {4})
  {
  }

  lemma MovesSevenB(es: seq<Edge>)
    requires es == TestEdges()
    ensures Moves(es, {7}, 'b', {11})
  {
  }

  lemma MovesFourA(es: seq<Edge>)
    requires es == TestEdges()
    ensures Moves(es, {4}, 'a', {8})
  {
  }

  lemma MovesFourB(es: seq<Edge>)
    requires es == TestEdges()
    ensures Moves(es, {4}, 'b', {9})
  {
  }

  lemma MovesElevenB(es: seq<Edge>)
    requires es == TestEdges()
    ensures Moves(es, {11}, 'b', {12})
  {
  }

  lemma MovesEightB(es: seq<Edge>)
    requires es == TestEdges()
    ensures Moves(es, {8}, 'b', {12})
  {
  }

  lemma MovesNineA(es: seq<Edge>)
    requires es == TestEdges()
    ensures Moves(es, {9}, 'a', {12})
  {
  }

  lemma MovesNineB(es: seq<Edge>)
    requires es == TestEdges()
    ensures Moves(es, {9}, 'b', {})
  {
  }

  lemma MovesTwelveB(es: seq<Edge>)
    requires es == TestEdges()
    ensures Moves(es, {12}, 'b', {13})
  {
  }

  lemma MovesThirteenB(es: seq<Edge>)
    requires es == TestEdges()
    ensures Moves(es, {13}, 'b', {})
  {
  }

  lemma EndNodeIsLeaf(es: seq<Edge>)
    requires es == TestEdges()
    ensures !HasOut(es, 13)
  {
  }

  lemma MovesNowhere(es: seq<Edge>, c: char)
    ensures Moves(es, {}, c, {})
  {
  }

  /** The moves the walks of test_validate_message make. */
  ghost predicate TestMoves(es: seq<Edge>)
  {
    Moves(es, {0}, 'a', {1}) && Moves(es, {0}, 'b', {}) &&
    Moves(es, {1}, 'a', {2, 5}) && Moves(es, {1}, 'b', {3, 6}) &&
    Moves(es, {3, 6}, 'a', {7}) && Moves(es, {3, 6}, 'b', {4}) && Moves(es, {2, 5}, 'a', {4}) &&
    Moves(es, {7}, 'b', {11}) && Moves(es, {4}, 'a', {8}) && Moves(es, {4}, 'b', {9}) &&
    Moves(es, {11}, 'b', {12}) && Moves(es, {8}, 'b', {12}) && Moves(es, {9}, 'a', {12}) && Moves(es, {9}, 'b', {}) &&
    Moves(es, {12}, 'b', {13}) && Moves(es, {13}, 'b', {}) && !HasOut(es, 13)
  }

  lemma TestTreeMoves(es: seq<Edge>)
    requires es == TestEdges()
    ensures TestMoves(es)
  {
    MovesRootA(es);
    MovesRootB(es);
    MovesOneA(es);
    MovesOneB(es);
    MovesThreeSixA(es);
    MovesThreeSixB(es);
    MovesTwoFiveA(es);
    MovesSevenB(es);
    MovesFourA(es);
    MovesFourB(es);
    MovesElevenB(es);
    MovesEightB(es);
    MovesNineA(es);
    MovesNineB(es);
    MovesTwelveB(es);
    MovesThirteenB(es);
    EndNodeIsLeaf(es);
  }

  /** A walk of six letters through the given heads. */
  lemma WalkSix(es: seq<Edge>, w: string, c0: char, c1: char, c2: char, c3: char, c4: char, c5: char,
                h1: set<nat>, h2: set<nat>, h3: set<nat>, h4: set<nat>, h5: set<nat>, h6: set<nat>)
    requires w == [c0, c1, c2, c3, c4, c5]
    requires Moves(es, {0}, c0, h1) && Moves(es, h1, c1, h2) && Moves(es, h2, c2, h3)
    requires Moves(es, h3, c3, h4) && Moves(es, h4, c4, h5) && Moves(es, h5, c5, h6)
    ensures Reaches(es, 0, w, h6)
  {
    ReachesStart(es, 0);
    ReachesStepTo(es, 0, [], c0, {0}, h1, [c0]);
    ReachesStepTo(es, 0, [c0], c1, h1, h2, [c0, c1]);
    ReachesStepTo(es, 0, [c0, c1], c2, h2, h3, [c0, c1, c2]);
    ReachesStepTo(es, 0, [c0, c1, c2], c3, h3, h4, [c0, c1, c2, c3]);
    ReachesStepTo(es, 0, [c0, c1, c2, c3], c4, h4, h5, [c0, c1, c2, c3, c4]);
    ReachesStepTo(es, 0, [c0, c1, c2, c3, c4], c5, h5, h6, w);
  }

  /** The walks, from the moves alone. */
  lemma TestWalks(es: seq<Edge>)
    requires TestMoves(es)
    ensures AcceptsByPath(es, 0, "ababbb") && !AcceptsByPath(es, 0, "bababa")
    ensures AcceptsByPath(es, 0, "abbbab") && !AcceptsByPath(es, 0, "aaabbb")
    ensures !AcceptsByPath(es, 0, "aaaabbb")
  {
    TestWalkAccepted(es, "ababbb", 'a', 'b', 'a', 'b', 'b', 'b', {1}, {3, 6}, {7}, {11}, {12});
    TestWalkAccepted(es, "abbbab", 'a', 'b', 'b', 'b', 'a', 'b', {1}, {3, 6}, {4}, {9}, {12});
    MovesNowhere(es, 'a');
    MovesNowhere(es, 'b');
    TestWalkRejected(es, "bababa", 'b', 'a', 'b', 'a', 'b', 'a', {}, {}, {}, {}, {});
    TestWalkRejected(es, "aaabbb", 'a', 'a', 'a', 'b', 'b', 'b', {1}, {2, 5}, {4}, {9}, {});
    TestWalkSeventh(es, "aaaabb", "aaaabbb");
  }

  lemma TestWalkAccepted(es: seq<Edge>, w: string, c0: char, c1: char, c2: char, c3: char, c4: char, c5: char,
                         h1: set<nat>, h2: set<nat>, h3: set<nat>, h4: set<nat>, h5: set<nat>)
    requires w == [c0, c1, c2, c3, c4, c5] && !HasOut(es, 13)
    requires Moves(es, {0}, c0, h1) && Moves(es, h1, c1, h2) && Moves(es, h2, c2, h3)
    requires Moves(es, h3, c3, h4) && Moves(es, h4, c4, h5) && Moves(es, h5, c5, {13})
    ensures AcceptsByPath(es, 0, w)
  {
    WalkSix(es, w, c0, c1, c2, c3, c4, c5, h1, h2, h3, h4, h5, {13});
    AcceptsReached(es, 0, w, {13});
  }

  lemma TestWalkRejected(es: seq<Edge>, w: string, c0: char, c1: char, c2: char, c3: char, c4: char, c5: char,
                         h1: set<nat>, h2: set<nat>, h3: set<nat>, h4: set<nat>, h5: set<nat>)
    requires w == [c0, c1, c2, c3, c4, c5]
    requires Moves(es, {0}, c0, h1) && Moves(es, h1, c1, h2) && Moves(es, h2, c2, h3)
    requires Moves(es, h3, c3, h4) && Moves(es, h4, c4, h5) && Moves(es, h5, c5, {})
    ensures !AcceptsByPath(es, 0, w)
  {
    WalkSix(es, w, c0, c1, c2, c3, c4, c5, h1, h2, h3, h4, h5, {});
    AcceptsReached(es, 0, w, {});
  }

  /** "aaaabbb" reaches the end node after six letters and has a seventh. */
  lemma TestWalkSeventh(es: seq<Edge>, u: string, w: string)
    requires u == "aaaabb" && w == "aaaabbb"
    requires Moves(es, {0}, 'a', {1}) && Moves(es, {1}, 'a', {2, 5}) && Moves(es, {2, 5}, 'a', {4})
    requires Moves(es, {4}, 'a', {8}) && Moves(es, {8}, 'b', {12}) && Moves(es, {12}, 'b', {13})
    requires Moves(es, {13}, 'b', {})
    ensures !AcceptsByPath(es, 0, w)
  {
    WalkSix(es, u, 'a', 'a', 'a', 'a', 'b', 'b', {1}, {2, 5}, {4}, {8}, {12}, {13});
    ReachesStepTo(es, 0, u, 'b', {13}, {}, w);
    AcceptsReached(es, 0, w, {});
  }

  /** test_validate_message: "ababbb" and "abbbab" end in the end node,
      which has no outgoing edge; "bababa", "aaabbb" and "aaaabbb" reach no
      node at all. */
  lemma ValidateExamples(es: seq<Edge>)
    requires es == TestEdges()
    ensures AcceptsByPath(es, 0, "ababbb") && !AcceptsByPath(es, 0, "bababa")
    ensures AcceptsByPath(es, 0, "abbbab") && !AcceptsByPath(es, 0, "aaabbb")
    ensures !AcceptsByPath(es, 0, "aaaabbb")
  {
    TestTreeMoves(es);
    TestWalks(es);
  }

  /** Rule 0 derives a word exactly when a tree isomorphic to the built
      one accepts it. */
  lemma DerivesByIsomorphicTree(rules: Rules, rank: map<RuleName, nat>, E1: seq<Edge>, E2: seq<Edge>,
                                f: seq<nat>, inv: seq<nat>, p: seq<nat>, w: string)
    requires Ranked(rules, rank) && NonEmpty(rules)
    requires Build(rules, rank).Ok? && Build(rules, rank).value.edges == E1
    requires Renames(E1, E2, f, inv, p) && 0 < |f| && f[0] == 0
    ensures Derives(rules, rank, 0, w) <==> AcceptsByPath(E2, 0, w)
  {
    AcceptsIffDerives(rules, rank, w);
    AcceptsRename(E1, E2, f, inv, p, 0, w);
  }

  /** The messages of test_validate_message, judged by the grammar
      itself: rule 0 of the example derives "ababbb" and "abbbab" but not
      "bababa", "aaabbb" or "aaaabbb". */
  lemma DerivesExamples(rules: Rules, rank: map<RuleName, nat>)
    requires rules == ExampleRules() && rank == ExampleRank()
    ensures Ranked(rules, rank)
    ensures Derives(rules, rank, 0, "ababbb") && !Derives(rules, rank, 0, "bababa")
    ensures Derives(rules, rank, 0, "abbbab") && !Derives(rules, rank, 0, "aaabbb")
    ensures !Derives(rules, rank, 0, "aaaabbb")
  {
    ExampleNonEmpty(rules);
    BuildExample(rules, rank);
    var E1, E2 := BuiltEdges(), TestEdges();
    BuiltIsTestTree(E1, E2);
    ValidateExamples(E2);
    var f, inv, p := BuiltToTest(), TestToBuilt(), TestEdgeOrigin();
    DerivesByIsomorphicTree(rules, rank, E1, E2, f, inv, p, "ababbb");
    DerivesByIsomorphicTree(rules, rank, E1, E2, f, inv, p, "bababa");
    DerivesByIsomorphicTree(rules, rank, E1, E2, f, inv, p, "abbbab");
    DerivesByIsomorphicTree(rules, rank, E1, E2, f, inv, p, "aaabbb");
    DerivesByIsomorphicTree(rules, rank, E1, E2, f, inv, p, "aaaabbb");
  }

  // ---------------------------------------------------------------------
  // The rules block of test_parse_rules

  lemma ShowDigits(a: nat, b: nat, c: nat)
    requires a < 10 && b < 10 && c < 10
    ensures ShowNats([a, b]) == [[DigitChar(a)], [DigitChar(b)]]
    ensures ShowNats([a, b, c]) == [[DigitChar(a)], [DigitChar(b)], [DigitChar(c)]]
  {
  }

  /** A rule of two chains of two one-digit rules. */
  lemma RenderTwoChains(n: nat, a: nat, b: nat, c: nat, d: nat)
    requires n < 10 && a < 10 && b < 10 && c < 10 && d < 10
    ensures RenderRule((n, [Chain([a, b]), Chain([c, d])])) ==
      [DigitChar(n), ':', ' ', DigitChar(a), ' ', DigitChar(b), ' ', '|', ' ', DigitChar(c), ' ', DigitChar(d)]
  {
    ShowDigits(a, b, 0);
    ShowDigits(c, d, 0);
    var opts := [Chain([a, b]), Chain([c, d])];
    var x, y := [DigitChar(a), ' ', DigitChar(b)], [DigitChar(c), ' ', DigitChar(d)];
    assert Join([[DigitChar(a)], [DigitChar(b)]], " ") == [DigitChar(a)] + " " + [DigitChar(b)];
    assert Join([[DigitChar(c)], [DigitChar(d)]], " ") == [DigitChar(c)] + " " + [DigitChar(d)];
    assert RenderChain([a, b]) == x;
    assert RenderChain([c, d]) == y;
    assert Join([x, y], " | ") == x + " | " + y;
    assert ChainTexts(opts) == [x, y];
    assert RenderOptions(opts) == x + " | " + y;
  }

  lemma RenderChainOfThree(n: nat, a: nat, b: nat, c: nat)
    requires n < 10 && a < 10 && b < 10 && c < 10
    ensures RenderRule((n, [Chain([a, b, c])])) ==
      [DigitChar(n), ':', ' ', DigitChar(a), ' ', DigitChar(b), ' ', DigitChar(c)]
  {
    ShowDigits(a, b, c);
    var names := [[DigitChar(a)], [DigitChar(b)], [DigitChar(c)]];
    assert Join(names[1..], " ") == [DigitChar(b), ' ', DigitChar(c)];
    assert RenderChain([a, b, c]) == [DigitChar(a), ' ', DigitChar(b), ' ', DigitChar(c)];
    assert ChainTexts([Chain([a, b, c])]) == [RenderChain([a, b, c])];
  }

  lemma RenderLetter(n: nat, c: char)
    requires n < 10
    ensures RenderRule((n, [Literal(c)])) == [DigitChar(n), ':', ' ', '"', c, '"']
  {
  }

  function ExampleEntries(): seq<(RuleName, seq<RuleOption>)>
  {
    [(0, [Chain([4, 1, 5])]), (1, [Chain([2, 3]), Chain([3, 2])]), (2, [Chain([4, 4]), Chain([5, 5])]),
     (3, [Chain([4, 5]), Chain([5, 4])]), (4, [Literal('a')]), (5, [Literal('b')])]
  }

  lemma ExampleRenderable(entries: seq<(RuleName, seq<RuleOption>)>)
    requires entries == ExampleEntries()
    ensures forall i :: 0 <= i < |entries| ==> Renderable(entries[i])
  {
  }

  lemma ExampleMap(entries: seq<(RuleName, seq<RuleOption>)>)
    requires entries == ExampleEntries()
    ensures MapOf(entries) == ExampleRules()
  {
    MapOfSix(entries);
    var m, rules := MapOf(entries), ExampleRules();
    assert m.Keys == rules.Keys;
    assert m[0] == rules[0] && m[1] == rules[1] && m[2] == rules[2];
    assert m[3] == rules[3] && m[4] == rules[4] && m[5] == rules[5];
  }

  lemma MapOfSix(es: seq<(RuleName, seq<RuleOption>)>)
    requires |es| == 6 && forall i, j :: 0 <= i < j < 6 ==> es[i].0 != es[j].0
    ensures MapOf(es).Keys == {es[0].0, es[1].0, es[2].0, es[3].0, es[4].0, es[5].0}
    ensures forall i :: 0 <= i < 6 ==> MapOf(es)[es[i].0] == es[i].1
  {
    MapOfKeys(es);
    MapOfValues(es);
    var m := MapOf(es);
    forall k ensures k in m <==> k in {es[0].0, es[1].0, es[2].0, es[3].0, es[4].0, es[5].0} {
      if k in m {
        var i :| 0 <= i < |es| && es[i].0 == k;
        assert i in {0, 1, 2, 3, 4, 5};
      }
    }
  }

  lemma {:induction false} MapOfKeys(entries: seq<(RuleName, seq<RuleOption>)>)
    ensures forall k :: k in MapOf(entries) <==> exists i :: 0 <= i < |entries| && entries[i].0 == k
    decreases |entries|
  {
    if entries != [] {
      MapOfKeys(entries[1..]);
      forall k | k in MapOf(entries) ensures exists i :: 0 <= i < |entries| && entries[i].0 == k {
        if k != entries[0].0 {
          assert MapOf(entries) == map[entries[0].0 := entries[0].1] + MapOf(entries[1..]);
          assert k in MapOf(entries[1..]);
          var i :| 0 <= i < |entries[1..]| && entries[1..][i].0 == k;
          assert entries[i + 1].0 == k;
        }
      }
      forall k | exists i :: 0 <= i < |entries| && entries[i].0 == k ensures k in MapOf(entries) {
        var i :| 0 <= i < |entries| && entries[i].0 == k;
        if i > 0 { assert entries[1..][i - 1].0 == k; }
      }
    }
  }

  /** The value of a name defined by no later entry is that entry's. */
  lemma {:induction false} MapOfValues(entries: seq<(RuleName, seq<RuleOption>)>)
    ensures forall i :: 0 <= i < |entries| && (forall j :: i < j < |entries| ==> entries[j].0 != entries[i].0) ==>
      entries[i].0 in MapOf(entries) && MapOf(entries)[entries[i].0] == entries[i].1
    decreases |entries|
  {
    if entries != [] {
      MapOfValues(entries[1..]);
      MapOfKeys(entries[1..]);
      forall i | 0 <= i < |entries| && (forall j :: i < j < |entries| ==> entries[j].0 != entries[i].0)
        ensures entries[i].0 in MapOf(entries) && MapOf(entries)[entries[i].0] == entries[i].1
      {
        if i == 0 {
          assert entries[0].0 !in MapOf(entries[1..]) by {
            forall j | 0 <= j < |entries[1..]| ensures entries[1..][j].0 != entries[0].0 {
              assert entries[1..][j] == entries[j + 1];
            }
          }
        } else {
          assert entries[1..][i - 1] == entries[i];
          forall j | i - 1 < j < |entries[1..]| ensures entries[1..][j].0 != entries[1..][i - 1].0 {
            assert entries[1..][j] == entries[j + 1];
          }
        }
      }
    }
  }

  lemma ExampleLines(entries: seq<(RuleName, seq<RuleOption>)>)
    requires entries == ExampleEntries()
    ensures RenderLines(entries) == ["0: 4 1 5", "1: 2 3 | 3 2", "2: 4 4 | 5 5", "3: 4 5 | 5 4", "4: \"a\"", "5: \"b\""]
  {
    RenderChainOfThree(0, 4, 1, 5);
    RenderTwoChains(1, 2, 3, 3, 2);
    RenderTwoChains(2, 4, 4, 5, 5);
    RenderTwoChains(3, 4, 5, 5, 4);
    RenderLetter(4, 'a');
    RenderLetter(5, 'b');
  }

  lemma JoinSix(lines: seq<string>, a: string, b: string, c: string, d: string, e: string, f: string)
    requires lines == [a, b, c, d, e, f]
    ensures Join(lines, "\n") == a + "\n" + (b + "\n" + (c + "\n" + (d + "\n" + (e + "\n" + f))))
  {
    assert lines[5..] == [f];
    JoinCons(e, lines[5..], "\n");
    assert lines[4..] == [e] + lines[5..];
    JoinCons(d, lines[4..], "\n");
    assert lines[3..] == [d] + lines[4..];
    JoinCons(c, lines[3..], "\n");
    assert lines[2..] == [c] + lines[3..];
    JoinCons(b, lines[2..], "\n");
    assert lines[1..] == [b] + lines[2..];
    JoinCons(a, lines[1..], "\n");
    assert lines == [a] + lines[1..];
  }

  /** test_parse_rules: the rules block of the example parses to the
      example rules.  The test writes the block as one string literal
      continued over six source lines, each ending in "\n". */
  lemma ParseExample(input: string)
    requires input == "0: 4 1 5" + "\n" + ("1: 2 3 | 3 2" + "\n" + ("2: 4 4 | 5 5" + "\n" + ("3: 4 5 | 5 4" + "\n" + ("4: \"a\"" + "\n" + ("5: \"b\"")))))
    ensures ParseRules(input) == Ok(ExampleRules())
  {
    var entries := ExampleEntries();
    ExampleLines(entries);
    var lines := RenderLines(entries);
    JoinSix(lines, lines[0], lines[1], lines[2], lines[3], lines[4], lines[5]);
    ExampleRenderable(entries);
    ParseRenderRules(entries);
    ExampleMap(entries);
  }
}
