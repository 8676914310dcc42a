/**
 * Day 7, Handy Haversacks: rules say how many bags of which colours a bag
 * of a given colour directly contains.  The rules form a weighted directed
 * graph, and the number of bags inside a bag is the sum, over the colours
 * it contains, of the weight times one plus the bags inside that colour.
 */
module HandyHaversacks {
  import opened Text

  /** One "n colour bag(s)" clause of a rule, already picked out of the
      line: the digits in front (possibly none) and the two-word colour. */
  datatype Clause = Clause(amount: string, color: string)

  /** A containment edge: from contains weight bags of colour to. */
  datatype Edge = Edge(from: string, to: string, weight: nat)

  /** An outgoing edge as stored in the graph. */
  datatype Link = Link(bag: string, weight: nat)

  /** The graph: for each colour with outgoing edges, its links in the
      order their targets were first added. */
  type Graph = map<string, seq<Link>>

  /** The colours the links lead to. */
  function Targets(links: seq<Link>): (r: set<string>)
    ensures forall c :: c in r <==> exists i :: 0 <= i < |links| && links[i].bag == c
  {
    set i | 0 <= i < |links| :: links[i].bag
  }

  /** No colour is linked twice. */
  predicate DistinctTargets(links: seq<Link>)
  {
    forall i, j :: 0 <= i < j < |links| ==> links[i].bag != links[j].bag
  }

  /** The weight of the first link to colour c. */
  function LinkWeight(links: seq<Link>, c: string): (r: Option<nat>)
    ensures r.None? <==> c !in Targets(links)
  {
    if links == [] then None
    else if links[0].bag == c then Some(links[0].weight)
    else
      assert Targets(links) == {links[0].bag} + Targets(links[1..]) by {
        assert forall i :: 0 < i < |links| ==> links[i] == links[1..][i - 1];
      }
      LinkWeight(links[1..], c)
  }

  /** The weight of the edge a -> b, if there is one. */
  function Weight(g: Graph, a: string, b: string): Option<nat>
  {
    if a in g then LinkWeight(g[a], b) else None
  }

  lemma TargetsCons(l: Link, links: seq<Link>)
    ensures Targets([l] + links) == {l.bag} + Targets(links)
  {
    var r := [l] + links;
    forall c | c in Targets(r) ensures c == l.bag || c in Targets(links) {
      var i :| 0 <= i < |r| && r[i].bag == c;
      if i > 0 { assert r[i] == links[i - 1]; }
    }
    forall c | c in Targets(links) ensures c in Targets(r) {
      var i :| 0 <= i < |links| && links[i].bag == c;
      assert r[i + 1] == links[i];
    }
    assert r[0] == l;
  }

  /** Setting the weight of the link to b: an existing link keeps its
      place, a new one goes at the end. */
  function UpdateLinks(links: seq<Link>, b: string, w: nat): (r: seq<Link>)
    ensures LinkWeight(r, b) == Some(w)
    ensures forall c :: c != b ==> LinkWeight(r, c) == LinkWeight(links, c)
    ensures Targets(r) == Targets(links) + {b}
  {
    if links == [] then [Link(b, w)]
    else if links[0].bag == b then
      TargetsCons(links[0], links[1..]);
      TargetsCons(Link(b, w), links[1..]);
      assert [links[0]] + links[1..] == links;
      [Link(b, w)] + links[1..]
    else
      var rest := UpdateLinks(links[1..], b, w);
      var r := [links[0]] + rest;
      assert r[1..] == rest;
      TargetsCons(links[0], links[1..]);
      TargetsCons(links[0], rest);
      assert [links[0]] + links[1..] == links;
      r
  }

  /** Updating never links a colour twice. */
  lemma {:induction false} UpdateLinksDistinct(links: seq<Link>, b: string, w: nat)
    requires DistinctTargets(links)
    ensures DistinctTargets(UpdateLinks(links, b, w))
  {
    if links != [] && links[0].bag != b {
      DistinctTail(links);
      UpdateLinksDistinct(links[1..], b, w);
      var rest := UpdateLinks(links[1..], b, w);
      assert Targets(rest) == Targets(links[1..]) + {b};
      DistinctCons(links[0], rest);
      assert UpdateLinks(links, b, w) == [links[0]] + rest;
    } else if links != [] {
      DistinctTail(links);
      DistinctCons(Link(b, w), links[1..]);
      assert UpdateLinks(links, b, w) == [Link(b, w)] + links[1..];
    }
  }

  lemma DistinctTail(links: seq<Link>)
    requires links != [] && DistinctTargets(links)
    ensures DistinctTargets(links[1..]) && links[0].bag !in Targets(links[1..])
  {
    forall i | 0 <= i < |links[1..]| ensures links[1..][i].bag != links[0].bag {
      assert links[1..][i] == links[i + 1];
    }
  }

  lemma DistinctCons(l: Link, rest: seq<Link>)
    requires DistinctTargets(rest) && l.bag !in Targets(rest)
    ensures DistinctTargets([l] + rest)
  {
    var r := [l] + rest;
    forall i, j | 0 <= i < j < |r| ensures r[i].bag != r[j].bag {
      assert r[j] == rest[j - 1];
      if i > 0 {
        assert r[i] == rest[i - 1];
      }
    }
  }

  /** Graph::add_edge: an edge a -> b with weight w; an edge that is
      already there gets the new weight. */
  function AddEdge(g: Graph, e: Edge): (r: Graph)
    ensures r.Keys == g.Keys + {e.from}
    ensures Weight(r, e.from, e.to) == Some(e.weight)
    ensures forall a, b :: (a != e.from || b != e.to) ==> Weight(r, a, b) == Weight(g, a, b)
  {
    g[e.from := UpdateLinks(if e.from in g then g[e.from] else [], e.to, e.weight)]
  }

  /** The graph adds no colour twice to a link list. */
  predicate WellFormed(g: Graph)
  {
    forall a :: a in g ==> DistinctTargets(g[a])
  }

  /** Graph::from_edges: the edges added one after the other. */
  function FromEdges(edges: seq<Edge>): Graph
  {
    if edges == [] then map[] else AddEdge(FromEdges(edges[..|edges| - 1]), edges[|edges| - 1])
  }

  /** The graph built from any edges links no colour twice. */
  lemma {:induction false} FromEdgesWellFormed(edges: seq<Edge>)
    ensures WellFormed(FromEdges(edges))
  {
    if edges != [] {
      var g, e := FromEdges(edges[..|edges| - 1]), edges[|edges| - 1];
      FromEdgesWellFormed(edges[..|edges| - 1]);
      UpdateLinksDistinct(if e.from in g then g[e.from] else [], e.to, e.weight);
    }
  }

  /** Edge i joins a to b. */
  predicate Joins(edges: seq<Edge>, i: nat, a: string, b: string)
    requires i < |edges|
  {
    edges[i].from == a && edges[i].to == b
  }

  /** The graph has an edge a -> b exactly when some edge joins a to b. */
  lemma {:induction false} FromEdgesHas(edges: seq<Edge>, a: string, b: string)
    ensures Weight(FromEdges(edges), a, b).Some? <==> exists i :: 0 <= i < |edges| && Joins(edges, i, a, b)
  {
    if edges != [] {
      var init, e := edges[..|edges| - 1], edges[|edges| - 1];
      var g := FromEdges(init);
      assert FromEdges(edges) == AddEdge(g, e);
      FromEdgesHas(init, a, b);
      if e.from == a && e.to == b {
        assert Joins(edges, |edges| - 1, a, b);
      } else {
        assert Weight(AddEdge(g, e), a, b) == Weight(g, a, b);
        JoinsBeforeLast(edges, init, a, b);
      }
    }
  }

  /** When the last edge does not join a to b, an earlier one must. */
  lemma JoinsBeforeLast(edges: seq<Edge>, init: seq<Edge>, a: string, b: string)
    requires edges != [] && !Joins(edges, |edges| - 1, a, b) && init == edges[..|edges| - 1]
    ensures (exists i :: 0 <= i < |edges| && Joins(edges, i, a, b)) <==>
      exists i :: 0 <= i < |init| && Joins(init, i, a, b)
  {
    if exists i :: 0 <= i < |edges| && Joins(edges, i, a, b) {
      var i :| 0 <= i < |edges| && Joins(edges, i, a, b);
      assert i < |init| && init[i] == edges[i];
      assert Joins(init, i, a, b);
    }
    if exists i :: 0 <= i < |init| && Joins(init, i, a, b) {
      var i :| 0 <= i < |init| && Joins(init, i, a, b);
      assert init[i] == edges[i];
      assert Joins(edges, i, a, b);
    }
  }

  /** Its weight is that of the last edge joining a to b. */
  lemma {:induction false} FromEdgesWeight(edges: seq<Edge>, a: string, b: string)
    requires Weight(FromEdges(edges), a, b).Some?
    ensures exists i :: (0 <= i < |edges| && Joins(edges, i, a, b)
      && Weight(FromEdges(edges), a, b).value == edges[i].weight && LastEdge(edges, i))
  {
    var init, e := edges[..|edges| - 1], edges[|edges| - 1];
    var g := FromEdges(init);
    assert FromEdges(edges) == AddEdge(g, e);
    if e.from == a && e.to == b {
      assert LastEdge(edges, |edges| - 1);
      assert Joins(edges, |edges| - 1, a, b);
    } else {
      assert Weight(AddEdge(g, e), a, b) == Weight(g, a, b);
      FromEdgesWeight(init, a, b);
      var i :| 0 <= i < |init| && Joins(init, i, a, b)
        && Weight(g, a, b).value == init[i].weight && LastEdge(init, i);
      LastEdgeExtend(edges, i);
    }
  }

  lemma LastEdgeExtend(edges: seq<Edge>, i: nat)
    requires i < |edges| - 1 && LastEdge(edges[..|edges| - 1], i)
    requires !Joins(edges, |edges| - 1, edges[i].from, edges[i].to)
    ensures LastEdge(edges, i) && edges[..|edges| - 1][i] == edges[i]
  {
  }

  /** No later edge joins the same two colours as edge i. */
  predicate LastEdge(edges: seq<Edge>, i: nat)
    requires i < |edges|
  {
    forall j :: i < j < |edges| ==> edges[j].from != edges[i].from || edges[j].to != edges[i].to
  }

  // ---------------------------------------------------------------------
  // Counting the bags inside a bag

  /** The containment graph is acyclic, witnessed by a rank that drops
      along every edge. */
  predicate Ranked(g: Graph, rank: map<string, nat>)
  {
    forall a :: a in g ==> a in rank && forall i :: 0 <= i < |g[a]| ==>
      g[a][i].bag in rank && rank[g[a][i].bag] < rank[a]
  }

  function RankOf(rank: map<string, nat>, bag: string): nat
  {
    if bag in rank then rank[bag] else 0
  }

  /** The sum of the weights of the links. */
  function TotalWeight(links: seq<Link>): nat
  {
    if links == [] then 0 else links[0].weight + TotalWeight(links[1..])
  }

  /** count_containing_bags: the bags inside a bag of colour bag.  A colour
      without outgoing edges contains nothing, and every bag contains at
      least the bags it contains directly. */
  function CountContaining(g: Graph, rank: map<string, nat>, bag: string): (n: nat)
    requires Ranked(g, rank)
    ensures bag !in g ==> n == 0
    ensures bag in g ==> n >= TotalWeight(g[bag])
    decreases RankOf(rank, bag), 1, 0
  {
    if bag !in g then 0 else SumLinks(g, rank, bag, g[bag])
  }

  /** The bags inside through the given links of bag. */
  function SumLinks(g: Graph, rank: map<string, nat>, bag: string, links: seq<Link>): (n: nat)
    requires Ranked(g, rank) && bag in rank
    requires forall i :: 0 <= i < |links| ==> links[i].bag in rank && rank[links[i].bag] < rank[bag]
    ensures n >= TotalWeight(links)
    decreases rank[bag], 0, |links|
  {
    if links == [] then 0
    else
      var inner := CountContaining(g, rank, links[0].bag);
      Covers(links[0].weight, inner);
      links[0].weight * (1 + inner) + SumLinks(g, rank, bag, links[1..])
  }

  lemma Covers(w: nat, inner: nat)
    ensures w * (1 + inner) >= w
  {
  }

  /** The count depends on the graph alone, not on the rank that shows it
      acyclic. */
  lemma {:induction false} CountRankIndependent(g: Graph, r1: map<string, nat>, r2: map<string, nat>, bag: string)
    requires Ranked(g, r1) && Ranked(g, r2)
    ensures CountContaining(g, r1, bag) == CountContaining(g, r2, bag)
    decreases RankOf(r1, bag), 1, 0
  {
    if bag in g {
      SumLinksRankIndependent(g, r1, r2, bag, g[bag]);
    }
  }

  lemma {:induction false} SumLinksRankIndependent(g: Graph, r1: map<string, nat>, r2: map<string, nat>, bag: string, links: seq<Link>)
    requires Ranked(g, r1) && Ranked(g, r2) && bag in r1 && bag in r2
    requires forall i :: 0 <= i < |links| ==> links[i].bag in r1 && r1[links[i].bag] < r1[bag]
    requires forall i :: 0 <= i < |links| ==> links[i].bag in r2 && r2[links[i].bag] < r2[bag]
    ensures SumLinks(g, r1, bag, links) == SumLinks(g, r2, bag, links)
    decreases r1[bag], 0, |links|
  {
    if links != [] {
      CountRankIndependent(g, r1, r2, links[0].bag);
      SumLinksRankIndependent(g, r1, r2, bag, links[1..]);
    }
  }

  // ---------------------------------------------------------------------
  // The bags themselves

  /** w copies of every bag in m. */
  function Copies(m: multiset<string>, w: nat): (r: multiset<string>)
    ensures |r| == w * |m|
  {
    if w == 0 then multiset{} else m + Copies(m, w - 1)
  }

  /** Every individual bag inside a bag of colour bag, by colour. */
  function Contents(g: Graph, rank: map<string, nat>, bag: string): multiset<string>
    requires Ranked(g, rank)
    decreases RankOf(rank, bag), 1, 0
  {
    if bag !in g then multiset{} else LinkContents(g, rank, bag, g[bag])
  }

  function LinkContents(g: Graph, rank: map<string, nat>, bag: string, links: seq<Link>): multiset<string>
    requires Ranked(g, rank) && bag in rank
    requires forall i :: 0 <= i < |links| ==> links[i].bag in rank && rank[links[i].bag] < rank[bag]
    decreases rank[bag], 0, |links|
  {
    if links == [] then multiset{}
    else
      Copies(multiset{links[0].bag} + Contents(g, rank, links[0].bag), links[0].weight)
      + LinkContents(g, rank, bag, links[1..])
  }

  lemma CopiesCount(m: multiset<string>, w: nat, inner: nat)
    requires |m| == 1 + inner
    ensures |Copies(m, w)| == w * (1 + inner)
  {
  }

  /** The count is the number of individual bags inside. */
  lemma {:induction false} CountIsContents(g: Graph, rank: map<string, nat>, bag: string)
    requires Ranked(g, rank)
    ensures CountContaining(g, rank, bag) == |Contents(g, rank, bag)|
    decreases RankOf(rank, bag), 1, 0
  {
    if bag in g {
      SumLinksIsContents(g, rank, bag, g[bag]);
    }
  }

  lemma {:induction false} SumLinksIsContents(g: Graph, rank: map<string, nat>, bag: string, links: seq<Link>)
    requires Ranked(g, rank) && bag in rank
    requires forall i :: 0 <= i < |links| ==> links[i].bag in rank && rank[links[i].bag] < rank[bag]
    ensures SumLinks(g, rank, bag, links) == |LinkContents(g, rank, bag, links)|
    decreases rank[bag], 0, |links|
  {
    if links != [] {
      var l := links[0];
      CountIsContents(g, rank, l.bag);
      SumLinksIsContents(g, rank, bag, links[1..]);
      var m := multiset{l.bag} + Contents(g, rank, l.bag);
      var inner := CountContaining(g, rank, l.bag);
      assert |m| == 1 + inner;
      CopiesCount(m, l.weight, inner);
      assert |LinkContents(g, rank, bag, links)| == |Copies(m, l.weight)| + |LinkContents(g, rank, bag, links[1..])|;
      assert SumLinks(g, rank, bag, links) == l.weight * (1 + inner) + SumLinks(g, rank, bag, links[1..]);
    }
  }

  // ---------------------------------------------------------------------
  // Reading the rules

  /** convert_to_edges: the first clause names the container; every later
      clause whose amount reads as a 32-bit number gives an edge, and the
      others ("no other bags") give none. */
  function ConvertToEdges(clauses: seq<Clause>): (r: Result<seq<Edge>>)
    ensures r.Err? <==> clauses == []
    ensures r.Ok? ==> r.value == ClauseEdges(clauses[0].color, clauses[1..])
  {
    if clauses == [] then Err("No first match in line")
    else Ok(ClauseEdges(clauses[0].color, clauses[1..]))
  }

  /** The edges from color that the clauses give, in order. */
  function ClauseEdges(color: string, clauses: seq<Clause>): seq<Edge>
  {
    if clauses == [] then []
    else
      var rest := ClauseEdges(color, clauses[1..]);
      match ParseNat(clauses[0].amount, U32_MAX)
      case Some(n) => [Edge(color, clauses[0].color, n)] + rest
      case None => rest
  }

  /** Each edge comes from color and has a weight that fits in 32 bits. */
  lemma {:induction false} ClauseEdgesFrom(color: string, clauses: seq<Clause>)
    ensures forall i :: 0 <= i < |ClauseEdges(color, clauses)| ==>
      ClauseEdges(color, clauses)[i].from == color && ClauseEdges(color, clauses)[i].weight <= U32_MAX
  {
    if clauses != [] {
      var r := ClauseEdges(color, clauses);
      var rest := ClauseEdges(color, clauses[1..]);
      ClauseEdgesFrom(color, clauses[1..]);
      var k := if ParseNat(clauses[0].amount, U32_MAX).Some? then 1 else 0;
      assert forall i :: k <= i < |r| ==> r[i] == rest[i - k];
      if k == 1 {
        assert r[0] == Edge(color, clauses[0].color, ParseNat(clauses[0].amount, U32_MAX).value);
      }
    }
  }

  /** The clause names e's target and its amount reads as e's weight. */
  predicate ClauseGives(clause: Clause, e: Edge)
  {
    clause.color == e.to && ParseNat(clause.amount, U32_MAX) == Some(e.weight)
  }

  /** Each edge comes from a clause whose amount reads as its weight. */
  lemma {:induction false} ClauseEdgesSource(color: string, clauses: seq<Clause>, e: Edge)
    requires e in ClauseEdges(color, clauses)
    ensures exists j :: 0 <= j < |clauses| && ClauseGives(clauses[j], e)
  {
    var rest := ClauseEdges(color, clauses[1..]);
    if e in rest {
      ClauseEdgesSource(color, clauses[1..], e);
      var j :| 0 <= j < |clauses[1..]| && ClauseGives(clauses[1..][j], e);
      assert clauses[j + 1] == clauses[1..][j];
    } else {
      assert e == Edge(color, clauses[0].color, ParseNat(clauses[0].amount, U32_MAX).value);
      assert ClauseGives(clauses[0], e);
    }
  }

  /** A line with a first bag converts, and its edges are exactly those
      from that bag that some later clause gives. */
  lemma ConvertToEdgesMembers(clauses: seq<Clause>)
    requires clauses != []
    ensures ConvertToEdges(clauses).Ok?
    ensures forall e :: e in ConvertToEdges(clauses).value <==>
      e.from == clauses[0].color && exists j :: 1 <= j < |clauses| && ClauseGives(clauses[j], e)
  {
    var color, rest := clauses[0].color, clauses[1..];
    var edges := ClauseEdges(color, rest);
    ClauseEdgesFrom(color, rest);
    ClauseEdgesComplete(color, rest);
    forall e | e in edges
      ensures e.from == color && exists j :: 1 <= j < |clauses| && ClauseGives(clauses[j], e)
    {
      var i :| 0 <= i < |edges| && edges[i] == e;
      ClauseEdgesSource(color, rest, e);
      var j :| 0 <= j < |rest| && ClauseGives(rest[j], e);
      assert clauses[j + 1] == rest[j];
    }
    forall e: Edge | e.from == color && exists j :: 1 <= j < |clauses| && ClauseGives(clauses[j], e)
      ensures e in edges
    {
      var j :| 1 <= j < |clauses| && ClauseGives(clauses[j], e);
      assert rest[j - 1] == clauses[j];
      assert e == Edge(color, rest[j - 1].color, ParseNat(rest[j - 1].amount, U32_MAX).value);
    }
  }

  /** Every clause whose amount reads as a number gives its edge. */
  lemma {:induction false} ClauseEdgesComplete(color: string, clauses: seq<Clause>)
    ensures forall j :: 0 <= j < |clauses| && ParseNat(clauses[j].amount, U32_MAX).Some? ==>
      Edge(color, clauses[j].color, ParseNat(clauses[j].amount, U32_MAX).value) in ClauseEdges(color, clauses)
  {
    if clauses != [] {
      ClauseEdgesComplete(color, clauses[1..]);
      assert forall j :: 0 < j < |clauses| ==> clauses[j] == clauses[1..][j - 1];
    }
  }

  /** parse_bag_rules: all lines' edges in one graph; a line without any
      bag clause stops the parse. */
  function ParseBagRules(lines: seq<seq<Clause>>): (r: Result<Graph>)
    ensures r.Err? <==> exists i :: 0 <= i < |lines| && lines[i] == []
  {
    match AllEdges(lines)
    case Err(e) => Err(e)
    case Ok(edges) => Ok(FromEdges(edges))
  }

  function AllEdges(lines: seq<seq<Clause>>): (r: Result<seq<Edge>>)
    ensures r.Err? <==> exists i :: 0 <= i < |lines| && lines[i] == []
  {
    if lines == [] then Ok([])
    else
      assert forall i :: 0 < i < |lines| ==> lines[i] == lines[1..][i - 1];
      match ConvertToEdges(lines[0])
      case Err(e) => Err(e)
      case Ok(first) =>
        match AllEdges(lines[1..])
        case Err(e) => Err(e)
        case Ok(rest) => Ok(first + rest)
  }

  // ---------------------------------------------------------------------
  // Examples

  lemma FromEdgesSnoc(edges: seq<Edge>, e: Edge)
    ensures FromEdges(edges + [e]) == AddEdge(FromEdges(edges), e)
  {
    assert (edges + [e])[..|edges|] == edges;
  }

  /** The graph of the first k edges adds the k-th to that of the first k - 1. */
  lemma FromEdgesPrefix(edges: seq<Edge>, k: nat)
    requires 0 < k <= |edges|
    ensures FromEdges(edges[..k]) == AddEdge(FromEdges(edges[..k - 1]), edges[k - 1])
  {
    assert edges[..k][..k - 1] == edges[..k - 1];
  }

  /** The rules of the first counting example. */
  function SimpleEdges(): seq<Edge>
  {
    [Edge("shiny gold", "dark olive", 1), Edge("shiny gold", "vibrant plum", 2),
     Edge("dark olive", "faded blue", 3), Edge("dark olive", "dotted black", 4),
     Edge("vibrant plum", "faded blue", 5), Edge("vibrant plum", "dotted black", 6)]
  }

  function SimpleGraph(): Graph
  {
    map[
      "shiny gold" := [Link("dark olive", 1), Link("vibrant plum", 2)],
      "dark olive" := [Link("faded blue", 3), Link("dotted black", 4)],
      "vibrant plum" := [Link("faded blue", 5), Link("dotted black", 6)]]
  }

  /** Adding an edge to a colour the source does not link yet appends it. */
  lemma {:induction false} UpdateLinksAppend(links: seq<Link>, b: string, w: nat)
    requires b !in Targets(links)
    ensures UpdateLinks(links, b, w) == links + [Link(b, w)]
  {
    if links != [] {
      TargetsCons(links[0], links[1..]);
      assert [links[0]] + links[1..] == links;
      UpdateLinksAppend(links[1..], b, w);
      assert [links[0]] + (links[1..] + [Link(b, w)]) == links + [Link(b, w)];
    }
  }

  lemma AddNewEdge(g: Graph, e: Edge)
    requires e.from in g ==> e.to !in Targets(g[e.from])
    ensures AddEdge(g, e) == g[e.from := (if e.from in g then g[e.from] else []) + [Link(e.to, e.weight)]]
  {
    UpdateLinksAppend(if e.from in g then g[e.from] else [], e.to, e.weight);
  }

  /** The graph after the first k rules of the first example, each rule
      appending a link. */
  function SimplePartial(k: nat): Graph
  {
    if k == 0 then map[]
    else
      var g, e := SimplePartial(k - 1), SimpleEdges()[if k <= 6 then k - 1 else 5];
      g[e.from := (if e.from in g then g[e.from] else []) + [Link(e.to, e.weight)]]
  }

  lemma SimpleStep(k: nat)
    requires k < 6
    ensures AddEdge(SimplePartial(k), SimpleEdges()[k]) == SimplePartial(k + 1)
  {
    var g, e := SimplePartial(k), SimpleEdges()[k];
    if k == 1 || k == 3 || k == 5 {
      assert e.to !in Targets(g[e.from]);
    }
    AddNewEdge(g, e);
  }

  lemma {:induction false} SimplePrefix(edges: seq<Edge>, k: nat)
    requires edges == SimpleEdges() && k <= 6
    ensures FromEdges(edges[..k]) == SimplePartial(k)
  {
    if k > 0 {
      SimplePrefix(edges, k - 1);
      FromEdgesPrefix(edges, k);
      SimpleStep(k - 1);
    }
  }

  lemma SimpleWhole(edges: seq<Edge>)
    requires edges == SimpleEdges()
    ensures edges[..6] == edges && SimplePartial(6) == SimpleGraph()
  {
    var sg, dol, vp, fb, db := "shiny gold", "dark olive", "vibrant plum", "faded blue", "dotted black";
    var es := SimpleEdges();
    assert es[0] == Edge(sg, dol, 1) && es[2] == Edge(dol, fb, 3) && es[4] == Edge(vp, fb, 5);
    assert [] + [Link(dol, 1)] == [Link(dol, 1)];
    assert [] + [Link(fb, 3)] == [Link(fb, 3)];
    assert [] + [Link(fb, 5)] == [Link(fb, 5)];
    assert SimplePartial(1) == map[sg := [Link(dol, 1)]];
    assert es[1] == Edge(sg, vp, 2);
    assert [Link(dol, 1)] + [Link(vp, 2)] == [Link(dol, 1), Link(vp, 2)];
    assert SimplePartial(2) == map[sg := [Link(dol, 1), Link(vp, 2)]];
    assert SimplePartial(3) == map[sg := [Link(dol, 1), Link(vp, 2)], dol := [Link(fb, 3)]];
    assert [Link(fb, 3)] + [Link(db, 4)] == [Link(fb, 3), Link(db, 4)];
    assert SimplePartial(4) == map[sg := [Link(dol, 1), Link(vp, 2)], dol := [Link(fb, 3), Link(db, 4)]];
    assert SimplePartial(5) == map[sg := [Link(dol, 1), Link(vp, 2)], dol := [Link(fb, 3), Link(db, 4)],
      vp := [Link(fb, 5)]];
    assert [Link(fb, 5)] + [Link(db, 6)] == [Link(fb, 5), Link(db, 6)];
  }

  lemma SimpleGraphBuilt(edges: seq<Edge>)
    requires edges == SimpleEdges()
    ensures FromEdges(edges) == SimpleGraph()
  {
    SimplePrefix(edges, 6);
    SimpleWhole(edges);
  }

  lemma SimpleCount(g: Graph, r: map<string, nat>, sg: string)
    requires g == SimpleGraph() && r == SimpleRank() && sg == "shiny gold"
    ensures Ranked(g, r) && CountContaining(g, r, sg) == 32
  {
    SimpleRanked();
    var dol, vp, fb, db := "dark olive", "vibrant plum", "faded blue", "dotted black";
    SimpleShape(g, r, sg, dol, vp, fb, db);
    TwoLinks(g, r, dol, fb, db, 3, 4, 0, 0);
    TwoLinks(g, r, vp, fb, db, 5, 6, 0, 0);
    TwoLinks(g, r, sg, dol, vp, 1, 2, 7, 11);
  }

  lemma SimpleShape(g: Graph, r: map<string, nat>, sg: string, dol: string, vp: string, fb: string, db: string)
    requires g == SimpleGraph() && r == SimpleRank()
    requires sg == "shiny gold" && dol == "dark olive" && vp == "vibrant plum" && fb == "faded blue" && db == "dotted black"
    ensures fb !in g && db !in g && sg in g && dol in g && vp in g
    ensures g[dol] == [Link(fb, 3), Link(db, 4)] && g[vp] == [Link(fb, 5), Link(db, 6)]
    ensures g[sg] == [Link(dol, 1), Link(vp, 2)]
    ensures sg in r && dol in r && vp in r && fb in r && db in r
    ensures r[sg] == 2 && r[dol] == 1 && r[vp] == 1 && r[fb] == 0 && r[db] == 0
  {
  }

  /** A colour holding two colours whose counts are known. */
  lemma TwoLinks(g: Graph, r: map<string, nat>, bag: string, a: string, b: string, wa: nat, wb: nat, ca: nat, cb: nat)
    requires Ranked(g, r) && bag in g && g[bag] == [Link(a, wa), Link(b, wb)]
    requires bag in r && a in r && b in r && r[a] < r[bag] && r[b] < r[bag]
    requires CountContaining(g, r, a) == ca && CountContaining(g, r, b) == cb
    ensures CountContaining(g, r, bag) == wa * (1 + ca) + wb * (1 + cb)
  {
    var links := g[bag];
    var tail := links[1..];
    assert links[0] == Link(a, wa) && tail == [Link(b, wb)] && tail[1..] == [];
    OneLinkStep(g, r, bag, tail, b, wb, cb, 0);
    OneLinkStep(g, r, bag, links, a, wa, ca, wb * (1 + cb));
  }

  /** One step of the sum over the links. */
  lemma OneLinkStep(g: Graph, r: map<string, nat>, bag: string, links: seq<Link>, c: string, w: nat, cc: nat, rest: nat)
    requires Ranked(g, r) && bag in r
    requires forall i :: 0 <= i < |links| ==> links[i].bag in r && r[links[i].bag] < r[bag]
    requires links != [] && links[0] == Link(c, w) && CountContaining(g, r, c) == cc
    requires SumLinks(g, r, bag, links[1..]) == rest
    ensures SumLinks(g, r, bag, links) == w * (1 + cc) + rest
  {
  }

  function SimpleRank(): map<string, nat>
  {
    map["shiny gold" := 2, "dark olive" := 1, "vibrant plum" := 1, "faded blue" := 0, "dotted black" := 0]
  }

  lemma SimpleRanked()
    ensures Ranked(SimpleGraph(), SimpleRank())
  {
  }

  /** A shiny gold bag holds 1 + 1 * 7 + 2 + 2 * 11 = 32 bags. */
  lemma SimpleExample(edges: seq<Edge>)
    requires edges == SimpleEdges()
    ensures Ranked(FromEdges(edges), SimpleRank())
    ensures CountContaining(FromEdges(edges), SimpleRank(), "shiny gold") == 32
  {
    SimpleGraphBuilt(edges);
    SimpleCount(SimpleGraph(), SimpleRank(), "shiny gold");
  }

  /** The rules of the doubling example. */
  function DeepEdges(): seq<Edge>
  {
    [Edge("shiny gold", "dark red", 2), Edge("dark red", "dark orange", 2),
     Edge("dark orange", "dark yellow", 2), Edge("dark yellow", "dark green", 2),
     Edge("dark green", "dark blue", 2), Edge("dark blue", "dark violet", 2)]
  }

  /** The graph after the first k rules of the doubling example. */
  function DeepPartial(k: nat): Graph
  {
    if k == 0 then map[]
    else
      var e := DeepEdges()[if k <= 6 then k - 1 else 5];
      DeepPartial(k - 1)[e.from := [Link(e.to, 2)]]
  }

  lemma DeepStep(k: nat)
    requires k < 6
    ensures AddEdge(DeepPartial(k), DeepEdges()[k]) == DeepPartial(k + 1)
  {
    var es := DeepEdges();
    assert DeepPartial(k).Keys == set j | 0 <= j < k :: es[j].from by {
      DeepPartialKeys(k);
    }
    assert es[k].from !in DeepPartial(k);
    AddNewEdge(DeepPartial(k), es[k]);
  }

  lemma {:induction false} DeepPartialKeys(k: nat)
    requires k <= 6
    ensures DeepPartial(k).Keys == set j | 0 <= j < k :: DeepEdges()[j].from
  {
    if k > 0 {
      DeepPartialKeys(k - 1);
    }
  }

  lemma {:induction false} DeepPrefix(edges: seq<Edge>, k: nat)
    requires edges == DeepEdges() && k <= 6
    ensures FromEdges(edges[..k]) == DeepPartial(k)
  {
    if k > 0 {
      DeepPrefix(edges, k - 1);
      FromEdgesPrefix(edges, k);
      DeepStep(k - 1);
    }
  }

  lemma DeepBuilt(edges: seq<Edge>)
    requires edges == DeepEdges()
    ensures FromEdges(edges) == DeepPartial(6)
  {
    DeepPrefix(edges, 6);
    assert edges[..6] == edges;
  }

  function DeepRank(): map<string, nat>
  {
    map["shiny gold" := 6, "dark red" := 5, "dark orange" := 4, "dark yellow" := 3,
        "dark green" := 2, "dark blue" := 1, "dark violet" := 0]
  }

  lemma DeepRanked()
    ensures Ranked(DeepPartial(6), DeepRank())
  {
  }

  lemma DeepCount()
    ensures Ranked(DeepPartial(6), DeepRank())
    ensures CountContaining(DeepPartial(6), DeepRank(), "shiny gold") == 126
  {
    var g, r := DeepPartial(6), DeepRank();
    DeepRanked();
    var sg, red, orange, yellow, green, blue, violet :=
      "shiny gold", "dark red", "dark orange", "dark yellow", "dark green", "dark blue", "dark violet";
    DeepShape(g, r, [sg, red, orange, yellow, green, blue, violet]);
    Doubling(g, r, blue, violet, 0);
    Doubling(g, r, green, blue, 2);
    Doubling(g, r, yellow, green, 6);
    Doubling(g, r, orange, yellow, 14);
    Doubling(g, r, red, orange, 30);
    Doubling(g, r, sg, red, 62);
  }

  /** The doubling graph links each colour of the chain to the next. */
  lemma DeepShape(g: Graph, r: map<string, nat>, chain: seq<string>)
    requires g == DeepPartial(6) && r == DeepRank()
    requires chain == ["shiny gold", "dark red", "dark orange", "dark yellow", "dark green", "dark blue", "dark violet"]
    ensures chain[6] !in g && forall i :: 0 <= i < 6 ==> chain[i] in g && g[chain[i]] == [Link(chain[i + 1], 2)]
    ensures forall i :: 0 <= i < 7 ==> chain[i] in r && r[chain[i]] == 6 - i
  {
  }

  /** A colour holding two bags of one colour whose count is known. */
  lemma Doubling(g: Graph, r: map<string, nat>, bag: string, a: string, ca: nat)
    requires Ranked(g, r) && bag in g && g[bag] == [Link(a, 2)]
    requires bag in r && a in r && r[a] < r[bag] && CountContaining(g, r, a) == ca
    ensures CountContaining(g, r, bag) == 2 + 2 * ca
  {
    var links := g[bag];
    assert links[0] == Link(a, 2) && links[1..] == [];
    OneLinkStep(g, r, bag, links, a, 2, ca, 0);
  }

  /** A shiny gold bag at the top of a chain of six doublings holds
      2 + 4 + ... + 64 = 126 bags. */
  lemma DeepExample(edges: seq<Edge>)
    requires edges == DeepEdges()
    ensures Ranked(FromEdges(edges), DeepRank())
    ensures CountContaining(FromEdges(edges), DeepRank(), "shiny gold") == 126
  {
    DeepBuilt(edges);
    DeepRanked();
    DeepCount();
  }

  /** The bag clauses of the parsing example, line by line. */
  function ExampleClauses(): seq<seq<Clause>>
  {
    [[Clause("", "light red"), Clause("1", "bright white"), Clause("2", "muted yellow")],
     [Clause("", "dark orange"), Clause("3", "bright white"), Clause("4", "muted yellow")],
     [Clause("", "bright white"), Clause("1", "shiny gold")],
     [Clause("", "dotted black"), Clause("", "no other")]]
  }

  lemma ExampleAmounts()
    ensures ParseNat("", U32_MAX) == None
    ensures ParseNat("1", U32_MAX) == Some(1) && ParseNat("2", U32_MAX) == Some(2)
    ensures ParseNat("3", U32_MAX) == Some(3) && ParseNat("4", U32_MAX) == Some(4)
  {
    ParseShowNat(1, U32_MAX);
    ParseShowNat(2, U32_MAX);
    ParseShowNat(3, U32_MAX);
    ParseShowNat(4, U32_MAX);
  }

  lemma ClauseEdgesCons(color: string, c: Clause, rest: seq<Clause>)
    ensures ClauseEdges(color, [c] + rest) ==
      (match ParseNat(c.amount, U32_MAX) case Some(n) => [Edge(color, c.color, n)] case None => [])
      + ClauseEdges(color, rest)
  {
    assert ([c] + rest)[1..] == rest;
  }

  lemma AllEdgesCons(line: seq<Clause>, lines: seq<seq<Clause>>, first: seq<Edge>, rest: seq<Edge>)
    requires ConvertToEdges(line) == Ok(first) && AllEdges(lines) == Ok(rest)
    ensures AllEdges([line] + lines) == Ok(first + rest)
  {
    assert ([line] + lines)[1..] == lines;
  }

  lemma ExampleLines()
    ensures ConvertToEdges(ExampleClauses()[0]) == Ok([Edge("light red", "bright white", 1), Edge("light red", "muted yellow", 2)])
    ensures ConvertToEdges(ExampleClauses()[1]) == Ok([Edge("dark orange", "bright white", 3), Edge("dark orange", "muted yellow", 4)])
    ensures ConvertToEdges(ExampleClauses()[2]) == Ok([Edge("bright white", "shiny gold", 1)])
    ensures ConvertToEdges(ExampleClauses()[3]) == Ok([])
  {
    ExampleAmounts();
    var ls := ExampleClauses();
    ClauseEdgesCons("light red", Clause("2", "muted yellow"), []);
    ClauseEdgesCons("light red", Clause("1", "bright white"), [Clause("2", "muted yellow")]);
    assert ls[0][1..] == [Clause("1", "bright white")] + [Clause("2", "muted yellow")];
    assert [Clause("2", "muted yellow")] + [] == [Clause("2", "muted yellow")];
    assert ClauseEdges("light red", [Clause("2", "muted yellow")]) == [Edge("light red", "muted yellow", 2)];
    assert ClauseEdges("light red", ls[0][1..]) == [Edge("light red", "bright white", 1)] + [Edge("light red", "muted yellow", 2)];
    assert [Edge("light red", "bright white", 1)] + [Edge("light red", "muted yellow", 2)]
      == [Edge("light red", "bright white", 1), Edge("light red", "muted yellow", 2)];
    assert ls[0] != [] && ls[0][0].color == "light red";
    ClauseEdgesCons("dark orange", Clause("4", "muted yellow"), []);
    ClauseEdgesCons("dark orange", Clause("3", "bright white"), [Clause("4", "muted yellow")]);
    assert ls[1][1..] == [Clause("3", "bright white")] + [Clause("4", "muted yellow")];
    assert [Clause("4", "muted yellow")] + [] == [Clause("4", "muted yellow")];
    assert ClauseEdges("dark orange", [Clause("4", "muted yellow")]) == [Edge("dark orange", "muted yellow", 4)];
    assert ClauseEdges("dark orange", ls[1][1..]) == [Edge("dark orange", "bright white", 3)] + [Edge("dark orange", "muted yellow", 4)];
    assert [Edge("dark orange", "bright white", 3)] + [Edge("dark orange", "muted yellow", 4)]
      == [Edge("dark orange", "bright white", 3), Edge("dark orange", "muted yellow", 4)];
    assert ls[1] != [] && ls[1][0].color == "dark orange";
    ClauseEdgesCons("bright white", Clause("1", "shiny gold"), []);
    assert ls[2][1..] == [Clause("1", "shiny gold")] + [];
    assert ClauseEdges("bright white", ls[2][1..]) == [Edge("bright white", "shiny gold", 1)] + [];
    assert [Edge("bright white", "shiny gold", 1)] + [] == [Edge("bright white", "shiny gold", 1)];
    assert ls[2] != [] && ls[2][0].color == "bright white";
    ClauseEdgesCons("dotted black", Clause("", "no other"), []);
    assert ls[3][1..] == [Clause("", "no other")] + [];
  }

  /** The example rules give the five edges of the example graph; the
      "no other bags" line gives none. */
  lemma ParseExample()
    ensures AllEdges(ExampleClauses()) == Ok([
      Edge("light red", "bright white", 1), Edge("light red", "muted yellow", 2),
      Edge("dark orange", "bright white", 3), Edge("dark orange", "muted yellow", 4),
      Edge("bright white", "shiny gold", 1)])
  {
    ExampleLines();
    var ls := ExampleClauses();
    var e0 := [Edge("light red", "bright white", 1), Edge("light red", "muted yellow", 2)];
    var e1 := [Edge("dark orange", "bright white", 3), Edge("dark orange", "muted yellow", 4)];
    var e2 := [Edge("bright white", "shiny gold", 1)];
    AllEdgesCons(ls[3], [], [], []);
    AllEdgesCons(ls[2], [ls[3]], e2, []);
    AllEdgesCons(ls[1], [ls[2], ls[3]], e1, e2);
    AllEdgesCons(ls[0], [ls[1], ls[2], ls[3]], e0, e1 + e2);
    assert [ls[0]] + [ls[1], ls[2], ls[3]] == ls;
    assert e0 + (e1 + e2) == [
      Edge("light red", "bright white", 1), Edge("light red", "muted yellow", 2),
      Edge("dark orange", "bright white", 3), Edge("dark orange", "muted yellow", 4),
      Edge("bright white", "shiny gold", 1)];
  }
}
