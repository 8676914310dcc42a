/**
 * Day 16, Ticket Translation: rules name ranges of valid values, nearby
 * tickets list numbers in an unknown column order.  Part one sums the
 * values no rule accepts; part two drops the tickets holding such values and
 * locks rules to columns by repeatedly taking a rule left with exactly one
 * possible column.
 */
module TicketTranslation {
  import opened Text

  /** An inclusive range of values. */
  datatype Range = Range(min: nat, max: nat)

  /** A named field with the ranges its values may fall in. */
  datatype Rule = Rule(name: string, ranges: seq<Range>)

  type Ticket = seq<nat>

  datatype Notes = Notes(rules: seq<Rule>, yourTicket: Ticket, nearbyTickets: seq<Ticket>)

  /** Range::contains: both ends are included. */
  predicate Contains(range: Range, value: nat)
  {
    range.min <= value && value <= range.max
  }

  /** Rule::valid: the ranges tried in order until one contains the value. */
  function Valid(rule: Rule, value: nat): bool
  {
    AnyContains(rule.ranges, value)
  }

  function AnyContains(ranges: seq<Range>, value: nat): bool
  {
    if ranges == [] then false else Contains(ranges[0], value) || AnyContains(ranges[1..], value)
  }

  /** A rule accepts a value exactly when one of its ranges contains it; so
      a value at either end of a range is accepted. */
  lemma ValidSpec(rule: Rule, value: nat)
    ensures Valid(rule, value) <==> exists i :: 0 <= i < |rule.ranges| && Contains(rule.ranges[i], value)
  {
    AnyContainsSpec(rule.ranges, value);
  }

  lemma {:induction false} AnyContainsSpec(ranges: seq<Range>, value: nat)
    ensures AnyContains(ranges, value) <==> exists i :: 0 <= i < |ranges| && Contains(ranges[i], value)
  {
    if ranges != [] {
      AnyContainsSpec(ranges[1..], value);
      if exists i :: 0 <= i < |ranges| && Contains(ranges[i], value) {
        var i :| 0 <= i < |ranges| && Contains(ranges[i], value);
        if i > 0 { assert ranges[1..][i - 1] == ranges[i]; }
      }
    }
  }

  /** Some rule accepts the value. */
  function ValidForAny(rules: seq<Rule>, value: nat): bool
  {
    if rules == [] then false else Valid(rules[0], value) || ValidForAny(rules[1..], value)
  }

  lemma {:induction false} ValidForAnySpec(rules: seq<Rule>, value: nat)
    ensures ValidForAny(rules, value) <==> exists i :: 0 <= i < |rules| && Valid(rules[i], value)
  {
    if rules != [] {
      ValidForAnySpec(rules[1..], value);
      if exists i :: 0 <= i < |rules| && Valid(rules[i], value) {
        var i :| 0 <= i < |rules| && Valid(rules[i], value);
        if i > 0 { assert rules[1..][i - 1] == rules[i]; }
      }
    }
  }

  // Part one: the scanning error rate

  function Flatten(tickets: seq<Ticket>): seq<nat>
  {
    if tickets == [] then [] else tickets[0] + Flatten(tickets[1..])
  }

  lemma {:induction false} FlattenAppend(a: seq<Ticket>, b: seq<Ticket>)
    ensures Flatten(a + b) == Flatten(a) + Flatten(b)
    decreases |a|
  {
    if a == [] {
      assert a + b == b;
    } else {
      assert (a + b)[1..] == a[1..] + b;
      FlattenAppend(a[1..], b);
    }
  }

  /** The values of the tickets, in order, that no rule accepts. */
  function ErrorValues(rules: seq<Rule>, tickets: seq<Ticket>): seq<nat>
  {
    Filter(Flatten(tickets), v => !ValidForAny(rules, v))
  }

  /** scanning_error_rate: the sum of the values no rule accepts. */
  function ScanningErrorRate(notes: Notes): nat
  {
    var s := Sum(ErrorValues(notes.rules, notes.nearbyTickets));
    SumNat(ErrorValues(notes.rules, notes.nearbyTickets));
    s
  }

  lemma {:induction false} SumNat(xs: seq<nat>)
    ensures Sum(xs) >= 0
  {
    if xs != [] {
      SumNat(xs[1..]);
    }
  }

  /** A value is counted exactly when it is on some nearby ticket and no
      rule accepts it. */
  lemma {:induction false} ErrorValuesSpec(rules: seq<Rule>, tickets: seq<Ticket>, v: nat)
    ensures v in ErrorValues(rules, tickets) <==>
      (exists k :: 0 <= k < |tickets| && v in tickets[k]) && forall i :: 0 <= i < |rules| ==> !Valid(rules[i], v)
    decreases |tickets|
  {
    ValidForAnySpec(rules, v);
    FlattenMembers(tickets, v);
  }

  lemma {:induction false} FlattenMembers(tickets: seq<Ticket>, v: nat)
    ensures v in Flatten(tickets) <==> exists k :: 0 <= k < |tickets| && v in tickets[k]
    decreases |tickets|
  {
    if tickets != [] {
      FlattenMembers(tickets[1..], v);
      if exists k :: 0 <= k < |tickets| && v in tickets[k] {
        var k :| 0 <= k < |tickets| && v in tickets[k];
        if k > 0 { assert tickets[1..][k - 1] == tickets[k]; }
      }
    }
  }

  /** The error rate of two batches of tickets is the sum of their rates. */
  lemma ErrorRateAppend(rules: seq<Rule>, your: Ticket, a: seq<Ticket>, b: seq<Ticket>)
    ensures ScanningErrorRate(Notes(rules, your, a + b))
      == ScanningErrorRate(Notes(rules, your, a)) + ScanningErrorRate(Notes(rules, your, b))
  {
    FlattenAppend(a, b);
    var keep := v => !ValidForAny(rules, v);
    FilterAppend(Flatten(a), Flatten(b), keep);
    SumAppend(Filter(Flatten(a), keep), Filter(Flatten(b), keep));
  }

  // Part two: dropping invalid tickets

  /** Every value of the ticket is accepted by some rule. */
  predicate TicketValid(rules: seq<Rule>, ticket: Ticket)
  {
    forall i :: 0 <= i < |ticket| ==> ValidForAny(rules, ticket[i])
  }

  /** filter_out_invalid_tickets: the nearby tickets all of whose values
      some rule accepts, in their original order. */
  function FilterOutInvalidTickets(notes: Notes): (r: seq<Ticket>)
    ensures forall t :: t in r <==> t in notes.nearbyTickets && TicketValid(notes.rules, t)
  {
    var keep := t => TicketValid(notes.rules, t);
    var r := Filter(notes.nearbyTickets, keep);
    assert forall t :: t in r ==> t in notes.nearbyTickets && TicketValid(notes.rules, t) by {
      forall t | t in r ensures t in notes.nearbyTickets && TicketValid(notes.rules, t) {
        var i :| 0 <= i < |r| && r[i] == t;
      }
    }
    r
  }

  /** When every nearby ticket is valid none is dropped and the error rate
      is 0. */
  lemma NothingDropped(notes: Notes)
    requires forall k :: 0 <= k < |notes.nearbyTickets| ==> TicketValid(notes.rules, notes.nearbyTickets[k])
    ensures FilterOutInvalidTickets(notes) == notes.nearbyTickets
    ensures ScanningErrorRate(notes) == 0
  {
    FilterAll(notes.nearbyTickets, t => TicketValid(notes.rules, t));
    var values := Flatten(notes.nearbyTickets);
    forall i | 0 <= i < |values| ensures ValidForAny(notes.rules, values[i]) {
      FlattenMembers(notes.nearbyTickets, values[i]);
      var k :| 0 <= k < |notes.nearbyTickets| && values[i] in notes.nearbyTickets[k];
      var j :| 0 <= j < |notes.nearbyTickets[k]| && notes.nearbyTickets[k][j] == values[i];
    }
    FilterNone(values, v => !ValidForAny(notes.rules, v));
  }

  lemma {:induction false} FilterAll<T>(xs: seq<T>, keep: T -> bool)
    requires forall i :: 0 <= i < |xs| ==> keep(xs[i])
    ensures Filter(xs, keep) == xs
    decreases |xs|
  {
    if xs != [] {
      FilterAll(xs[1..], keep);
    }
  }

  lemma {:induction false} FilterNone<T>(xs: seq<T>, keep: T -> bool)
    requires forall i :: 0 <= i < |xs| ==> !keep(xs[i])
    ensures Filter(xs, keep) == []
    decreases |xs|
  {
    if xs != [] {
      FilterNone(xs[1..], keep);
    }
  }

  // Part two: candidate columns per rule

  const UnwrapNone := "called `Option::unwrap()` on a `None` value"

  /** Whether column i of every ticket holds a value the rule accepts; the
      tickets are tried in order and one too short to have column i is the
      source's unwrap panic. */
  function ColumnValid(rule: Rule, tickets: seq<Ticket>, i: nat): (r: Result<bool>)
    ensures r.Err? ==> r.error == UnwrapNone
  {
    if tickets == [] then Ok(true)
    else if i >= |tickets[0]| then Err(UnwrapNone)
    else if !Valid(rule, tickets[0][i]) then Ok(false)
    else ColumnValid(rule, tickets[1..], i)
  }

  /** The column check passes exactly when every ticket has column i with
      a value the rule accepts; it panics only when a short ticket is
      reached before any rejection. */
  lemma {:induction false} ColumnValidSpec(rule: Rule, tickets: seq<Ticket>, i: nat)
    ensures ColumnValid(rule, tickets, i) == Ok(true) <==>
      forall k :: 0 <= k < |tickets| ==> i < |tickets[k]| && Valid(rule, tickets[k][i])
    ensures ColumnValid(rule, tickets, i).Err? ==> exists k :: 0 <= k < |tickets| && i >= |tickets[k]|
    ensures (forall k :: 0 <= k < |tickets| ==> i < |tickets[k]|) ==> ColumnValid(rule, tickets, i).Ok?
    decreases |tickets|
  {
    if tickets != [] {
      ColumnValidSpec(rule, tickets[1..], i);
      assert forall k :: 1 <= k < |tickets| ==> tickets[1..][k - 1] == tickets[k];
      if ColumnValid(rule, tickets, i).Err? && i < |tickets[0]| {
        var k :| 0 <= k < |tickets[1..]| && i >= |tickets[1..][k]|;
        assert i >= |tickets[k + 1]|;
      }
    }
  }

  /** The columns below n in which every ticket satisfies the rule. */
  function ColumnsFor(rule: Rule, tickets: seq<Ticket>, n: nat): (r: Result<set<nat>>)
    ensures r.Err? ==> r.error == UnwrapNone
    decreases n
  {
    if n == 0 then Ok({})
    else
      match ColumnsFor(rule, tickets, n - 1)
      case Err(e) => Err(e)
      case Ok(cs) =>
        match ColumnValid(rule, tickets, n - 1)
        case Err(e) => Err(e)
        case Ok(ok) => Ok(if ok then cs + {n - 1} else cs)
  }

  lemma {:induction false} ColumnsForSpec(rule: Rule, tickets: seq<Ticket>, n: nat)
    ensures ColumnsFor(rule, tickets, n).Err? <==> exists c :: 0 <= c < n && ColumnValid(rule, tickets, c).Err?
    ensures ColumnsFor(rule, tickets, n).Ok? ==> forall c: nat :: c in ColumnsFor(rule, tickets, n).value <==>
      c < n && ColumnValid(rule, tickets, c) == Ok(true)
    decreases n
  {
    if n > 0 {
      ColumnsForSpec(rule, tickets, n - 1);
      if ColumnsFor(rule, tickets, n - 1).Ok? && ColumnValid(rule, tickets, n - 1).Err? {
        assert 0 <= n - 1 < n;
      }
      if exists c :: 0 <= c < n && ColumnValid(rule, tickets, c).Err? {
        var c :| 0 <= c < n && ColumnValid(rule, tickets, c).Err?;
        if c < n - 1 {
          assert exists c' :: 0 <= c' < n - 1 && ColumnValid(rule, tickets, c').Err?;
          assert ColumnsFor(rule, tickets, n - 1).Err?;
        } else {
          assert ColumnValid(rule, tickets, n - 1).Err?;
          assert ColumnsFor(rule, tickets, n).Err?;
        }
      } else {
        var cs := ColumnsFor(rule, tickets, n - 1).value;
        forall c: nat ensures c in ColumnsFor(rule, tickets, n).value <==>
          c < n && ColumnValid(rule, tickets, c) == Ok(true)
        {
          if c < n - 1 {
            assert c in cs <==> ColumnValid(rule, tickets, c) == Ok(true);
          }
        }
      }
    }
  }

  /** The candidate columns of every rule, keyed by name: a later rule of
      the same name replaces an earlier one, as collecting into a HashMap
      does. */
  function Candidates(rules: seq<Rule>, tickets: seq<Ticket>, width: nat): (r: Result<map<string, set<nat>>>)
    ensures r.Err? ==> r.error == UnwrapNone
    decreases |rules|
  {
    if rules == [] then Ok(map[])
    else
      match Candidates(rules[..|rules| - 1], tickets, width)
      case Err(e) => Err(e)
      case Ok(m) =>
        var rule := rules[|rules| - 1];
        match ColumnsFor(rule, tickets, width)
        case Err(e) => Err(e)
        case Ok(cs) => Ok(m[rule.name := cs])
  }

  /** The last rule called name passes the column check exactly in the
      columns cs below width. */
  ghost predicate LastRuleColumns(rules: seq<Rule>, tickets: seq<Ticket>, width: nat, name: string, cs: set<nat>)
  {
    exists i :: 0 <= i < |rules| && rules[i].name == name && LastOfName(rules, i)
      && forall c: nat :: c in cs <==> c < width && ColumnValid(rules[i], tickets, c) == Ok(true)
  }

  predicate LastOfName(rules: seq<Rule>, i: nat)
    requires i < |rules|
  {
    forall j :: i < j < |rules| ==> rules[j].name != rules[i].name
  }

  /** The candidates fail to compute exactly when some rule's column
      check reaches a ticket too short for it. */
  lemma {:induction false} CandidatesErr(rules: seq<Rule>, tickets: seq<Ticket>, width: nat)
    ensures Candidates(rules, tickets, width).Err? <==>
      exists i, c :: 0 <= i < |rules| && 0 <= c < width && ColumnValid(rules[i], tickets, c).Err?
    decreases |rules|
  {
    if rules != [] {
      var init := rules[..|rules| - 1];
      var rule := rules[|rules| - 1];
      CandidatesErr(init, tickets, width);
      ColumnsForSpec(rule, tickets, width);
      assert forall i :: 0 <= i < |init| ==> init[i] == rules[i];
      if exists i, c :: 0 <= i < |rules| && 0 <= c < width && ColumnValid(rules[i], tickets, c).Err? {
        var i, c :| 0 <= i < |rules| && 0 <= c < width && ColumnValid(rules[i], tickets, c).Err?;
        if i < |init| {
          assert ColumnValid(init[i], tickets, c).Err?;
        }
      }
    }
  }

  /** Candidate columns are kept for exactly the rule names. */
  lemma {:induction false} CandidatesKeys(rules: seq<Rule>, tickets: seq<Ticket>, width: nat)
    requires Candidates(rules, tickets, width).Ok?
    ensures forall name :: name in Candidates(rules, tickets, width).value <==>
      exists i :: 0 <= i < |rules| && rules[i].name == name
    decreases |rules|
  {
    if rules != [] {
      var init := rules[..|rules| - 1];
      CandidatesKeys(init, tickets, width);
      assert forall i :: 0 <= i < |init| ==> init[i] == rules[i];
      forall name | exists i :: 0 <= i < |rules| && rules[i].name == name
        ensures name in Candidates(rules, tickets, width).value
      {
        var i :| 0 <= i < |rules| && rules[i].name == name;
        if i < |init| { assert init[i].name == name; }
      }
    }
  }

  /** Each rule name's candidates are the columns in which every kept
      ticket satisfies the last rule of that name. */
  lemma {:induction false} CandidatesColumns(rules: seq<Rule>, tickets: seq<Ticket>, width: nat)
    requires Candidates(rules, tickets, width).Ok?
    ensures forall name :: name in Candidates(rules, tickets, width).value ==>
      LastRuleColumns(rules, tickets, width, name, Candidates(rules, tickets, width).value[name])
    decreases |rules|
  {
    if rules != [] {
      var init := rules[..|rules| - 1];
      var rule := rules[|rules| - 1];
      CandidatesColumns(init, tickets, width);
      var m := Candidates(rules, tickets, width).value;
      var p := Candidates(init, tickets, width).value;
      var cs := ColumnsFor(rule, tickets, width).value;
      assert m == p[rule.name := cs];
      assert rules == init + [rule];
      forall name | name in m ensures LastRuleColumns(rules, tickets, width, name, m[name]) {
        if name == rule.name {
          LastRuleColumnsNew(init, rule, tickets, width);
        } else {
          LastRuleColumnsKept(init, rule, tickets, width, name, p[name]);
        }
      }
    }
  }

  lemma LastRuleColumnsNew(init: seq<Rule>, rule: Rule, tickets: seq<Ticket>, width: nat)
    requires ColumnsFor(rule, tickets, width).Ok?
    ensures LastRuleColumns(init + [rule], tickets, width, rule.name, ColumnsFor(rule, tickets, width).value)
  {
    ColumnsForSpec(rule, tickets, width);
    var rules := init + [rule];
    assert rules[|init|] == rule;
    assert LastOfName(rules, |init|);
  }

  lemma LastRuleColumnsKept(init: seq<Rule>, rule: Rule, tickets: seq<Ticket>, width: nat, name: string, cs: set<nat>)
    requires name != rule.name && LastRuleColumns(init, tickets, width, name, cs)
    ensures LastRuleColumns(init + [rule], tickets, width, name, cs)
  {
    var rules := init + [rule];
    var i :| 0 <= i < |init| && init[i].name == name && LastOfName(init, i)
      && forall c: nat :: c in cs <==> c < width && ColumnValid(init[i], tickets, c) == Ok(true);
    assert rules[i] == init[i];
    assert LastOfName(rules, i) by {
      forall j | i < j < |rules| ensures rules[j].name != rules[i].name {
        if j < |init| { assert rules[j] == init[j]; }
      }
    }
  }

  // Part two: locking rules to columns

  /** The rule names of the locked pairs. */
  function Names(locked: seq<(string, nat)>): set<string>
  {
    set k | 0 <= k < |locked| :: locked[k].0
  }

  /** The columns of the locked pairs. */
  function Columns(locked: seq<(string, nat)>): set<nat>
  {
    set k | 0 <= k < |locked| :: locked[k].1
  }

  /** The candidates left after locking the pairs: locked rules are gone
      and locked columns are removed from every other rule. */
  function Remaining(initial: map<string, set<nat>>, locked: seq<(string, nat)>): map<string, set<nat>>
  {
    map name | name in initial && name !in Names(locked) :: initial[name] - Columns(locked)
  }

  /** Each pair was locked when its rule had exactly that one column left. */
  predicate Elimination(initial: map<string, set<nat>>, locked: seq<(string, nat)>)
  {
    forall k :: 0 <= k < |locked| ==> LockedAt(initial, locked[..k], locked[k])
  }

  predicate LockedAt(initial: map<string, set<nat>>, before: seq<(string, nat)>, pair: (string, nat))
  {
    var m := Remaining(initial, before);
    pair.0 in m && m[pair.0] == {pair.1}
  }

  /** No rule is left with exactly one column: the loop has nothing more to
      lock. */
  predicate Stuck(m: map<string, set<nat>>)
  {
    forall name :: name in m ==> |m[name]| != 1
  }

  /** The final mapping built by inserting the locked pairs in order. */
  function PairsMap(locked: seq<(string, nat)>): map<string, nat>
  {
    if locked == [] then map[] else PairsMap(locked[..|locked| - 1])[locked[|locked| - 1].0 := locked[|locked| - 1].1]
  }

  /** The pairs of an elimination each take a candidate column of their
      rule, and no two share a rule or a column. */
  lemma EliminationSound(initial: map<string, set<nat>>, locked: seq<(string, nat)>)
    requires Elimination(initial, locked)
    ensures forall k :: 0 <= k < |locked| ==> locked[k].0 in initial && locked[k].1 in initial[locked[k].0]
    ensures forall j, k :: 0 <= j < k < |locked| ==> locked[j].0 != locked[k].0 && locked[j].1 != locked[k].1
  {
    forall k | 0 <= k < |locked|
      ensures locked[k].0 in initial && locked[k].1 in initial[locked[k].0]
      ensures forall j :: 0 <= j < k ==> locked[j].0 != locked[k].0 && locked[j].1 != locked[k].1
    {
      assert LockedAt(initial, locked[..k], locked[k]);
      var before := locked[..k];
      assert locked[k].1 in Remaining(initial, before)[locked[k].0];
      forall j | 0 <= j < k ensures locked[j].0 != locked[k].0 && locked[j].1 != locked[k].1 {
        assert before[j] == locked[j];
        assert locked[j].0 in Names(before);
        assert locked[j].1 in Columns(before);
      }
    }
  }

  /** The mapping of distinct-named pairs sends each name to its column and
      holds no other name. */
  lemma {:induction false} PairsMapSpec(locked: seq<(string, nat)>)
    requires forall j, k :: 0 <= j < k < |locked| ==> locked[j].0 != locked[k].0
    ensures PairsMap(locked).Keys == Names(locked)
    ensures forall k :: 0 <= k < |locked| ==> PairsMap(locked)[locked[k].0] == locked[k].1
    decreases |locked|
  {
    if locked != [] {
      var init := locked[..|locked| - 1];
      PairsMapSpec(init);
      assert forall k :: 0 <= k < |init| ==> init[k] == locked[k];
      assert Names(locked) == Names(init) + {locked[|locked| - 1].0} by {
        forall n | n in Names(locked) ensures n in Names(init) + {locked[|locked| - 1].0} {
          var k :| 0 <= k < |locked| && locked[k].0 == n;
          if k < |init| { assert init[k].0 == n; }
        }
      }
    }
  }

  lemma RemainingNone(initial: map<string, set<nat>>)
    ensures Remaining(initial, []) == initial
  {
    var m := Remaining(initial, []);
    assert Names([]) == {} && Columns([]) == {};
    assert m.Keys == initial.Keys;
    forall r | r in m ensures m[r] == initial[r] {
      assert m[r] == initial[r] - {};
    }
  }

  /** Locking a pair shrinks the candidates as the loop body does. */
  lemma RemainingStep(initial: map<string, set<nat>>, locked: seq<(string, nat)>, name: string, column: nat)
    ensures Remaining(initial, locked + [(name, column)])
      == map r | r in Remaining(initial, locked) && r != name :: Remaining(initial, locked)[r] - {column}
  {
    var l := locked + [(name, column)];
    assert Names(l) == Names(locked) + {name} by {
      forall n | n in Names(l) ensures n in Names(locked) + {name} {
        var k :| 0 <= k < |l| && l[k].0 == n;
        if k < |locked| { assert locked[k].0 == n; }
      }
      forall n | n in Names(locked) ensures n in Names(l) {
        var k :| 0 <= k < |locked| && locked[k].0 == n;
        assert l[k].0 == n;
      }
      assert l[|locked|].0 == name;
    }
    assert Columns(l) == Columns(locked) + {column} by {
      forall c | c in Columns(l) ensures c in Columns(locked) + {column} {
        var k :| 0 <= k < |l| && l[k].1 == c;
        if k < |locked| { assert locked[k].1 == c; }
      }
      forall c | c in Columns(locked) ensures c in Columns(l) {
        var k :| 0 <= k < |locked| && locked[k].1 == c;
        assert l[k].1 == c;
      }
      assert l[|locked|].1 == column;
    }
    var before := Remaining(initial, locked);
    var after := Remaining(initial, l);
    var step := map r | r in before && r != name :: before[r] - {column};
    assert after.Keys == step.Keys;
    forall r | r in after ensures after[r] == step[r] {
      assert after[r] == initial[r] - (Columns(locked) + {column});
    }
  }

  /** An elimination extended by a pair locked at its end is one still. */
  lemma EliminationStep(initial: map<string, set<nat>>, locked: seq<(string, nat)>, pair: (string, nat))
    requires Elimination(initial, locked) && LockedAt(initial, locked, pair)
    ensures Elimination(initial, locked + [pair])
  {
    var l := locked + [pair];
    forall k | 0 <= k < |l| ensures LockedAt(initial, l[..k], l[k]) {
      if k < |locked| {
        assert l[..k] == locked[..k];
        assert l[k] == locked[k];
      } else {
        assert l[..k] == locked;
      }
    }
  }

  /** map_rules_to_tickets: drops the invalid tickets, computes every
      rule's candidate columns, then keeps locking a rule that has exactly
      one column left, removing that rule and that column, until no rule
      has exactly one.  The locked pairs are returned as a ghost record of
      the order they were found in. */
  method MapRulesToTickets(notes: Notes) returns (r: Result<map<string, nat>>, ghost locked: seq<(string, nat)>)
    ensures var cands := Candidates(notes.rules, FilterOutInvalidTickets(notes), |notes.yourTicket|);
      (r.Err? <==> cands.Err?)
      && (r.Err? ==> r.error == UnwrapNone)
      && (r.Ok? ==> Elimination(cands.value, locked))
      && (r.Ok? ==> Stuck(Remaining(cands.value, locked)) && r.value == PairsMap(locked))
    ensures r.Ok? ==> forall name :: name in r.value ==>
      ColumnFits(notes.rules, FilterOutInvalidTickets(notes), name, r.value[name])
    ensures r.Ok? ==> forall a, b :: a in r.value && b in r.value && a != b ==> r.value[a] != r.value[b]
  {
    var validTickets := FilterOutInvalidTickets(notes);
    var candidates := Candidates(notes.rules, validTickets, |notes.yourTicket|);
    locked := [];
    if candidates.Err? {
      return Err(candidates.error), locked;
    }
    var initial := candidates.value;
    var mapping := initial;
    RemainingNone(initial);
    var finalMapping: map<string, nat> := map[];
    while true
      invariant mapping == Remaining(initial, locked)
      invariant Elimination(initial, locked)
      invariant finalMapping == PairsMap(locked)
      decreases mapping.Keys
    {
      var found := FindSingleton(mapping);
      if found.None? {
        break;
      }
      var (name, column) := found.value;
      finalMapping := finalMapping[name := column];
      var next := map r | r in mapping && r != name :: mapping[r] - {column};
      LockStep(initial, locked, name, column);
      locked := locked + [(name, column)];
      assert next.Keys < mapping.Keys by {
        assert name in mapping.Keys && name !in next.Keys;
      }
      mapping := next;
    }
    LockedColumnsFit(notes, initial, locked);
    LockedInjective(initial, locked);
    return Ok(finalMapping), locked;
  }

  /** The search through the candidates for a rule with exactly one column
      left, stopping at the first found. */
  method FindSingleton(mapping: map<string, set<nat>>) returns (found: Option<(string, nat)>)
    ensures found.None? <==> Stuck(mapping)
    ensures found.Some? ==> found.value.0 in mapping && mapping[found.value.0] == {found.value.1}
  {
    found := None;
    var unseen := mapping.Keys;
    while unseen != {}
      invariant unseen <= mapping.Keys
      invariant forall name :: name in mapping && name !in unseen ==> |mapping[name]| != 1
      decreases |unseen|
    {
      var name :| name in unseen;
      if |mapping[name]| == 1 {
        var column :| column in mapping[name];
        SingletonOf(mapping[name], column);
        return Some((name, column));
      }
      unseen := unseen - {name};
    }
  }

  /** Locking a pair found by the search keeps the loop's invariants. */
  lemma LockStep(initial: map<string, set<nat>>, locked: seq<(string, nat)>, name: string, column: nat)
    requires Elimination(initial, locked)
    requires var m := Remaining(initial, locked); name in m && m[name] == {column}
    ensures Elimination(initial, locked + [(name, column)])
    ensures Remaining(initial, locked + [(name, column)])
      == map r | r in Remaining(initial, locked) && r != name :: Remaining(initial, locked)[r] - {column}
    ensures PairsMap(locked + [(name, column)]) == PairsMap(locked)[name := column]
  {
    RemainingStep(initial, locked, name, column);
    EliminationStep(initial, locked, (name, column));
    assert (locked + [(name, column)])[..|locked|] == locked;
  }

  lemma SingletonOf(s: set<nat>, x: nat)
    requires |s| == 1 && x in s
    ensures s == {x}
  {
    assert |s - {x}| == 0;
    assert s - {x} == {};
  }

  /** Some rule called name accepts column c of every ticket. */
  ghost predicate ColumnFits(rules: seq<Rule>, tickets: seq<Ticket>, name: string, c: nat)
  {
    exists i :: 0 <= i < |rules| && rules[i].name == name && ColumnOfEvery(rules[i], tickets, c)
  }

  predicate ColumnOfEvery(rule: Rule, tickets: seq<Ticket>, c: nat)
  {
    forall t :: t in tickets ==> c < |t| && Valid(rule, t[c])
  }

  /** The locked pairs' columns satisfy their rules on every kept
      ticket. */
  lemma LockedColumnsFit(notes: Notes, initial: map<string, set<nat>>, locked: seq<(string, nat)>)
    requires Candidates(notes.rules, FilterOutInvalidTickets(notes), |notes.yourTicket|) == Ok(initial)
    requires Elimination(initial, locked)
    ensures forall name :: name in PairsMap(locked) ==>
      ColumnFits(notes.rules, FilterOutInvalidTickets(notes), name, PairsMap(locked)[name])
  {
    var tickets := FilterOutInvalidTickets(notes);
    var m := PairsMap(locked);
    EliminationSound(initial, locked);
    PairsMapSpec(locked);
    CandidatesColumns(notes.rules, tickets, |notes.yourTicket|);
    forall name | name in m ensures ColumnFits(notes.rules, tickets, name, m[name]) {
      var k :| 0 <= k < |locked| && locked[k].0 == name;
      CandidateFits(notes.rules, tickets, |notes.yourTicket|, name, initial[name], locked[k].1);
    }
  }

  lemma CandidateFits(rules: seq<Rule>, tickets: seq<Ticket>, width: nat, name: string, cs: set<nat>, c: nat)
    requires LastRuleColumns(rules, tickets, width, name, cs) && c in cs
    ensures ColumnFits(rules, tickets, name, c)
  {
    var i :| 0 <= i < |rules| && rules[i].name == name && LastOfName(rules, i)
      && forall c: nat :: c in cs <==> c < width && ColumnValid(rules[i], tickets, c) == Ok(true);
    ColumnValidSpec(rules[i], tickets, c);
    forall t | t in tickets ensures c < |t| && Valid(rules[i], t[c]) {
      var x :| 0 <= x < |tickets| && tickets[x] == t;
    }
    assert ColumnOfEvery(rules[i], tickets, c);
  }

  /** No two rules are locked to the same column. */
  lemma LockedInjective(initial: map<string, set<nat>>, locked: seq<(string, nat)>)
    requires Elimination(initial, locked)
    ensures forall a, b :: a in PairsMap(locked) && b in PairsMap(locked) && a != b ==> PairsMap(locked)[a] != PairsMap(locked)[b]
  {
    var m := PairsMap(locked);
    EliminationSound(initial, locked);
    PairsMapSpec(locked);
    forall a, b | a in m && b in m && a != b ensures m[a] != m[b] {
      var j :| 0 <= j < |locked| && locked[j].0 == a;
      var k :| 0 <= k < |locked| && locked[k].0 == b;
      if j < k {
        assert locked[j].1 != locked[k].1;
      } else {
        assert locked[k].1 != locked[j].1;
      }
    }
  }

  // Parsing tickets

  /** convert_to_ticket: the comma separated pieces that read as 32-bit
      unsigned numbers, in order; the others are dropped. */
  function ConvertToTicket(line: string): (r: Ticket)
    ensures forall x :: x in r ==> x <= U32_MAX
    ensures |r| <= |Split(line, ',')|
  {
    ParseNats(Split(line, ','), U32_MAX)
  }

  /** A ticket written with commas between its numbers reads back
      unchanged. */
  lemma ConvertShownTicket(ticket: Ticket)
    requires forall x :: x in ticket ==> x <= U32_MAX
    ensures ConvertToTicket(Join(ShowNats(ticket), ",")) == ticket
  {
    var parts := ShowNats(ticket);
    if ticket == [] {
      assert Join(parts, ",") == "";
      assert Split("", ',') == [""];
    } else {
      forall i | 0 <= i < |parts| ensures Avoids(parts[i], {','}) {
        DigitsAvoid(parts[i], {','});
      }
      assert forall i, j :: 0 <= i < |parts| && 0 <= j < |parts[i]| ==> parts[i][j] !in {','};
      SplitAnyJoin(parts, {','}, ',');
      ParseShowNats(ticket, U32_MAX);
    }
  }

  // The puzzle's examples

  function ScanRules(): seq<Rule>
  {
    [Rule("class", [Range(1, 3), Range(5, 7)]), Rule("row", [Range(6, 11), Range(33, 44)]),
     Rule("seat", [Range(13, 40), Range(45, 50)])]
  }

  /** The error rate of a single ticket: the sum of its values no rule
      accepts. */
  lemma SingleTicketRate(rules: seq<Rule>, your: Ticket, t: Ticket)
    ensures ScanningErrorRate(Notes(rules, your, [t])) == Sum(Filter(t, v => !ValidForAny(rules, v)))
  {
    assert [t][1..] == [];
    assert Flatten([t]) == t + Flatten([]);
    assert t + [] == t;
  }

  lemma FilterThree<T>(a: T, b: T, c: T, keep: T -> bool)
    ensures Filter([a, b, c], keep)
      == (if keep(a) then [a] else []) + (if keep(b) then [b] else []) + (if keep(c) then [c] else [])
  {
    FilterCons(a, [b, c], keep);
    FilterCons(b, [c], keep);
    FilterCons(c, [], keep);
    assert [a] + [b, c] == [a, b, c] && [b] + [c] == [b, c] && [c] + [] == [c];
  }

  /** 4, 55 and 12 fall in none of the example's ranges. */
  lemma ScanInvalid(rules: seq<Rule>)
    requires rules == ScanRules()
    ensures !ValidForAny(rules, 4) && !ValidForAny(rules, 55) && !ValidForAny(rules, 12)
  {
    assert rules[1..][1..][1..] == [];
  }

  lemma ScanTicket1(rules: seq<Rule>, your: Ticket, t: Ticket)
    requires rules == ScanRules() && t == [7, 3, 47]
    ensures ScanningErrorRate(Notes(rules, your, [t])) == 0
  {
    SingleTicketRate(rules, your, t);
    assert ValidForAny(rules, 7);
    assert ValidForAny(rules, 3);
    assert ValidForAny(rules, 47);
    FilterThree(7, 3, 47, v => !ValidForAny(rules, v));
  }

  lemma ScanTicket2(rules: seq<Rule>, your: Ticket, t: Ticket)
    requires rules == ScanRules() && t == [40, 4, 50]
    ensures ScanningErrorRate(Notes(rules, your, [t])) == 4
  {
    SingleTicketRate(rules, your, t);
    assert ValidForAny(rules, 40);
    ScanInvalid(rules);
    assert ValidForAny(rules, 50);
    FilterThree(40, 4, 50, v => !ValidForAny(rules, v));
  }

  lemma ScanTicket3(rules: seq<Rule>, your: Ticket, t: Ticket)
    requires rules == ScanRules() && t == [55, 2, 20]
    ensures ScanningErrorRate(Notes(rules, your, [t])) == 55
  {
    SingleTicketRate(rules, your, t);
    ScanInvalid(rules);
    assert ValidForAny(rules, 2);
    assert ValidForAny(rules, 20);
    FilterThree(55, 2, 20, v => !ValidForAny(rules, v));
  }

  lemma ScanTicket4(rules: seq<Rule>, your: Ticket, t: Ticket)
    requires rules == ScanRules() && t == [38, 6, 12]
    ensures ScanningErrorRate(Notes(rules, your, [t])) == 12
  {
    SingleTicketRate(rules, your, t);
    assert ValidForAny(rules, 38);
    assert ValidForAny(rules, 6);
    ScanInvalid(rules);
    FilterThree(38, 6, 12, v => !ValidForAny(rules, v));
  }

  /** The example's scanning error rate is 4 + 55 + 12 = 71. */
  lemma ScanningErrorRateExample(notes: Notes)
    requires notes == Notes(ScanRules(), [7, 1, 14], [[7, 3, 47], [40, 4, 50], [55, 2, 20], [38, 6, 12]])
    ensures ScanningErrorRate(notes) == 71
  {
    var rules, your := notes.rules, notes.yourTicket;
    var t1, t2, t3, t4 := notes.nearbyTickets[0], notes.nearbyTickets[1], notes.nearbyTickets[2], notes.nearbyTickets[3];
    ScanTicket1(rules, your, t1);
    ScanTicket2(rules, your, t2);
    ScanTicket3(rules, your, t3);
    ScanTicket4(rules, your, t4);
    ErrorRateAppend(rules, your, [t3], [t4]);
    ErrorRateAppend(rules, your, [t2], [t3] + [t4]);
    ErrorRateAppend(rules, your, [t1], [t2] + ([t3] + [t4]));
    assert notes.nearbyTickets == [t1] + ([t2] + ([t3] + [t4]));
  }

  lemma ExampleTicketsValid(rules: seq<Rule>)
    requires rules == [Rule("class", [Range(0, 2), Range(4, 6)])]
    ensures !TicketValid(rules, [3]) && TicketValid(rules, [5]) && TicketValid(rules, [2])
  {
    assert !ValidForAny(rules, [3][0]);
    assert ValidForAny(rules, [5][0]) && ValidForAny(rules, [2][0]);
  }

  /** With one rule 0-2 or 4-6, the ticket holding 3 is dropped and the
      others kept in order. */
  lemma FilterOutExample(notes: Notes)
    requires notes == Notes([Rule("class", [Range(0, 2), Range(4, 6)])], [1], [[3], [5], [2]])
    ensures FilterOutInvalidTickets(notes) == [[5], [2]]
  {
    ExampleTicketsValid(notes.rules);
    var keep := t => TicketValid(notes.rules, t);
    FilterCons([3], [[5], [2]], keep);
    FilterCons([5], [[2]], keep);
    FilterCons([2], [], keep);
    assert [[3]] + [[5], [2]] == [[3], [5], [2]];
  }

  lemma ConvertTicketExample()
    ensures ConvertToTicket("7,1,14") == [7, 1, 14]
  {
    var parts := ShowNats([7, 1, 14]);
    assert ShowNat(14) == "14" by { assert ShowNat(1) == "1"; }
    assert parts == ["7", "1", "14"];
    assert Join(parts[2..], ",") == "14";
    assert Join(parts[1..], ",") == "1,14";
    assert Join(parts, ",") == "7,1,14";
    ConvertShownTicket([7, 1, 14]);
  }

  function MatchRules(): seq<Rule>
  {
    [Rule("class", [Range(0, 1), Range(4, 19)]), Rule("row", [Range(0, 5), Range(8, 19)]),
     Rule("seat", [Range(0, 13), Range(16, 19)])]
  }

  function MatchNotes(): Notes
  {
    Notes(MatchRules(), [11, 12, 13], [[3, 9, 18], [15, 1, 5], [5, 14, 9]])
  }

  /** A rule of two ranges accepts what either contains. */
  lemma TwoRanges(rule: Rule)
    requires |rule.ranges| == 2
    ensures forall v :: Valid(rule, v) <==> Contains(rule.ranges[0], v) || Contains(rule.ranges[1], v)
  {
    forall v ensures Valid(rule, v) <==> Contains(rule.ranges[0], v) || Contains(rule.ranges[1], v) {
      ValidSpec(rule, v);
    }
  }

  lemma MatchValuesValid(rules: seq<Rule>)
    requires rules == MatchRules()
    ensures forall v: nat :: v <= 19 ==> ValidForAny(rules, v)
  {
    TwoRanges(rules[0]);
    TwoRanges(rules[1]);
    forall v: nat | v <= 19 ensures ValidForAny(rules, v) {
      ValidForAnySpec(rules, v);
      if v <= 5 { assert Valid(rules[1], v); } else { assert Valid(rules[0], v); }
    }
  }

  /** Every nearby ticket of the second example is valid. */
  lemma MatchTicketsKept(notes: Notes)
    requires notes == MatchNotes()
    ensures FilterOutInvalidTickets(notes) == notes.nearbyTickets
  {
    var rules := notes.rules;
    MatchValuesValid(rules);
    forall k | 0 <= k < |notes.nearbyTickets| ensures TicketValid(rules, notes.nearbyTickets[k]) {
      assert forall i :: 0 <= i < |notes.nearbyTickets[k]| ==> notes.nearbyTickets[k][i] <= 19;
    }
    NothingDropped(notes);
  }

  /** The column checks of the second example, one rule at a time. */
  lemma MatchColumns(rule: Rule, tickets: seq<Ticket>, ok0: bool, ok1: bool, ok2: bool)
    requires tickets == MatchNotes().nearbyTickets
    requires ok0 <==> Valid(rule, 3) && Valid(rule, 15) && Valid(rule, 5)
    requires ok1 <==> Valid(rule, 9) && Valid(rule, 1) && Valid(rule, 14)
    requires ok2 <==> Valid(rule, 18) && Valid(rule, 5) && Valid(rule, 9)
    ensures ColumnsFor(rule, tickets, 3)
      == Ok((if ok0 then {0} else {}) + (if ok1 then {1} else {}) + (if ok2 then {2} else {}))
  {
    var expected: set<nat> := (if ok0 then {0} else {}) + (if ok1 then {1} else {}) + (if ok2 then {2} else {});
    forall c: nat | c < 3 ensures ColumnValid(rule, tickets, c) == Ok(c in expected) {
      ColumnValidSpec(rule, tickets, c);
      assert forall k :: 0 <= k < |tickets| ==> c < |tickets[k]|;
      var r := ColumnValid(rule, tickets, c);
      assert r.Ok?;
      assert r.value <==> forall k :: 0 <= k < |tickets| ==> Valid(rule, tickets[k][c]);
      assert (forall k :: 0 <= k < |tickets| ==> Valid(rule, tickets[k][c]))
        <==> Valid(rule, tickets[0][c]) && Valid(rule, tickets[1][c]) && Valid(rule, tickets[2][c]);
      if c == 0 {
        assert tickets[0][c] == 3 && tickets[1][c] == 15 && tickets[2][c] == 5;
        assert c in expected <==> ok0;
      } else if c == 1 {
        assert tickets[0][c] == 9 && tickets[1][c] == 1 && tickets[2][c] == 14;
        assert c in expected <==> ok1;
      } else {
        assert tickets[0][c] == 18 && tickets[1][c] == 5 && tickets[2][c] == 9;
        assert c in expected <==> ok2;
      }
    }
    ColumnsForSpec(rule, tickets, 3);
    assert ColumnsFor(rule, tickets, 3).value == expected;
  }

  function MatchCandidates(): map<string, set<nat>>
  {
    map["class" := {1, 2}, "row" := {0, 1, 2}, "seat" := {2}]
  }

  /** In the second example class may take columns 1 and 2, row any
      column, and seat only column 2. */
  lemma MatchCandidatesExample(notes: Notes)
    requires notes == MatchNotes()
    ensures Candidates(notes.rules, FilterOutInvalidTickets(notes), |notes.yourTicket|) == Ok(MatchCandidates())
  {
    MatchTicketsKept(notes);
    var rules, tickets := notes.rules, notes.nearbyTickets;
    TwoRanges(rules[0]);
    TwoRanges(rules[1]);
    TwoRanges(rules[2]);
    MatchColumns(rules[0], tickets, false, true, true);
    MatchColumns(rules[1], tickets, true, true, true);
    MatchColumns(rules[2], tickets, false, false, true);
    var none: set<nat> := {};
    assert none + {1} + {2} == {1, 2} && none + none + {2} == {2} && none + {0} + {1} + {2} == {0, 1, 2};
    assert ColumnsFor(rules[0], tickets, 3) == Ok({1, 2});
    assert ColumnsFor(rules[1], tickets, 3) == Ok({0, 1, 2});
    assert ColumnsFor(rules[2], tickets, 3) == Ok({2});
    assert rules[0].name == "class" && rules[1].name == "row" && rules[2].name == "seat";
    assert rules[..1][..0] == [];
    assert rules[..1][0] == rules[0];
    assert rules[..2][..1] == rules[..1] && rules[..2][1] == rules[1];
    assert Candidates(rules[..1], tickets, 3) == Ok(map["class" := {1, 2}]);
    assert Candidates(rules[..2], tickets, 3) == Ok(map["class" := {1, 2}, "row" := {0, 1, 2}]);
    assert rules[..3] == rules;
  }

  lemma NotStuck(m: map<string, set<nat>>, name: string, c: nat)
    requires name in m && m[name] == {c}
    ensures !Stuck(m)
  {
    assert |m[name]| == 1;
  }

  lemma NotSingleton(s: set<nat>, a: nat, b: nat, c: nat)
    requires a in s && b in s && a != b
    ensures s != {c}
  {
  }

  lemma MatchRemaining1(initial: map<string, set<nat>>)
    requires initial == MatchCandidates()
    ensures Remaining(initial, [("seat", 2)]) == map["class" := {1}, "row" := {0, 1}]
  {
    RemainingNone(initial);
    RemainingStep(initial, [], "seat", 2);
    assert [] + [("seat", 2)] == [("seat", 2)];
    assert {1, 2} - {2} == {1} && {0, 1, 2} - {2} == {0, 1};
  }

  lemma MatchRemaining2(initial: map<string, set<nat>>)
    requires initial == MatchCandidates()
    ensures Remaining(initial, [("seat", 2), ("class", 1)]) == map["row" := {0}]
  {
    MatchRemaining1(initial);
    RemainingStep(initial, [("seat", 2)], "class", 1);
    assert [("seat", 2)] + [("class", 1)] == [("seat", 2), ("class", 1)];
    assert {0, 1} - {1} == {0};
  }

  lemma MatchRemaining3(initial: map<string, set<nat>>)
    requires initial == MatchCandidates()
    ensures Remaining(initial, [("seat", 2), ("class", 1), ("row", 0)]) == map[]
  {
    MatchRemaining2(initial);
    RemainingStep(initial, [("seat", 2), ("class", 1)], "row", 0);
    assert [("seat", 2), ("class", 1)] + [("row", 0)] == [("seat", 2), ("class", 1), ("row", 0)];
  }

  /** A stuck elimination cannot stop at a prefix that still leaves a
      rule with a single column. */
  lemma Continues(initial: map<string, set<nat>>, locked: seq<(string, nat)>, k: nat, name: string, c: nat)
    requires Stuck(Remaining(initial, locked)) && k <= |locked|
    requires name in Remaining(initial, locked[..k]) && Remaining(initial, locked[..k])[name] == {c}
    ensures k < |locked|
  {
    NotStuck(Remaining(initial, locked[..k]), name, c);
    assert locked[..k] != locked;
  }

  lemma MatchPair1(initial: map<string, set<nat>>, locked: seq<(string, nat)>)
    requires initial == MatchCandidates()
    requires Elimination(initial, locked) && |locked| >= 1
    ensures locked[..1] == [("seat", 2)]
  {
    RemainingNone(initial);
    assert locked[..0] == [];
    assert LockedAt(initial, locked[..0], locked[0]);
    NotSingleton(initial["class"], 1, 2, locked[0].1);
    NotSingleton(initial["row"], 0, 1, locked[0].1);
    assert locked[0] == ("seat", 2);
    assert locked[..1] == [locked[0]];
  }

  lemma MatchPair2(initial: map<string, set<nat>>, locked: seq<(string, nat)>)
    requires initial == MatchCandidates()
    requires Elimination(initial, locked) && |locked| >= 2 && locked[..1] == [("seat", 2)]
    ensures locked[..2] == [("seat", 2), ("class", 1)]
  {
    MatchRemaining1(initial);
    assert LockedAt(initial, locked[..1], locked[1]);
    var p := locked[1];
    NotSingleton({0, 1}, 0, 1, p.1);
    assert p == ("class", 1);
    assert locked[..2] == locked[..1] + [p];
  }

  lemma MatchPair3(initial: map<string, set<nat>>, locked: seq<(string, nat)>)
    requires initial == MatchCandidates()
    requires Elimination(initial, locked) && |locked| >= 3 && locked[..2] == [("seat", 2), ("class", 1)]
    ensures locked[..3] == [("seat", 2), ("class", 1), ("row", 0)]
  {
    MatchRemaining2(initial);
    assert LockedAt(initial, locked[..2], locked[2]);
    assert locked[2] == ("row", 0);
    assert locked[..3] == locked[..2] + [locked[2]];
  }

  /** Nothing can be locked once no rule is left. */
  lemma MatchNoMore(initial: map<string, set<nat>>, locked: seq<(string, nat)>)
    requires initial == MatchCandidates()
    requires Elimination(initial, locked) && |locked| >= 3
    requires locked[..3] == [("seat", 2), ("class", 1), ("row", 0)]
    ensures |locked| == 3
  {
    MatchRemaining3(initial);
    assert |locked| <= 3 || !LockedAt(initial, locked[..3], locked[3]);
  }

  lemma MatchLonger(initial: map<string, set<nat>>, locked: seq<(string, nat)>, k: nat)
    requires initial == MatchCandidates()
    requires Stuck(Remaining(initial, locked)) && k <= 2 && k <= |locked|
    requires locked[..k] == [("seat", 2), ("class", 1)][..k]
    ensures k < |locked|
  {
    if k == 0 {
      RemainingNone(initial);
      assert locked[..0] == [];
      Continues(initial, locked, 0, "seat", 2);
    } else if k == 1 {
      MatchRemaining1(initial);
      assert locked[..1] == [("seat", 2)];
      Continues(initial, locked, 1, "class", 1);
    } else {
      MatchRemaining2(initial);
      assert locked[..2] == [("seat", 2), ("class", 1)];
      Continues(initial, locked, 2, "row", 0);
    }
  }

  /** However the search picks among the rules, the only elimination the
      second example allows locks seat to 2, then class to 1, then row
      to 0. */
  lemma MatchEliminationExample(initial: map<string, set<nat>>, locked: seq<(string, nat)>)
    requires initial == MatchCandidates()
    requires Elimination(initial, locked) && Stuck(Remaining(initial, locked))
    ensures locked == [("seat", 2), ("class", 1), ("row", 0)]
  {
    var order := [("seat", 2), ("class", 1)];
    assert locked[..0] == order[..0];
    MatchLonger(initial, locked, 0);
    MatchPair1(initial, locked);
    assert locked[..1] == order[..1];
    MatchLonger(initial, locked, 1);
    MatchPair2(initial, locked);
    assert locked[..2] == order[..2];
    MatchLonger(initial, locked, 2);
    MatchPair3(initial, locked);
    MatchNoMore(initial, locked);
    assert locked == locked[..3];
  }

  /** The resulting mapping of the second example. */
  lemma MatchMappingExample(locked: seq<(string, nat)>)
    requires locked == [("seat", 2), ("class", 1), ("row", 0)]
    ensures PairsMap(locked) == map["row" := 0, "class" := 1, "seat" := 2]
  {
    var l1: seq<(string, nat)> := [("seat", 2)];
    var l2: seq<(string, nat)> := [("seat", 2), ("class", 1)];
    assert l1[..0] == [] && l2[..1] == l1 && locked[..2] == l2;
    assert PairsMap(l1) == map["seat" := 2];
    assert PairsMap(l2) == map["seat" := 2, "class" := 1];
  }
}
