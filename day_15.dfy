/**
 * Day 15, Rambunctious Recitation: the elves' memory game.  The starting
 * numbers are spoken first; after that each turn speaks 0 if the previous
 * number was new, and otherwise how many turns apart its last two
 * utterances were.  Turns are numbered from 1.
 */
module RambunctiousRecitation {
  import opened Text

  /** The latest turn (1-based) on which x was spoken in s. */
  function LastTurn(s: seq<nat>, x: nat): (r: Option<nat>)
    ensures r.Some? ==> 1 <= r.value <= |s|
    decreases |s|
  {
    if s == [] then None
    else if s[|s| - 1] == x then Some(|s|)
    else LastTurn(s[..|s| - 1], x)
  }

  /** LastTurn finds x exactly when it was spoken, and then its latest turn. */
  lemma {:induction false} LastTurnSpec(s: seq<nat>, x: nat)
    ensures LastTurn(s, x).None? <==> x !in s
    ensures LastTurn(s, x).Some? ==> (var t := LastTurn(s, x).value;
      1 <= t <= |s| && s[t - 1] == x && forall k :: t <= k < |s| ==> s[k] != x)
    decreases |s|
  {
    if s != [] && s[|s| - 1] != x {
      var init := s[..|s| - 1];
      LastTurnSpec(init, x);
      assert forall k :: 0 <= k < |init| ==> init[k] == s[k];
      if x in s {
        var k :| 0 <= k < |s| && s[k] == x;
        assert init[k] == x;
      }
    }
  }

  /** The number spoken after the turns in `said`: the next starting number
      while there is one, else 0 for a new number and the distance back to
      its previous utterance for a repeated one. */
  function Next(start: seq<nat>, said: seq<nat>): nat
    requires |said| >= 1
  {
    var turn := |said|;
    if turn < |start| then start[turn]
    else
      match LastTurn(said[..turn - 1], said[turn - 1])
      case Some(t) => turn - t
      case None => 0
  }

  /** The numbers spoken on turns 1 to n. */
  function Game(start: seq<nat>, n: nat): (s: seq<nat>)
    requires |start| > 0 && n >= 1
    ensures |s| == n
    decreases n
  {
    if n == 1 then [start[0]] else var p := Game(start, n - 1); p + [Next(start, p)]
  }

  /** The number spoken on turn goal; turn 1 when goal is 0, as the loop
      over 1..goal then does nothing. */
  function Spoken(start: seq<nat>, goal: nat): nat
    requires |start| > 0
  {
    var n := if goal == 0 then 1 else goal;
    Game(start, n)[n - 1]
  }

  /** The memory after the turns in s: each number to the latest turn it
      was spoken on. */
  function MemoryOf(s: seq<nat>): map<nat, nat>
    decreases |s|
  {
    if s == [] then map[] else MemoryOf(s[..|s| - 1])[s[|s| - 1] := |s|]
  }

  /** The memory holds exactly the numbers spoken, each with its latest turn. */
  lemma {:induction false} MemoryOfSpec(s: seq<nat>)
    ensures forall x :: x in MemoryOf(s) <==> x in s
    ensures forall x :: x in MemoryOf(s) ==> LastTurn(s, x) == Some(MemoryOf(s)[x])
    decreases |s|
  {
    if s != [] {
      var init := s[..|s| - 1];
      MemoryOfSpec(init);
      assert s == init + [s[|s| - 1]];
      forall x | x in MemoryOf(init) { LastTurnSpec(init, x); }
      forall x ensures x in s <==> x in init || x == s[|s| - 1] {
        if x in s {
          var k :| 0 <= k < |s| && s[k] == x;
          if k < |init| { assert init[k] == x; }
        }
      }
    }
  }

  /** Game grows by one Next per turn. */
  lemma GameStep(start: seq<nat>, n: nat)
    requires |start| > 0 && n >= 1
    ensures Game(start, n + 1) == Game(start, n) + [Next(start, Game(start, n))]
  {
  }

  /** Later games extend earlier ones. */
  lemma {:induction false} GamePrefix(start: seq<nat>, m: nat, n: nat)
    requires |start| > 0 && 1 <= m <= n
    ensures Game(start, n)[..m] == Game(start, m)
    decreases n
  {
    if m < n {
      GamePrefix(start, m, n - 1);
      assert Game(start, n)[..n - 1] == Game(start, n - 1);
      assert Game(start, n)[..m] == Game(start, n)[..n - 1][..m];
    } else {
      assert Game(start, n)[..m] == Game(start, n);
    }
  }

  /** The first turns speak the starting numbers in order. */
  lemma {:induction false} GameStart(start: seq<nat>, n: nat)
    requires 1 <= n <= |start|
    ensures Game(start, n) == start[..n]
    decreases n
  {
    if n > 1 {
      GameStart(start, n - 1);
      assert start[..n] == start[..n - 1] + [start[n - 1]];
    } else {
      assert start[..1] == [start[0]];
    }
  }

  /** For 1 <= goal <= the number of starting numbers, the number spoken
      on turn goal is the goal-th starting number. */
  lemma SpokenStart(start: seq<nat>, goal: nat)
    requires 1 <= goal <= |start|
    ensures Spoken(start, goal) == start[goal - 1]
  {
    GameStart(start, goal);
  }

  /** After the starting numbers, a number spoken for the first time is
      followed by 0, and a repeated one by the distance back to its
      previous utterance. */
  lemma SpokenAfter(start: seq<nat>, n: nat)
    requires 1 <= |start| <= n
    ensures var said := Game(start, n); var last := said[n - 1];
      (last !in said[..n - 1] ==> Spoken(start, n + 1) == 0)
      && (last in said[..n - 1] ==> exists j ::
            0 <= j < n - 1 && said[j] == last && Spoken(start, n + 1) == n - (j + 1)
            && forall k :: j < k < n - 1 ==> said[k] != last)
  {
    var said := Game(start, n);
    GameStep(start, n);
    assert Spoken(start, n + 1) == Next(start, said);
    var init := said[..n - 1];
    LastTurnSpec(init, said[n - 1]);
    assert forall k :: 0 <= k < |init| ==> init[k] == said[k];
  }

  /** play_memory_game: speaks the turns 2 to goal while remembering the
      latest turn of every number said; an empty start is an error. */
  method PlayMemoryGame(start: seq<nat>, goal: nat) returns (r: Result<nat>)
    ensures r.Err? <==> start == []
    ensures r.Err? ==> r.error == "Start sequence is empty"
    ensures r.Ok? ==> r.value == Spoken(start, goal)
  {
    if |start| == 0 {
      return Err("Start sequence is empty");
    }
    var memory: map<nat, nat> := map[];
    var number := start[0];
    ghost var said := [start[0]];
    var turn := 1;
    while turn < goal
      invariant 1 <= turn <= (if goal == 0 then 1 else goal)
      invariant said == Game(start, turn) && number == said[turn - 1]
      invariant memory == MemoryOf(said[..turn - 1])
      decreases goal - turn
    {
      MemoryOfSpec(said[..turn - 1]);
      LastTurnSpec(said[..turn - 1], number);
      var newNumber;
      if turn < |start| {
        newNumber := start[turn];
      } else if number in memory {
        newNumber := turn - memory[number];
      } else {
        newNumber := 0;
      }
      assert newNumber == Next(start, said);
      memory := memory[number := turn];
      number := newNumber;
      GameStep(start, turn);
      assert said == (said + [newNumber])[..turn];
      said := said + [newNumber];
      turn := turn + 1;
    }
    return Ok(number);
  }

  /** Starting from 0, 3, 6 the first ten turns speak 0, 3, 6, 0, 3, 3, 1,
      0, 4, 0. */
  lemma ExampleTurns(start: seq<nat>)
    requires start == [0, 3, 6]
    ensures Game(start, 10) == [0, 3, 6, 0, 3, 3, 1, 0, 4, 0]
  {
    GameStart(start, 3);
    assert start[..3] == [0, 3, 6];
    ExampleNext3(start);
    GameStep(start, 3);
    assert Game(start, 4) == [0, 3, 6, 0];
    ExampleNext4(start);
    GameStep(start, 4);
    assert Game(start, 5) == [0, 3, 6, 0, 3];
    ExampleNext5(start);
    GameStep(start, 5);
    assert Game(start, 6) == [0, 3, 6, 0, 3, 3];
    ExampleNext6(start);
    GameStep(start, 6);
    assert Game(start, 7) == [0, 3, 6, 0, 3, 3, 1];
    ExampleNext7(start);
    GameStep(start, 7);
    assert Game(start, 8) == [0, 3, 6, 0, 3, 3, 1, 0];
    ExampleNext8(start);
    GameStep(start, 8);
    assert Game(start, 9) == [0, 3, 6, 0, 3, 3, 1, 0, 4];
    ExampleNext9(start);
    GameStep(start, 9);
    assert Game(start, 10) == [0, 3, 6, 0, 3, 3, 1, 0, 4, 0];
  }

  lemma ExampleNext3(start: seq<nat>)
    requires start == [0, 3, 6]
    ensures Next(start, [0, 3, 6]) == 0
  {
    var said := [0, 3, 6];
    assert said[..2] == [0, 3];
    LastTurnSpec(said[..2], 6);
  }

  lemma ExampleNext4(start: seq<nat>)
    requires start == [0, 3, 6]
    ensures Next(start, [0, 3, 6, 0]) == 3
  {
    var said := [0, 3, 6, 0];
    assert said[..3] == [0, 3, 6];
    LastTurnSpec(said[..3], 0);
  }

  lemma ExampleNext5(start: seq<nat>)
    requires start == [0, 3, 6]
    ensures Next(start, [0, 3, 6, 0, 3]) == 3
  {
    var said := [0, 3, 6, 0, 3];
    assert said[..4] == [0, 3, 6, 0];
    LastTurnSpec(said[..4], 3);
  }

  lemma ExampleNext6(start: seq<nat>)
    requires start == [0, 3, 6]
    ensures Next(start, [0, 3, 6, 0, 3, 3]) == 1
  {
    var said := [0, 3, 6, 0, 3, 3];
    assert said[..5] == [0, 3, 6, 0, 3];
    LastTurnSpec(said[..5], 3);
  }

  lemma ExampleNext7(start: seq<nat>)
    requires start == [0, 3, 6]
    ensures Next(start, [0, 3, 6, 0, 3, 3, 1]) == 0
  {
    var said := [0, 3, 6, 0, 3, 3, 1];
    assert said[..6] == [0, 3, 6, 0, 3, 3];
    LastTurnSpec(said[..6], 1);
  }

  lemma ExampleNext8(start: seq<nat>)
    requires start == [0, 3, 6]
    ensures Next(start, [0, 3, 6, 0, 3, 3, 1, 0]) == 4
  {
    var said := [0, 3, 6, 0, 3, 3, 1, 0];
    assert said[..7] == [0, 3, 6, 0, 3, 3, 1];
    LastTurnSpec(said[..7], 0);
    assert said[..7][3] == 0;
  }

  lemma ExampleNext9(start: seq<nat>)
    requires start == [0, 3, 6]
    ensures Next(start, [0, 3, 6, 0, 3, 3, 1, 0, 4]) == 0
  {
    var said := [0, 3, 6, 0, 3, 3, 1, 0, 4];
    assert said[..8] == [0, 3, 6, 0, 3, 3, 1, 0];
    LastTurnSpec(said[..8], 4);
  }
}
