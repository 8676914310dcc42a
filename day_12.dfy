/**
 * Day 12, Rain Risk: a ship follows navigation instructions.  N, S, E and W
 * move it in a compass direction, L and R turn it by multiples of 90
 * degrees, and F moves it in the direction it faces.  The first coordinate
 * grows to the South and the second to the East.
 */
module RainRisk {
  import opened Text

  /** The compass directions, numbered 0 to 3 clockwise from North. */
  datatype Direction = North | East | South | West

  function Index(d: Direction): (i: nat)
    ensures i < 4
  {
    match d
    case North => 0
    case East => 1
    case South => 2
    case West => 3
  }

  function FromIndex(i: nat): (d: Direction)
    requires i < 4
    ensures Index(d) == i
  {
    if i == 0 then North else if i == 1 then East else if i == 2 then South else West
  }

  lemma FromIndexOfIndex(d: Direction)
    ensures FromIndex(Index(d)) == d
  {
  }

  datatype Action = ActNorth | ActSouth | ActEast | ActWest | ActLeft | ActRight | ActForward

  datatype Instruction = Instruction(action: Action, value: int)

  type Location = (int, int)

  /** The position and heading of the ship, as plain values. */
  datatype ShipState = ShipState(facing: Direction, location: Location)

  const Start: ShipState := ShipState(East, (0, 0))

  /** to_direction: the compass direction an N/S/E/W action names; the other
      actions name none, and the source panics on them. */
  function ToDirection(action: Action): (r: Option<Direction>)
    ensures r.None? <==> action in {ActLeft, ActRight, ActForward}
  {
    match action
    case ActNorth => Some(North)
    case ActSouth => Some(South)
    case ActEast => Some(East)
    case ActWest => Some(West)
    case _ => None
  }

  /** move_location: value steps in the direction. */
  function MoveLocation(location: Location, direction: Direction, value: int): (r: Location)
  {
    var (x, y) := location;
    match direction
    case North => (x - value, y)
    case South => (x + value, y)
    case East => (x, y + value)
    case West => (x, y - value)
  }

  /** The facing after a turn: value / 90 (truncated) quarter turns,
      counter-clockwise for L and clockwise for R, modulo 4; the source
      panics on any other action. */
  function TurnFacing(facing: Direction, action: Action, value: int): (r: Option<Direction>)
    ensures r.Some? <==> action in {ActLeft, ActRight}
  {
    var turns := TruncDiv(value, 90);
    match action
    case ActLeft => Some(FromIndex((Index(facing) - turns) % 4))
    case ActRight => Some(FromIndex((Index(facing) + turns) % 4))
    case _ => None
  }

  /** The ship after one instruction (execute). */
  function Step(s: ShipState, instruction: Instruction): ShipState
  {
    match instruction.action
    case ActLeft => ShipState(TurnFacing(s.facing, ActLeft, instruction.value).value, s.location)
    case ActRight => ShipState(TurnFacing(s.facing, ActRight, instruction.value).value, s.location)
    case ActForward => ShipState(s.facing, MoveLocation(s.location, s.facing, instruction.value))
    case _ => ShipState(s.facing, MoveLocation(s.location, ToDirection(instruction.action).value, instruction.value))
  }

  /** The ship after the instructions, applied in order. */
  function Run(s: ShipState, instructions: seq<Instruction>): ShipState
    decreases |instructions|
  {
    if instructions == [] then s
    else Step(Run(s, instructions[..|instructions| - 1]), instructions[|instructions| - 1])
  }

  /** Each move goes value steps along one axis. */
  lemma MoveLocationAxis(location: Location, direction: Direction, value: int)
    ensures var r := MoveLocation(location, direction, value);
      (direction in {North, South} ==> r.1 == location.1 && r.0 == location.0 + (if direction == South then value else -value))
      && (direction in {East, West} ==> r.0 == location.0 && r.1 == location.1 + (if direction == East then value else -value))
  {
  }

  /** Moving by v and then by -v in the same direction returns to the start. */
  lemma MoveLocationBack(location: Location, direction: Direction, value: int)
    ensures MoveLocation(MoveLocation(location, direction, value), direction, -value) == location
  {
  }

  /** N, S, E, W and F keep the facing and move the ship value steps in the
      named direction or, for F, in the direction it faces. */
  lemma MoveKeepsFacing(s: ShipState, instruction: Instruction)
    requires instruction.action !in {ActLeft, ActRight}
    ensures Step(s, instruction).facing == s.facing
    ensures Step(s, instruction).location == MoveLocation(s.location,
      if instruction.action == ActForward then s.facing else ToDirection(instruction.action).value, instruction.value)
  {
  }

  /** L and R keep the location and only turn the ship. */
  lemma TurnKeepsLocation(s: ShipState, instruction: Instruction)
    requires instruction.action in {ActLeft, ActRight}
    ensures Step(s, instruction).location == s.location
    ensures Step(s, instruction).facing == TurnFacing(s.facing, instruction.action, instruction.value).value
  {
  }

  lemma ModSubMod(a: int, t: int)
    ensures ((a % 4) - t) % 4 == (a - t) % 4
    ensures ((a % 4) + t) % 4 == (a + t) % 4
  {
    var q, r := a / 4, a % 4;
    var q1, s1 := (r - t) / 4, (r - t) % 4;
    ModUnique(a - t, 4, q + q1, s1);
    var q2, s2 := (r + t) / 4, (r + t) % 4;
    ModUnique(a + t, 4, q + q2, s2);
  }

  /** Turning right by v and then left by v restores the facing. */
  lemma TurnRightLeft(facing: Direction, value: int)
    ensures TurnFacing(TurnFacing(facing, ActRight, value).value, ActLeft, value) == Some(facing)
  {
    var i, t := Index(facing), TruncDiv(value, 90);
    TurnIndexBack(i, t);
    var right := (i + t) % 4;
    assert TurnFacing(facing, ActRight, value) == Some(FromIndex(right));
    assert Index(FromIndex(right)) == right;
  }

  /** Turning left by v and then right by v restores the facing. */
  lemma TurnLeftRight(facing: Direction, value: int)
    ensures TurnFacing(TurnFacing(facing, ActLeft, value).value, ActRight, value) == Some(facing)
  {
    var i, t := Index(facing), TruncDiv(value, 90);
    TurnIndexBack(i, t);
    var left := (i - t) % 4;
    assert TurnFacing(facing, ActLeft, value) == Some(FromIndex(left));
    assert Index(FromIndex(left)) == left;
  }

  lemma TurnIndexBack(i: int, t: int)
    requires 0 <= i < 4
    ensures ((i + t) % 4 - t) % 4 == i && ((i - t) % 4 + t) % 4 == i
  {
    ModSubMod(i + t, t);
    ModSubMod(i - t, -t);
    ModUnique(i, 4, 0, i);
  }

  /** Four right turns of 90 face the ship the way it started. */
  lemma FullCircle(facing: Direction)
    ensures TurnFacing(facing, ActRight, 360) == Some(facing)
  {
    assert TruncDiv(360, 90) == 4;
    var i := Index(facing);
    ModUnique(i + 4, 4, 1, i);
  }

  /** Ship: the state the instructions update in place. */
  class Ship {
    var facing: Direction
    var location: Location

    function State(): ShipState
      reads this
    {
      ShipState(facing, location)
    }

    /** new: facing East at the origin. */
    constructor ()
      ensures State() == Start
    {
      facing := East;
      location := (0, 0);
    }

    /** move_in_direction: moves without turning. */
    method MoveInDirection(direction: Direction, value: int)
      modifies this
      ensures facing == old(facing)
      ensures location == MoveLocation(old(location), direction, value)
    {
      location := MoveLocation(location, direction, value);
    }

    /** turn: turns without moving; only L and R are turns. */
    method Turn(action: Action, value: int)
      requires action in {ActLeft, ActRight}
      modifies this
      ensures location == old(location)
      ensures Some(facing) == TurnFacing(old(facing), action, value)
    {
      var oldFacing: int := Index(facing);
      var turns := TruncDiv(value, 90);
      var turned := if action == ActLeft then oldFacing - turns else oldFacing + turns;
      facing := FromIndex(turned % 4);
    }

    /** execute: one instruction. */
    method Execute(instruction: Instruction)
      modifies this
      ensures State() == Step(old(State()), instruction)
    {
      match instruction.action {
        case ActLeft => Turn(instruction.action, instruction.value);
        case ActRight => Turn(instruction.action, instruction.value);
        case ActForward => MoveInDirection(facing, instruction.value);
        case _ => MoveInDirection(ToDirection(instruction.action).value, instruction.value);
      }
    }

    /** execute_multiple: the instructions in order. */
    method ExecuteMultiple(instructions: seq<Instruction>)
      modifies this
      ensures State() == Run(old(State()), instructions)
    {
      var i := 0;
      while i < |instructions|
        invariant 0 <= i <= |instructions|
        invariant State() == Run(old(State()), instructions[..i])
      {
        Execute(instructions[i]);
        assert instructions[..i + 1][..i] == instructions[..i];
        i := i + 1;
      }
      assert instructions[..i] == instructions;
    }
  }

  // Reading the instructions

  function ActionLetter(a: Action): char
  {
    match a
    case ActNorth => 'N'
    case ActSouth => 'S'
    case ActEast => 'E'
    case ActWest => 'W'
    case ActLeft => 'L'
    case ActRight => 'R'
    case ActForward => 'F'
  }

  function LetterAction(c: char): (r: Option<Action>)
    ensures r.Some? <==> c in "NSEWLRF"
    ensures r.Some? ==> ActionLetter(r.value) == c
  {
    if c == 'N' then Some(ActNorth) else if c == 'S' then Some(ActSouth)
    else if c == 'E' then Some(ActEast) else if c == 'W' then Some(ActWest)
    else if c == 'L' then Some(ActLeft) else if c == 'R' then Some(ActRight)
    else if c == 'F' then Some(ActForward) else None
  }

  /** The regex ([NSEWLRF])([0-9]+) can start at k: an action letter
      followed by a digit. */
  predicate MatchesAt(line: string, k: nat)
  {
    k + 1 < |line| && line[k] in "NSEWLRF" && IsDigit(line[k + 1])
  }

  /** The leftmost match start from position i on. */
  function FirstMatch(line: string, i: nat): (r: Option<nat>)
    ensures r.None? <==> forall k :: i <= k < |line| ==> !MatchesAt(line, k)
    ensures r.Some? ==> (i <= r.value && MatchesAt(line, r.value)
      && forall k :: i <= k < r.value ==> !MatchesAt(line, k))
    decreases |line| - i
  {
    if i >= |line| then None
    else if MatchesAt(line, i) then Some(i)
    else FirstMatch(line, i + 1)
  }

  /** The greedy run of digits at position i. */
  function DigitRun(line: string, i: nat): (r: string)
    requires i <= |line|
    ensures AllDigits(r) && i + |r| <= |line|
    ensures forall j :: 0 <= j < |r| ==> r[j] == line[i + j]
    ensures i + |r| < |line| ==> !IsDigit(line[i + |r|])
    decreases |line| - i
  {
    if i < |line| && IsDigit(line[i]) then [line[i]] + DigitRun(line, i + 1) else []
  }

  /** convert_to_instruction: the first match of the regex gives the action
      and the digits; a line without a match is an error, digits too large
      for an i32 drop the line. */
  function ConvertToInstruction(line: string): (r: Result<Option<Instruction>>)
    ensures r.Err? <==> forall k :: 0 <= k < |line| ==> !MatchesAt(line, k)
    ensures r.Err? ==> r.error == "No match found on line"
  {
    match FirstMatch(line, 0)
    case None => Err("No match found on line")
    case Some(k) =>
      var digits := DigitRun(line, k + 1);
      match ParseNat(digits, I32_MAX)
      case None => Ok(None)
      case Some(v) => Ok(Some(Instruction(LetterAction(line[k]).value, v)))
  }

  /** parse_instructions: every line converted, the dropped ones left out;
      the first line without a match makes it an error. */
  function ParseLines(lines: seq<string>): (r: Result<seq<Instruction>>)
    ensures r.Err? <==> exists i :: 0 <= i < |lines| && ConvertToInstruction(lines[i]).Err?
  {
    if lines == [] then Ok([])
    else
      match ConvertToInstruction(lines[0])
      case Err(e) => Err(e)
      case Ok(first) =>
        assert forall i :: 0 < i < |lines| ==> lines[1..][i - 1] == lines[i];
        match ParseLines(lines[1..])
        case Err(e) => Err(e)
        case Ok(rest) => Ok((if first.Some? then [first.value] else []) + rest)
  }

  function ParseInstructions(input: string): Result<seq<Instruction>>
  {
    ParseLines(Lines(input))
  }

  /** An instruction written as its letter and its value. */
  function ShowInstruction(instruction: Instruction): string
    requires instruction.value >= 0
  {
    [ActionLetter(instruction.action)] + ShowNat(instruction.value)
  }

  /** A letter followed by digits reads back as that action and value. */
  lemma ConvertShown(instruction: Instruction)
    requires 0 <= instruction.value <= I32_MAX
    ensures ConvertToInstruction(ShowInstruction(instruction)) == Ok(Some(instruction))
  {
    var line := ShowInstruction(instruction);
    ShownMatch(instruction);
    ParseShowNat(instruction.value, I32_MAX);
    ConvertMatched(line, instruction.action, instruction.value);
  }

  lemma ConvertMatched(line: string, a: Action, v: nat)
    requires FirstMatch(line, 0) == Some(0) && line[0] == ActionLetter(a)
    requires ParseNat(DigitRun(line, 1), I32_MAX) == Some(v)
    ensures ConvertToInstruction(line) == Ok(Some(Instruction(a, v)))
  {
    LetterOfAction(a);
  }

  /** The shown instruction matches at its first letter, and the digit run
      is the whole rendering of the value. */
  lemma ShownMatch(instruction: Instruction)
    requires instruction.value >= 0
    ensures FirstMatch(ShowInstruction(instruction), 0) == Some(0)
    ensures DigitRun(ShowInstruction(instruction), 1) == ShowNat(instruction.value)
  {
    var line := ShowInstruction(instruction);
    var digits := ShowNat(instruction.value);
    assert line[1..] == digits;
    assert MatchesAt(line, 0);
    DigitRunAll(line, 1);
  }

  lemma LetterOfAction(a: Action)
    ensures LetterAction(ActionLetter(a)) == Some(a)
  {
  }

  lemma {:induction false} DigitRunAll(line: string, i: nat)
    requires i <= |line| && AllDigits(line[i..])
    ensures DigitRun(line, i) == line[i..]
    decreases |line| - i
  {
    if i < |line| {
      assert line[i..][0] == line[i];
      assert line[i + 1..] == line[i..][1..];
      DigitRunAll(line, i + 1);
    }
  }

  function ShowInstructions(instructions: seq<Instruction>): (r: seq<string>)
    requires forall i :: 0 <= i < |instructions| ==> instructions[i].value >= 0
    ensures |r| == |instructions|
  {
    seq(|instructions|, i requires 0 <= i < |instructions| => ShowInstruction(instructions[i]))
  }

  lemma {:induction false} ParseShownLines(instructions: seq<Instruction>)
    requires forall i :: 0 <= i < |instructions| ==> 0 <= instructions[i].value <= I32_MAX
    ensures ParseLines(ShowInstructions(instructions)) == Ok(instructions)
    decreases |instructions|
  {
    if instructions != [] {
      var ls := ShowInstructions(instructions);
      ConvertShown(instructions[0]);
      assert ConvertToInstruction(ls[0]) == Ok(Some(instructions[0]));
      assert ls[1..] == ShowInstructions(instructions[1..]);
      ParseShownLines(instructions[1..]);
      assert ParseLines(ls) == Ok([instructions[0]] + instructions[1..]);
      assert [instructions[0]] + instructions[1..] == instructions;
    }
  }

  /** Instructions written one per line parse back unchanged. */
  lemma ParseShownInstructions(instructions: seq<Instruction>)
    requires forall i :: 0 <= i < |instructions| ==> 0 <= instructions[i].value <= I32_MAX
    ensures ParseInstructions(Join(ShowInstructions(instructions), "\n")) == Ok(instructions)
  {
    var ls := ShowInstructions(instructions);
    forall i | 0 <= i < |ls| ensures |ls[i]| > 0 && '\n' !in ls[i] {
      DigitsAvoid(ShowNat(instructions[i].value), {'\n'});
    }
    LinesJoin(ls);
    ParseShownLines(instructions);
  }

  // The puzzle's example

  function ExampleInstructions(): seq<Instruction>
  {
    [Instruction(ActForward, 10), Instruction(ActNorth, 3), Instruction(ActForward, 7),
     Instruction(ActRight, 90), Instruction(ActForward, 11)]
  }

  /** F10 N3 F7 R90 F11 leaves the ship facing South at (8, 17). */
  lemma RunExample(instructions: seq<Instruction>)
    requires instructions == ExampleInstructions()
    ensures Run(Start, instructions) == ShipState(South, (8, 17))
  {
    assert TruncDiv(90, 90) == 1;
    assert instructions[..1] == [Instruction(ActForward, 10)];
    assert Run(Start, instructions[..1]) == ShipState(East, (0, 10));
    assert instructions[..2][..1] == instructions[..1];
    assert Run(Start, instructions[..2]) == ShipState(East, (-3, 10));
    assert instructions[..3][..2] == instructions[..2];
    assert Run(Start, instructions[..3]) == ShipState(East, (-3, 17));
    assert instructions[..4][..3] == instructions[..3];
    assert Run(Start, instructions[..4]) == ShipState(South, (-3, 17));
    assert instructions[..5][..4] == instructions[..4];
    assert instructions[..5] == instructions;
  }

  lemma JoinExample()
    ensures Join(["F10", "N3", "F7", "R90", "F11"], "\n") == "F10\nN3\nF7\nR90\nF11"
  {
    JoinCons("R90", ["F11"], "\n");
    JoinCons("F7", ["R90", "F11"], "\n");
    JoinCons("N3", ["F7", "R90", "F11"], "\n");
    JoinCons("F10", ["N3", "F7", "R90", "F11"], "\n");
    assert "F10\nN3\nF7\nR90\nF11" == "F10" + "\n" + ("N3" + "\n" + ("F7" + "\n" + ("R90" + "\n" + "F11")));
  }

  /** The example instructions are read from F10, N3, F7, R90 and F11 on
      five lines. */
  lemma ParseExample(instructions: seq<Instruction>)
    requires instructions == ExampleInstructions()
    ensures ParseInstructions("F10\nN3\nF7\nR90\nF11") == Ok(instructions)
  {
    assert ShowNat(10) == "10" && ShowNat(3) == "3" && ShowNat(7) == "7" && ShowNat(90) == "90" && ShowNat(11) == "11";
    var ls := ShowInstructions(instructions);
    assert ls[0] == "F10" && ls[1] == "N3" && ls[2] == "F7" && ls[3] == "R90" && ls[4] == "F11";
    assert ls == ["F10", "N3", "F7", "R90", "F11"];
    JoinExample();
    ParseShownInstructions(instructions);
  }
}
