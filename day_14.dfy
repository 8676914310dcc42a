/**
 * Day 14, Docking Data: an initialization program of mask and memory
 * writes over 36-bit values.  Version 1 of the decoder overwrites the
 * value's bits where the mask is 0 or 1; version 2 overwrites the
 * address's bits where the mask is 1 and lets them float where it is X,
 * writing the value to every address the floating bits can reach.
 * Bit vectors are written most significant bit first, like the mask.
 */
module DockingData {
  import opened Text

  /** Bits, most significant first. */
  type Bits = seq<bool>

  /** A mask bit is Some(b) where it forces bit b and None where it is X. */
  type Mask = seq<Option<bool>>

  datatype ProgramStep = SetMask(mask: Mask) | SetMemory(address: nat, value: nat)

  type Memory = map<nat, nat>

  /** The width of values, addresses and masks. */
  const Width: nat := 36

  function Pow2(k: nat): (r: nat)
    ensures r >= 1
  {
    if k == 0 then 1 else 2 * Pow2(k - 1)
  }

  function BitValue(b: bool): nat { if b then 1 else 0 }

  // to_bit_vec and to_u64.

  /** The k low bits of n, most significant first. */
  function BitsOf(n: nat, k: nat): (r: Bits)
    ensures |r| == k
  {
    if k == 0 then [] else BitsOf(n / 2, k - 1) + [n % 2 == 1]
  }

  /** The k low bits of n in the order to_bit_vec pushes them, least
      significant first. */
  function LowFirst(n: nat, k: nat): (r: Bits)
    ensures |r| == k
  {
    if k == 0 then [] else [n % 2 == 1] + LowFirst(n / 2, k - 1)
  }

  function Reversed<T>(s: seq<T>): (r: seq<T>)
    ensures |r| == |s|
  {
    if s == [] then [] else Reversed(s[1..]) + [s[0]]
  }

  lemma {:induction false} ReversedLowFirst(n: nat, k: nat)
    ensures Reversed(LowFirst(n, k)) == BitsOf(n, k)
  {
    if k > 0 {
      var l := LowFirst(n, k);
      assert l[1..] == LowFirst(n / 2, k - 1);
      ReversedLowFirst(n / 2, k - 1);
    }
  }

  /** to_bit_vec: 36 pushes of the low bit while halving n, then a
      reversal, giving the 36 low bits of n most significant first. */
  method ToBitVec(n: nat) returns (bitVec: Bits)
    ensures bitVec == BitsOf(n, Width)
  {
    bitVec := [];
    var m := n;
    for i := 0 to Width
      invariant bitVec + LowFirst(m, Width - i) == LowFirst(n, Width)
    {
      var rest := LowFirst(m, Width - i);
      assert rest == [m % 2 == 1] + LowFirst(m / 2, Width - i - 1);
      assert bitVec + rest == (bitVec + [m % 2 == 1]) + LowFirst(m / 2, Width - i - 1);
      bitVec := bitVec + [m % 2 == 1];
      m := m / 2;
    }
    assert bitVec + LowFirst(m, 0) == bitVec;
    bitVec := Reversed(bitVec);
    ReversedLowFirst(n, Width);
  }

  /** The fold of to_u64: shift the accumulator left and add each bit. */
  function FoldBits(acc: nat, bits: Bits): nat
    decreases |bits|
  {
    if bits == [] then acc else FoldBits(2 * acc + BitValue(bits[0]), bits[1..])
  }

  function ToU64(bits: Bits): nat
  {
    FoldBits(0, bits)
  }

  lemma {:induction false} FoldSnoc(acc: nat, bits: Bits, b: bool)
    ensures FoldBits(acc, bits + [b]) == 2 * FoldBits(acc, bits) + BitValue(b)
    decreases |bits|
  {
    if bits == [] {
      assert [b][1..] == [];
    } else {
      assert (bits + [b])[1..] == bits[1..] + [b];
      FoldSnoc(2 * acc + BitValue(bits[0]), bits[1..], b);
    }
  }

  /** Reading a bit vector back after one more low bit. */
  lemma ToU64Snoc(bits: Bits, b: bool)
    ensures ToU64(bits + [b]) == 2 * ToU64(bits) + BitValue(b)
  {
    FoldSnoc(0, bits, b);
  }

  /** A vector of k bits reads as a number below 2^k. */
  lemma {:induction false} ToU64Bound(bits: Bits)
    ensures ToU64(bits) < Pow2(|bits|)
    decreases |bits|
  {
    if bits != [] {
      var init := bits[..|bits| - 1];
      assert init + [bits[|bits| - 1]] == bits;
      ToU64Snoc(init, bits[|bits| - 1]);
      ToU64Bound(init);
    }
  }

  /** Halving and taking the low bit rebuilds n modulo 2^(k+1). */
  lemma HalfMod(n: nat, k: nat)
    ensures n % Pow2(k + 1) == 2 * ((n / 2) % Pow2(k)) + n % 2
  {
    var p := Pow2(k);
    var q, r := (n / 2) / p, (n / 2) % p;
    assert n / 2 == p * q + r;
    assert n == 2 * (n / 2) + n % 2;
    assert n == (2 * p) * q + (2 * r + n % 2);
    ModUnique(n, 2 * p, q, 2 * r + n % 2);
  }

  /** to_u64 after to_bit_vec: the k low bits of n read back as n modulo
      2^k. */
  lemma {:induction false} ToU64BitsOf(n: nat, k: nat)
    ensures ToU64(BitsOf(n, k)) == n % Pow2(k)
    decreases k
  {
    if k > 0 {
      ToU64Snoc(BitsOf(n / 2, k - 1), n % 2 == 1);
      ToU64BitsOf(n / 2, k - 1);
      HalfMod(n, k - 1);
    }
  }

  /** to_bit_vec after to_u64: a vector of k bits comes back unchanged. */
  lemma {:induction false} BitsOfToU64(bits: Bits)
    ensures BitsOf(ToU64(bits), |bits|) == bits
    decreases |bits|
  {
    if bits != [] {
      var init, b := bits[..|bits| - 1], bits[|bits| - 1];
      assert init + [b] == bits;
      ToU64Snoc(init, b);
      var v := ToU64(bits);
      assert v / 2 == ToU64(init) && v % 2 == BitValue(b);
      BitsOfToU64(init);
    }
  }

  /** A value below 2^36 survives to_bit_vec and to_u64. */
  lemma BitVecRoundTrip(n: nat)
    requires n < Pow2(Width)
    ensures ToU64(BitsOf(n, Width)) == n
  {
    ToU64BitsOf(n, Width);
    SmallMod(n, Pow2(Width));
  }

  lemma SmallMod(n: nat, p: nat)
    requires n < p
    ensures n % p == n
  {
  }

  // apply_mask.

  /** The zip of apply_mask: the mask bit where it is 0 or 1, the value
      bit where it is X; the shorter of the two decides the length. */
  function Overlay(mask: Mask, bits: Bits): (r: Bits)
    ensures |r| == if |mask| <= |bits| then |mask| else |bits|
  {
    seq(if |mask| <= |bits| then |mask| else |bits|,
        i requires 0 <= i < |mask| && 0 <= i < |bits| =>
          match mask[i] case None => bits[i] case Some(b) => b)
  }

  function ApplyMask(value: nat, mask: Mask): nat
  {
    ToU64(Overlay(mask, BitsOf(value, Width)))
  }

  /** The mask run_program starts with: 36 X bits. */
  function AllFloating(): (r: Mask)
    ensures |r| == Width
  {
    seq(Width, i => None)
  }

  /** Each bit of the result is the mask bit where the mask is 0 or 1
      and the value bit where it is X, and nothing above bit 35 is set. */
  lemma ApplyMaskBits(value: nat, mask: Mask)
    requires |mask| == Width
    ensures ApplyMask(value, mask) < Pow2(Width)
    ensures forall i :: 0 <= i < Width ==>
      BitsOf(ApplyMask(value, mask), Width)[i]
        == match mask[i] case None => BitsOf(value, Width)[i] case Some(b) => b
  {
    var bits := Overlay(mask, BitsOf(value, Width));
    ToU64Bound(bits);
    BitsOfToU64(bits);
  }

  /** The all-X mask keeps the 36 low bits of a value, so values below
      2^36 pass unchanged. */
  lemma AllFloatingKeeps(value: nat)
    ensures ApplyMask(value, AllFloating()) == value % Pow2(Width)
  {
    assert Overlay(AllFloating(), BitsOf(value, Width)) == BitsOf(value, Width);
    ToU64BitsOf(value, Width);
  }

  /** Masking twice with the same mask changes nothing more. */
  lemma ApplyMaskIdempotent(value: nat, mask: Mask)
    requires |mask| == Width
    ensures ApplyMask(ApplyMask(value, mask), mask) == ApplyMask(value, mask)
  {
    var once := ApplyMask(value, mask);
    var bits := Overlay(mask, BitsOf(value, Width));
    BitsOfToU64(bits);
    assert BitsOf(once, Width) == bits;
    assert Overlay(mask, bits) == bits;
  }
  // decode_address and expand_masked_address.

  /** The values a pattern bit lets through: both where it floats, the
      given bit otherwise. */
  function Choices(bit: Option<bool>): (r: set<nat>)
  {
    match bit case None => {0, 1} case Some(b) => {BitValue(b)}
  }

  /** One step of the fold of expand_masked_address: every address so far
      shifted left, with each value the next pattern bit allows added. */
  function Shift(addresses: set<nat>, bit: Option<bool>): set<nat>
  {
    set a, c | a in addresses && c in Choices(bit) :: 2 * a + c
  }

  function ExpandFrom(addresses: set<nat>, pattern: Mask): set<nat>
    decreases |pattern|
  {
    if pattern == [] then addresses else ExpandFrom(Shift(addresses, pattern[0]), pattern[1..])
  }

  /** expand_masked_address: the fold over the pattern from {0}. */
  function Expand(pattern: Mask): set<nat>
  {
    ExpandFrom({0}, pattern)
  }

  /** The decode_address zip: X floats, 1 forces a one, 0 keeps the
      address bit. */
  function AddressPattern(mask: Mask, bits: Bits): (r: Mask)
    ensures |r| == if |mask| <= |bits| then |mask| else |bits|
  {
    seq(if |mask| <= |bits| then |mask| else |bits|,
        i requires 0 <= i < |mask| && 0 <= i < |bits| =>
          match mask[i] case None => None case Some(true) => Some(true) case Some(false) => Some(bits[i]))
  }

  function DecodeAddress(address: nat, mask: Mask): set<nat>
  {
    Expand(AddressPattern(mask, BitsOf(address, Width)))
  }

  /** bits agrees with every fixed bit of the pattern. */
  predicate Fits(bits: Bits, pattern: Mask)
  {
    |bits| == |pattern| && forall i :: 0 <= i < |bits| ==> (pattern[i].Some? ==> bits[i] == pattern[i].value)
  }

  /** The number of floating bits. */
  function FloatingCount(pattern: Mask): nat
  {
    if pattern == [] then 0
    else FloatingCount(pattern[..|pattern| - 1]) + (if pattern[|pattern| - 1].None? then 1 else 0)
  }

  lemma ShiftMembers(addresses: set<nat>, bit: Option<bool>, y: nat)
    ensures y in Shift(addresses, bit) <==> y / 2 in addresses && y % 2 in Choices(bit)
  {
    if y / 2 in addresses && y % 2 in Choices(bit) {
      assert y == 2 * (y / 2) + y % 2;
    }
  }

  lemma {:induction false} ExpandFromSnoc(addresses: set<nat>, pattern: Mask, bit: Option<bool>)
    ensures ExpandFrom(addresses, pattern + [bit]) == Shift(ExpandFrom(addresses, pattern), bit)
    decreases |pattern|
  {
    if pattern == [] {
      assert [bit][1..] == [];
    } else {
      assert (pattern + [bit])[1..] == pattern[1..] + [bit];
      ExpandFromSnoc(Shift(addresses, pattern[0]), pattern[1..], bit);
    }
  }

  lemma FitsSnoc(bits: Bits, b: bool, pattern: Mask, bit: Option<bool>)
    requires |bits| == |pattern|
    ensures Fits(bits + [b], pattern + [bit]) <==> Fits(bits, pattern) && (bit.Some? ==> b == bit.value)
  {
    if Fits(bits + [b], pattern + [bit]) {
      forall i | 0 <= i < |bits| ensures pattern[i].Some? ==> bits[i] == pattern[i].value {
        assert (bits + [b])[i] == bits[i] && (pattern + [bit])[i] == pattern[i];
      }
      assert (bits + [b])[|bits|] == b;
    }
  }

  /** The addresses a pattern expands to are exactly the numbers below
      2^|pattern| whose bits agree with every fixed bit of the pattern. */
  lemma {:induction false} ExpandMembers(pattern: Mask, y: nat)
    ensures y in Expand(pattern) <==> y < Pow2(|pattern|) && Fits(BitsOf(y, |pattern|), pattern)
    decreases |pattern|
  {
    if pattern != [] {
      var k := |pattern| - 1;
      var init, bit := pattern[..k], pattern[k];
      assert init + [bit] == pattern;
      ExpandFromSnoc({0}, init, bit);
      ShiftMembers(Expand(init), bit, y);
      ExpandMembers(init, y / 2);
      FitsSnoc(BitsOf(y / 2, k), y % 2 == 1, init, bit);
    }
  }

  function Image(addresses: set<nat>, c: nat): set<nat>
  {
    set a | a in addresses :: 2 * a + c
  }

  lemma {:induction false} ImageCard(addresses: set<nat>, c: nat)
    ensures |Image(addresses, c)| == |addresses|
    decreases |addresses|
  {
    if addresses != {} {
      var a :| a in addresses;
      var rest := addresses - {a};
      ImageCard(rest, c);
      assert Image(addresses, c) == Image(rest, c) + {2 * a + c} by {
        forall y | y in Image(addresses, c) ensures y in Image(rest, c) + {2 * a + c} {
          var b :| b in addresses && y == 2 * b + c;
          if b != a { assert b in rest; }
        }
      }
    }
  }

  /** A floating bit doubles the addresses; a fixed bit keeps their
      number. */
  lemma ShiftCard(addresses: set<nat>, bit: Option<bool>)
    ensures |Shift(addresses, bit)| == |addresses| * |Choices(bit)|
  {
    match bit
    case None => ShiftFloatingCard(addresses);
    case Some(b) => ShiftFixedCard(addresses, b);
  }

  lemma ShiftFloatingCard(addresses: set<nat>)
    ensures |Shift(addresses, None)| == 2 * |addresses|
  {
    ShiftFloatingSplit(addresses);
    ImageCard(addresses, 0);
    ImageCard(addresses, 1);
    ImagesDisjoint(addresses);
  }

  lemma ShiftFloatingSplit(addresses: set<nat>)
    ensures Shift(addresses, None) == Image(addresses, 0) + Image(addresses, 1)
  {
    forall y | y in Shift(addresses, None) ensures y in Image(addresses, 0) + Image(addresses, 1) {
      ShiftMembers(addresses, None, y);
      assert y == 2 * (y / 2) + y % 2;
    }
    forall y | y in Image(addresses, 0) + Image(addresses, 1) ensures y in Shift(addresses, None) {
      ShiftMembers(addresses, None, y);
    }
  }

  lemma ImagesDisjoint(addresses: set<nat>)
    ensures Image(addresses, 0) !! Image(addresses, 1)
  {
    forall y | y in Image(addresses, 0) ensures y !in Image(addresses, 1) {
      assert y % 2 == 0;
    }
  }

  lemma ShiftFixedCard(addresses: set<nat>, b: bool)
    ensures |Shift(addresses, Some(b))| == |addresses|
  {
    assert Shift(addresses, Some(b)) == Image(addresses, BitValue(b)) by {
      forall y | y in Shift(addresses, Some(b)) ensures y in Image(addresses, BitValue(b)) {
        ShiftMembers(addresses, Some(b), y);
        assert y == 2 * (y / 2) + y % 2;
      }
      forall y | y in Image(addresses, BitValue(b)) ensures y in Shift(addresses, Some(b)) {
        ShiftMembers(addresses, Some(b), y);
      }
    }
    ImageCard(addresses, BitValue(b));
  }

  /** k floating bits give exactly 2^k addresses. */
  lemma {:induction false} ExpandCount(pattern: Mask)
    ensures |Expand(pattern)| == Pow2(FloatingCount(pattern))
    decreases |pattern|
  {
    if pattern != [] {
      var k := |pattern| - 1;
      var init, bit := pattern[..k], pattern[k];
      assert init + [bit] == pattern;
      ExpandFromSnoc({0}, init, bit);
      ShiftCard(Expand(init), bit);
      ExpandCount(init);
    }
  }
  /** How decode_address treats one address bit under one mask bit. */
  predicate DecodedBit(maskBit: Option<bool>, addressBit: bool, bit: bool)
  {
    match maskBit
    case None => true
    case Some(true) => bit
    case Some(false) => bit == addressBit
  }

  /** decode_address reaches exactly the 36-bit addresses that have a one
      where the mask has 1, the address's own bit where it has 0, and
      anything where it has X. */
  lemma DecodeMembers(address: nat, mask: Mask, y: nat)
    requires |mask| == Width
    ensures y in DecodeAddress(address, mask) <==>
      y < Pow2(Width) && forall i :: 0 <= i < Width ==>
        DecodedBit(mask[i], BitsOf(address, Width)[i], BitsOf(y, Width)[i])
  {
    var pattern := AddressPattern(mask, BitsOf(address, Width));
    ExpandMembers(pattern, y);
  }

  lemma {:induction false} SameFloating(p: Mask, q: Mask)
    requires |p| == |q| && forall i :: 0 <= i < |p| ==> (p[i].None? <==> q[i].None?)
    ensures FloatingCount(p) == FloatingCount(q)
    decreases |p|
  {
    if p != [] {
      SameFloating(p[..|p| - 1], q[..|q| - 1]);
    }
  }

  /** A mask with k X bits makes decode_address reach 2^k addresses. */
  lemma DecodeCount(address: nat, mask: Mask)
    requires |mask| == Width
    ensures |DecodeAddress(address, mask)| == Pow2(FloatingCount(mask))
  {
    var pattern := AddressPattern(mask, BitsOf(address, Width));
    SameFloating(pattern, mask);
    ExpandCount(pattern);
  }
  // run_program and run_program_v2.

  /** The mask in effect after the steps: the last one set, or the
      all-X mask both programs start with. */
  function MaskAfter(program: seq<ProgramStep>): Mask
  {
    if program == [] then AllFloating()
    else match program[|program| - 1]
      case SetMask(m) => m
      case SetMemory(_, _) => MaskAfter(program[..|program| - 1])
  }

  /** The memory version 1 of the decoder leaves: each write stores the
      masked value, replacing what was at its address. */
  function Run(program: seq<ProgramStep>): Memory
  {
    if program == [] then map[]
    else
      var init := program[..|program| - 1];
      match program[|program| - 1]
      case SetMask(_) => Run(init)
      case SetMemory(address, value) => Run(init)[address := ApplyMask(value, MaskAfter(init))]
  }

  /** run_program: a loop over the steps that keeps the current mask and
      the memory written so far. */
  method RunProgram(program: seq<ProgramStep>) returns (memory: Memory)
    ensures memory == Run(program)
  {
    var mask := AllFloating();
    memory := map[];
    for i := 0 to |program|
      invariant mask == MaskAfter(program[..i])
      invariant memory == Run(program[..i])
    {
      assert program[..i + 1][..i] == program[..i];
      match program[i]
      case SetMask(newMask) =>
        mask := newMask;
      case SetMemory(address, value) =>
        memory := memory[address := ApplyMask(value, mask)];
    }
    assert program[..|program|] == program;
  }

  predicate Writes(step: ProgramStep, address: nat)
  {
    step.SetMemory? && step.address == address
  }

  /** The addresses in memory after version 1 are exactly those written. */
  lemma {:induction false} RunKeys(program: seq<ProgramStep>, address: nat)
    ensures address in Run(program) <==> exists i :: 0 <= i < |program| && Writes(program[i], address)
    decreases |program|
  {
    if program != [] {
      var init := program[..|program| - 1];
      RunKeys(init, address);
      if exists i :: 0 <= i < |init| && Writes(init[i], address) {
        var i :| 0 <= i < |init| && Writes(init[i], address);
        assert program[i] == init[i];
      }
      if exists i :: 0 <= i < |program| && Writes(program[i], address) {
        var i :| 0 <= i < |program| && Writes(program[i], address);
        assert i < |init| ==> init[i] == program[i];
      }
    }
  }

  /** The value at an address after version 1 is the last value written
      there, masked by the mask in effect at that write. */
  lemma {:induction false} RunLastWrite(program: seq<ProgramStep>, i: nat)
    requires i < |program| && program[i].SetMemory?
    requires forall j :: i < j < |program| ==> !Writes(program[j], program[i].address)
    ensures program[i].address in Run(program)
    ensures Run(program)[program[i].address] == ApplyMask(program[i].value, MaskAfter(program[..i]))
    decreases |program|
  {
    var init := program[..|program| - 1];
    if i < |init| {
      assert init[i] == program[i] && init[..i] == program[..i];
      forall j | i < j < |init| ensures !Writes(init[j], program[i].address) {
        assert init[j] == program[j];
      }
      RunLastWrite(init, i);
      assert !Writes(program[|program| - 1], program[i].address);
    }
  }

  /** Version 2 stores the value at every address of a set and keeps the
      rest of memory. */
  function Store(memory: Memory, addresses: set<nat>, value: nat): (r: Memory)
    ensures r.Keys == memory.Keys + addresses
  {
    map a | a in memory.Keys + addresses :: if a in addresses then value else memory[a]
  }

  /** Storing at one more address is one more map update. */
  lemma StoreInsert(memory: Memory, addresses: set<nat>, a: nat, value: nat)
    ensures Store(memory, addresses + {a}, value) == Store(memory, addresses, value)[a := value]
  {
  }

  /** The memory version 2 of the decoder leaves: each write stores the
      unmasked value at every address decode_address gives. */
  function RunV2(program: seq<ProgramStep>): Memory
  {
    if program == [] then map[]
    else
      var init := program[..|program| - 1];
      match program[|program| - 1]
      case SetMask(_) => RunV2(init)
      case SetMemory(address, value) => Store(RunV2(init), DecodeAddress(address, MaskAfter(init)), value)
  }

  /** run_program_v2: the same loop, with an inner loop inserting the
      value at each decoded address in the hash set's order. */
  method RunProgramV2(program: seq<ProgramStep>) returns (memory: Memory)
    ensures memory == RunV2(program)
  {
    var mask := AllFloating();
    memory := map[];
    for i := 0 to |program|
      invariant mask == MaskAfter(program[..i])
      invariant memory == RunV2(program[..i])
    {
      assert program[..i + 1][..i] == program[..i];
      match program[i]
      case SetMask(newMask) =>
        mask := newMask;
      case SetMemory(address, value) =>
        var decoded := DecodeAddress(address, mask);
        var pending := decoded;
        ghost var before := memory;
        while pending != {}
          invariant pending <= decoded
          invariant memory == Store(before, decoded - pending, value)
          decreases |pending|
        {
          var a :| a in pending;
          StoreInsert(before, decoded - pending, a, value);
          assert (decoded - pending) + {a} == decoded - (pending - {a});
          memory := memory[a := value];
          pending := pending - {a};
        }
        assert decoded - pending == decoded;
        assert RunV2(program[..i + 1]) == Store(RunV2(program[..i]), DecodeAddress(address, MaskAfter(program[..i])), value);
    }
    assert program[..|program|] == program;
  }

  /** Write i of the program reaches the address under version 2. */
  predicate Reaches(program: seq<ProgramStep>, i: nat, address: nat)
    requires i < |program|
  {
    program[i].SetMemory? && address in DecodeAddress(program[i].address, MaskAfter(program[..i]))
  }

  /** The addresses in memory after version 2 are exactly those some
      write reaches. */
  lemma {:induction false} RunV2Keys(program: seq<ProgramStep>, address: nat)
    ensures address in RunV2(program) <==> exists i :: 0 <= i < |program| && Reaches(program, i, address)
    decreases |program|
  {
    if program != [] {
      var init := program[..|program| - 1];
      assert program[..|init|] == init;
      RunV2Keys(init, address);
      forall i | 0 <= i < |init| ensures Reaches(program, i, address) == Reaches(init, i, address) {
        assert program[i] == init[i] && program[..i] == init[..i];
      }
      match program[|init|]
      case SetMask(_) =>
        assert !Reaches(program, |init|, address);
      case SetMemory(a, v) =>
        assert address in DecodeAddress(a, MaskAfter(init)) <==> Reaches(program, |init|, address);
    }
  }

  /** The value at an address after version 2 is the value of the last
      write that reaches it. */
  lemma {:induction false} RunV2LastWrite(program: seq<ProgramStep>, i: nat, address: nat)
    requires i < |program| && Reaches(program, i, address)
    requires forall j :: i < j < |program| ==> !Reaches(program, j, address)
    ensures address in RunV2(program) && RunV2(program)[address] == program[i].value
    decreases |program|
  {
    var init := program[..|program| - 1];
    assert program[..|init|] == init;
    if i < |init| {
      assert init[i] == program[i] && init[..i] == program[..i];
      forall j | i < j < |init| ensures !Reaches(init, j, address) {
        assert init[j] == program[j] && init[..j] == program[..j];
        assert !Reaches(program, j, address);
      }
      RunV2LastWrite(init, i, address);
      assert !Reaches(program, |init|, address);
    }
  }
  // parse_program.

  const UnknownMaskCharacter := "Unknown character in mask"

  predicate IsMaskChar(c: char) { c == '1' || c == '0' || c == 'X' }

  /** create_mask: '1' forces a one, '0' a zero, 'X' floats, and any
      other character is rejected. */
  function CreateMask(text: string): (r: Result<Mask>)
    ensures r.Ok? <==> forall i :: 0 <= i < |text| ==> IsMaskChar(text[i])
    ensures r.Ok? ==> |r.value| == |text|
    ensures r.Err? ==> r.error == UnknownMaskCharacter
  {
    if text == [] then Ok([])
    else
      var c := text[0];
      var rest := CreateMask(text[1..]);
      if !IsMaskChar(c) then Err(UnknownMaskCharacter)
      else if rest.Err? then rest
      else Ok([if c == 'X' then None else Some(c == '1')] + rest.value)
  }

  function MaskBitChar(bit: Option<bool>): char
  {
    match bit case None => 'X' case Some(b) => if b then '1' else '0'
  }

  /** The mask as the program text writes it. */
  function MaskText(mask: Mask): (r: string)
    ensures |r| == |mask| && forall i :: 0 <= i < |r| ==> IsMaskChar(r[i])
  {
    seq(|mask|, i requires 0 <= i < |mask| => MaskBitChar(mask[i]))
  }

  lemma {:induction false} CreateMaskText(mask: Mask)
    ensures CreateMask(MaskText(mask)) == Ok(mask)
    decreases |mask|
  {
    if mask != [] {
      assert MaskText(mask)[1..] == MaskText(mask[1..]);
      CreateMaskText(mask[1..]);
      assert [mask[0]] + mask[1..] == mask;
    }
  }

  const MaskPrefix := "mask = "
  const MemPrefix := "mem["
  const MemSeparator := "] = "

  /** convert_to_program_step: "mask = " and 36 mask characters, or
      "mem[" digits "] = " digits with both numbers fitting in a u64;
      any other line gives nothing. */
  function ParseStep(line: string): (r: Option<ProgramStep>)
    ensures r.Some? && r.value.SetMask? ==> |r.value.mask| == Width
    ensures r.Some? && r.value.SetMemory? ==> r.value.address <= U64_MAX && r.value.value <= U64_MAX
  {
    if |line| == |MaskPrefix| + Width && StartsWith(line, MaskPrefix)
      && forall i :: |MaskPrefix| <= i < |line| ==> IsMaskChar(line[i])
    then
      var text := line[|MaskPrefix|..];
      assert forall i :: 0 <= i < |text| ==> text[i] == line[|MaskPrefix| + i];
      Some(SetMask(CreateMask(text).value))
    else if StartsWith(line, MemPrefix) then
      var parts := SplitOn(line[|MemPrefix|..], MemSeparator);
      if |parts| == 2 && |parts[0]| > 0 && AllDigits(parts[0]) && |parts[1]| > 0 && AllDigits(parts[1]) then
        match (ParseNat(parts[0], U64_MAX), ParseNat(parts[1], U64_MAX))
        case (Some(address), Some(value)) => Some(SetMemory(address, value))
        case _ => None
      else None
    else None
  }

  /** The filter_map of parse_program over the lines. */
  function ParseLines(lines: seq<string>): (r: seq<ProgramStep>)
    ensures |r| <= |lines|
  {
    if lines == [] then []
    else (match ParseStep(lines[0]) case Some(step) => [step] case None => []) + ParseLines(lines[1..])
  }

  function ParseProgram(input: string): seq<ProgramStep>
  {
    ParseLines(Lines(input))
  }

  /** A step as the program text writes it. */
  function ShowStep(step: ProgramStep): (r: string)
    ensures |r| > 0 && '\n' !in r
  {
    match step
    case SetMask(mask) =>
      var r := MaskPrefix + MaskText(mask);
      assert forall i :: |MaskPrefix| <= i < |r| ==> r[i] == MaskText(mask)[i - |MaskPrefix|];
      r
    case SetMemory(address, value) =>
      var r := MemPrefix + ShowNat(address) + MemSeparator + ShowNat(value);
      assert '\n' !in ShowNat(address) && '\n' !in ShowNat(value) by {
        DigitsAvoid(ShowNat(address), {'\n'});
        DigitsAvoid(ShowNat(value), {'\n'});
      }
      r
  }

  function ShowSteps(program: seq<ProgramStep>): (r: seq<string>)
    ensures |r| == |program| && forall i :: 0 <= i < |r| ==> |r[i]| > 0 && '\n' !in r[i]
  {
    seq(|program|, i requires 0 <= i < |program| => ShowStep(program[i]))
  }

  /** The steps the program text can express: 36-bit masks and u64
      numbers. */
  predicate Expressible(step: ProgramStep)
  {
    match step
    case SetMask(mask) => |mask| == Width
    case SetMemory(address, value) => address <= U64_MAX && value <= U64_MAX
  }

  lemma ParseShowMask(mask: Mask)
    requires |mask| == Width
    ensures ParseStep(ShowStep(SetMask(mask))) == Some(SetMask(mask))
  {
    var line := ShowStep(SetMask(mask));
    assert line[..|MaskPrefix|] == MaskPrefix && line[|MaskPrefix|..] == MaskText(mask);
    CreateMaskText(mask);
  }

  lemma ParseShowMemory(address: nat, value: nat)
    requires address <= U64_MAX && value <= U64_MAX
    ensures ParseStep(ShowStep(SetMemory(address, value))) == Some(SetMemory(address, value))
  {
    var a, v := ShowNat(address), ShowNat(value);
    var line := ShowStep(SetMemory(address, value));
    assert line == MemPrefix + (a + MemSeparator + v);
    assert line[..|MemPrefix|] == MemPrefix && line[|MemPrefix|..] == a + MemSeparator + v;
    assert |line| != |MaskPrefix| + Width || !StartsWith(line, MaskPrefix) by {
      assert line[0] == 'm' && line[1] == 'e';
      assert |line| >= |MaskPrefix| ==> line[..|MaskPrefix|][1] == 'e';
    }
    DigitsAvoid(v, {']'});
    forall i | 0 <= i <= |v| ensures !StartsWith(v[i..], MemSeparator) {
      assert i < |v| ==> v[i..][0] == v[i];
    }
    SplitOnPair(a, v, MemSeparator);
    ParseShowNat(address, U64_MAX);
    ParseShowNat(value, U64_MAX);
  }

  /** Each expressible step reads back from its own line. */
  lemma ParseShowStep(step: ProgramStep)
    requires Expressible(step)
    ensures ParseStep(ShowStep(step)) == Some(step)
  {
    match step
    case SetMask(mask) => ParseShowMask(mask);
    case SetMemory(address, value) => ParseShowMemory(address, value);
  }

  lemma {:induction false} ParseShowLines(program: seq<ProgramStep>)
    requires forall i :: 0 <= i < |program| ==> Expressible(program[i])
    ensures ParseLines(ShowSteps(program)) == program
    decreases |program|
  {
    if program != [] {
      var lines := ShowSteps(program);
      ParseShowStep(program[0]);
      assert lines[0] == ShowStep(program[0]);
      assert lines[1..] == ShowSteps(program[1..]);
      ParseShowLines(program[1..]);
      assert ParseLines(lines) == [program[0]] + ParseLines(lines[1..]);
      assert [program[0]] + program[1..] == program;
    }
  }

  /** A program written one step per line parses back to itself. */
  lemma ParseShowProgram(program: seq<ProgramStep>)
    requires forall i :: 0 <= i < |program| ==> Expressible(program[i])
    ensures ParseProgram(Join(ShowSteps(program), "\n")) == program
  {
    LinesJoin(ShowSteps(program));
    ParseShowLines(program);
  }
  // The examples.

  function Zeros(k: nat): (r: Bits)
    ensures |r| == k
  {
    seq(k, i => false)
  }

  /** k mask bits of one kind. */
  function Repeat(k: nat, bit: Option<bool>): (r: Mask)
    ensures |r| == k
  {
    seq(k, i => bit)
  }

  lemma {:induction false} BitsOfZero(j: nat)
    ensures BitsOf(0, j) == Zeros(j)
  {
    if j > 0 {
      BitsOfZero(j - 1);
      assert Zeros(j - 1) + [false] == Zeros(j);
    }
  }

  /** A number below 2^k has only zeros above its k low bits. */
  lemma {:induction false} BitsOfSmall(n: nat, j: nat, k: nat)
    requires n < Pow2(k)
    ensures BitsOf(n, j + k) == Zeros(j) + BitsOf(n, k)
    decreases k
  {
    if k == 0 {
      BitsOfZero(j);
    } else {
      BitsOfSmall(n / 2, j, k - 1);
      assert BitsOf(n, j + k) == BitsOf(n / 2, j + k - 1) + [n % 2 == 1];
    }
  }

  lemma {:induction false} ToU64Zeros(j: nat, bits: Bits)
    ensures ToU64(Zeros(j) + bits) == ToU64(bits)
  {
    if j > 0 {
      var all := Zeros(j) + bits;
      assert all[0] == false && all[1..] == Zeros(j - 1) + bits;
      assert ToU64(all) == FoldBits(0, all[1..]);
      ToU64Zeros(j - 1, bits);
    } else {
      assert Zeros(j) + bits == bits;
    }
  }

  /** A small value under a mask whose high bits are all X: only the low
      bits matter. */
  lemma ApplyMaskLow(value: nat, mask: Mask, k: nat)
    requires |mask| == Width && k <= Width && value < Pow2(k)
    requires forall i :: 0 <= i < Width - k ==> mask[i] == None
    ensures ApplyMask(value, mask) == ToU64(Overlay(mask[Width - k..], BitsOf(value, k)))
  {
    var j := Width - k;
    BitsOfSmall(value, j, k);
    var low := BitsOf(value, k);
    var whole := Overlay(mask, Zeros(j) + low);
    var split := Zeros(j) + Overlay(mask[j..], low);
    assert |whole| == |split| == Width;
    forall i | 0 <= i < Width ensures whole[i] == split[i] {
      if i < j {
        assert mask[i] == None && (Zeros(j) + low)[i] == false;
      } else {
        assert mask[i] == mask[j..][i - j] && (Zeros(j) + low)[i] == low[i - j];
      }
    }
    assert whole == split;
    ToU64Zeros(j, Overlay(mask[j..], low));
  }

  lemma ShiftZero()
    ensures Shift({0}, Some(false)) == {0}
  {
    forall y | y in Shift({0}, Some(false)) ensures y == 0 {
      ShiftMembers({0}, Some(false), y);
    }
    ShiftMembers({0}, Some(false), 0);
  }

  lemma {:induction false} ExpandFromFixed(addresses: set<nat>, j: nat, pattern: Mask)
    requires Shift(addresses, Some(false)) == addresses
    ensures ExpandFrom(addresses, Repeat(j, Some(false)) + pattern) == ExpandFrom(addresses, pattern)
  {
    var all := Repeat(j, Some(false)) + pattern;
    if j > 0 {
      assert all[0] == Some(false) && all[1..] == Repeat(j - 1, Some(false)) + pattern;
      ExpandFromFixed(addresses, j - 1, pattern);
    } else {
      assert all == pattern;
    }
  }

  lemma ExpandFixedZeros(j: nat, pattern: Mask)
    ensures Expand(Repeat(j, Some(false)) + pattern) == Expand(pattern)
  {
    ShiftZero();
    ExpandFromFixed({0}, j, pattern);
  }

  /** A small address under a mask whose high bits are all 0: only the
      low bits matter. */
  lemma DecodeLow(address: nat, mask: Mask, k: nat)
    requires |mask| == Width && k <= Width && address < Pow2(k)
    requires forall i :: 0 <= i < Width - k ==> mask[i] == Some(false)
    ensures DecodeAddress(address, mask) == Expand(AddressPattern(mask[Width - k..], BitsOf(address, k)))
  {
    var j := Width - k;
    BitsOfSmall(address, j, k);
    PatternZeroHigh(mask, Zeros(j), BitsOf(address, k));
    ExpandFixedZeros(j, AddressPattern(mask[j..], BitsOf(address, k)));
  }

  /** High bits that are 0 in both the mask and the address stay fixed 0s. */
  lemma PatternZeroHigh(mask: Mask, high: Bits, low: Bits)
    requires |mask| == |high| + |low|
    requires forall i :: 0 <= i < |high| ==> mask[i] == Some(false) && !high[i]
    ensures AddressPattern(mask, high + low) == Repeat(|high|, Some(false)) + AddressPattern(mask[|high|..], low)
  {
    var whole := AddressPattern(mask, high + low);
    var split := Repeat(|high|, Some(false)) + AddressPattern(mask[|high|..], low);
    forall i | 0 <= i < |mask| ensures whole[i] == split[i] {
      if i >= |high| {
        assert mask[|high|..][i - |high|] == mask[i];
        assert (high + low)[i] == low[i - |high|];
      }
    }
  }

  /** 101 has the 36-bit vector of the source's unit test, and the vector reads back as 101. */
  lemma BitVecExample(bits: Bits)
    requires bits == Zeros(29) + [true, true, false, false, true, false, true]
    ensures BitsOf(101, Width) == bits && ToU64(bits) == 101
  {
    BitsOfSmall(101, 29, 7);
    BitVecRoundTrip(101);
  }
  lemma ExpandFromStep(addresses: set<nat>, pattern: Mask, next: set<nat>)
    requires pattern != [] && Shift(addresses, pattern[0]) == next
    ensures ExpandFrom(addresses, pattern) == ExpandFrom(next, pattern[1..])
  {
  }

  /** Shifting by a fixed bit maps each address a to 2a + bit. */
  lemma ShiftFixedImage(addresses: set<nat>, b: bool)
    ensures Shift(addresses, Some(b)) == Image(addresses, BitValue(b))
  {
    forall y | y in Shift(addresses, Some(b)) ensures y in Image(addresses, BitValue(b)) {
      ShiftMembers(addresses, Some(b), y);
      assert y == 2 * (y / 2) + y % 2;
    }
    forall y | y in Image(addresses, BitValue(b)) ensures y in Shift(addresses, Some(b)) {
      ShiftMembers(addresses, Some(b), y);
    }
  }

  lemma FixedPairStep(x: nat, y: nat, pattern: Mask, b: bool)
    requires pattern != [] && pattern[0] == Some(b)
    ensures ExpandFrom({x, y}, pattern) == ExpandFrom({2 * x + BitValue(b), 2 * y + BitValue(b)}, pattern[1..])
  {
    ShiftFixedImage({x, y}, b);
    assert Image({x, y}, BitValue(b)) == {2 * x + BitValue(b), 2 * y + BitValue(b)};
  }

  lemma FloatingPairStep(x: nat, y: nat, pattern: Mask)
    requires pattern != [] && pattern[0] == None
    ensures ExpandFrom({x, y}, pattern) == ExpandFrom({2 * x, 2 * x + 1, 2 * y, 2 * y + 1}, pattern[1..])
  {
    ShiftFloatingSplit({x, y});
    assert Image({x, y}, 0) + Image({x, y}, 1) == {2 * x, 2 * x + 1, 2 * y, 2 * y + 1};
  }

  lemma FloatingSingleStep(x: nat, pattern: Mask)
    requires pattern != [] && pattern[0] == None
    ensures ExpandFrom({x}, pattern) == ExpandFrom({2 * x, 2 * x + 1}, pattern[1..])
  {
    ShiftFloatingSplit({x});
    assert Image({x}, 0) + Image({x}, 1) == {2 * x, 2 * x + 1};
  }

  /** The pattern X1101X of the source's unit test, preceded by zeros, expands to 26, 27, 58
      and 59. */
  lemma ExpandExample(pattern: Mask)
    requires pattern == Repeat(30, Some(false)) + [None, Some(true), Some(true), Some(false), Some(true), None]
    ensures Expand(pattern) == {26, 27, 58, 59}
  {
    var t := [None, Some(true), Some(true), Some(false), Some(true), None];
    ExpandFixedZeros(30, t);
    ExpandExampleTail(t);
  }

  lemma ExpandExampleTail(t: Mask)
    requires t == [None, Some(true), Some(true), Some(false), Some(true), None]
    ensures ExpandFrom({0}, t) == {26, 27, 58, 59}
  {
    FloatingSingleStep(0, t);
    FixedPairStep(0, 1, t[1..], true);
    FixedPairStep(1, 3, t[2..], true);
    FixedPairStep(3, 7, t[3..], false);
    FixedPairStep(6, 14, t[4..], true);
    FloatingPairStep(13, 29, t[5..]);
    assert t[1..][1..] == t[2..] && t[2..][1..] == t[3..] && t[3..][1..] == t[4..];
    assert t[4..][1..] == t[5..] && t[5..][1..] == [];
  }
  lemma FixedSingleStep(x: nat, pattern: Mask, b: bool)
    requires pattern != [] && pattern[0] == Some(b)
    ensures ExpandFrom({x}, pattern) == ExpandFrom({2 * x + BitValue(b)}, pattern[1..])
  {
    ShiftFixedImage({x}, b);
    assert Image({x}, BitValue(b)) == {2 * x + BitValue(b)};
  }

  lemma FloatingFourStep(w: nat, x: nat, y: nat, z: nat, pattern: Mask)
    requires pattern != [] && pattern[0] == None
    ensures ExpandFrom({w, x, y, z}, pattern)
      == ExpandFrom({2 * w, 2 * w + 1, 2 * x, 2 * x + 1, 2 * y, 2 * y + 1, 2 * z, 2 * z + 1}, pattern[1..])
  {
    ShiftFloatingSplit({w, x, y, z});
    assert Image({w, x, y, z}, 0) + Image({w, x, y, z}, 1)
      == {2 * w, 2 * w + 1, 2 * x, 2 * x + 1, 2 * y, 2 * y + 1, 2 * z, 2 * z + 1};
  }

  /** The first mask of the version 1 example, XXXX...X1XXXX0X. */
  function MaskV1(): Mask
  {
    Repeat(29, None) + [Some(true), None, None, None, None, Some(false), None]
  }

  /** The two masks of the version 2 example, 000...0X1001X and
      000...00X0XX. */
  function MaskV2First(): Mask
  {
    Repeat(30, Some(false)) + [None, Some(true), Some(false), Some(false), Some(true), None]
  }

  function MaskV2Second(): Mask
  {
    Repeat(32, Some(false)) + [None, Some(false), None, None]
  }

  function ExampleV1(): seq<ProgramStep>
  {
    [SetMask(MaskV1()), SetMemory(8, 11), SetMemory(7, 101), SetMemory(8, 0)]
  }

  function ExampleV2(): seq<ProgramStep>
  {
    [SetMask(MaskV2First()), SetMemory(42, 100), SetMask(MaskV2Second()), SetMemory(26, 1)]
  }

  lemma MaskV1Low(value: nat)
    requires value < Pow2(7)
    ensures ApplyMask(value, MaskV1()) == ToU64(Overlay([Some(true), None, None, None, None, Some(false), None], BitsOf(value, 7)))
  {
    var m := MaskV1();
    assert m[29..] == [Some(true), None, None, None, None, Some(false), None];
    ApplyMaskLow(value, m, 7);
  }

  /** The value of seven bits, most significant first. */
  lemma ToU64Seven(bits: Bits)
    requires |bits| == 7
    ensures ToU64(bits) == 64 * BitValue(bits[0]) + 32 * BitValue(bits[1]) + 16 * BitValue(bits[2])
      + 8 * BitValue(bits[3]) + 4 * BitValue(bits[4]) + 2 * BitValue(bits[5]) + BitValue(bits[6])
  {
    assert bits[..0] == [];
    ToU64Prefix(bits, 0);
    ToU64Prefix(bits, 1);
    ToU64Prefix(bits, 2);
    ToU64Prefix(bits, 3);
    ToU64Prefix(bits, 4);
    ToU64Prefix(bits, 5);
    ToU64Prefix(bits, 6);
    assert bits[..7] == bits;
  }

  /** Reading one more bit of a prefix doubles its value and adds the bit. */
  lemma ToU64Prefix(bits: Bits, k: nat)
    requires k < |bits|
    ensures ToU64(bits[..k + 1]) == 2 * ToU64(bits[..k]) + BitValue(bits[k])
  {
    assert bits[..k + 1] == bits[..k] + [bits[k]];
    ToU64Snoc(bits[..k], bits[k]);
  }

  lemma BitsOfSeven(n: nat)
    ensures BitsOf(n, 7) == [(n / 64) % 2 == 1, (n / 32) % 2 == 1, (n / 16) % 2 == 1,
      (n / 8) % 2 == 1, (n / 4) % 2 == 1, (n / 2) % 2 == 1, n % 2 == 1]
  {
    var h := n / 2;
    BitsOfSix(h);
    assert h / 32 == n / 64 && h / 16 == n / 32 && h / 8 == n / 16 && h / 4 == n / 8 && h / 2 == n / 4;
    assert BitsOf(n, 7) == BitsOf(h, 6) + [n % 2 == 1];
  }

  /** Under the first example's mask a value below 128 keeps bits 5, 4,
      3, 2 and 0, gets bit 6 set and bit 1 cleared. */
  lemma MaskV1Value(value: nat)
    requires value < Pow2(7)
    ensures ApplyMask(value, MaskV1()) == 64 + 32 * BitValue((value / 32) % 2 == 1)
      + 16 * BitValue((value / 16) % 2 == 1) + 8 * BitValue((value / 8) % 2 == 1)
      + 4 * BitValue((value / 4) % 2 == 1) + BitValue(value % 2 == 1)
  {
    MaskV1Low(value);
    BitsOfSeven(value);
    var bits := Overlay([Some(true), None, None, None, None, Some(false), None], BitsOf(value, 7));
    ToU64Seven(bits);
  }

  /** The mask of the first example turns 11 into 73, keeps 101 and turns
      0 into 64. */
  lemma ApplyMaskExamples()
    ensures ApplyMask(11, MaskV1()) == 73
    ensures ApplyMask(101, MaskV1()) == 101
    ensures ApplyMask(0, MaskV1()) == 64
  {
    MaskV1Value(11);
    MaskV1Value(101);
    MaskV1Value(0);
  }
  /** The first example leaves 101 at address 7 and 64 at address 8. */
  lemma RunExample(program: seq<ProgramStep>)
    requires program == ExampleV1()
    ensures Run(program) == map[7 := 101, 8 := 64]
  {
    ApplyMaskExamples();
    var p1, p2, p3 := program[..1], program[..2], program[..3];
    assert MaskAfter(p1) == MaskV1();
    assert p2[..1] == p1 && p3[..2] == p2 && program[..3] == p3;
    assert MaskAfter(p2) == MaskV1() && MaskAfter(p3) == MaskV1();
    assert Run(p1) == map[];
    assert Run(p2) == map[8 := 73];
    assert Run(p3) == map[8 := 73, 7 := 101];
    assert Run(program) == map[8 := 73, 7 := 101][8 := 64];
  }
  lemma BitsOfSix(n: nat)
    ensures BitsOf(n, 6) == [(n / 32) % 2 == 1, (n / 16) % 2 == 1, (n / 8) % 2 == 1,
      (n / 4) % 2 == 1, (n / 2) % 2 == 1, n % 2 == 1]
  {
    var h1, h2, h3, h4, h5 := n / 2, n / 4, n / 8, n / 16, n / 32;
    assert h1 / 2 == h2 && h2 / 2 == h3 && h3 / 2 == h4 && h4 / 2 == h5;
    assert BitsOf(h5, 1) == [h5 % 2 == 1];
    assert BitsOf(h4, 2) == BitsOf(h5, 1) + [h4 % 2 == 1];
    assert BitsOf(h3, 3) == BitsOf(h4, 2) + [h3 % 2 == 1];
    assert BitsOf(h2, 4) == BitsOf(h3, 3) + [h2 % 2 == 1];
    assert BitsOf(h1, 5) == BitsOf(h2, 4) + [h1 % 2 == 1];
    assert BitsOf(n, 6) == BitsOf(h1, 5) + [n % 2 == 1];
  }

  /** Address 42 under 000...0X1001X decodes to 26, 27, 58 and 59. */
  lemma DecodeExampleFirst()
    ensures DecodeAddress(42, MaskV2First()) == {26, 27, 58, 59}
  {
    var m := MaskV2First();
    MaskV2FirstLow(m);
    DecodeLow(42, m, 6);
    FirstTailPattern(m[30..], BitsOf(42, 6));
    ExpandExampleTail(AddressPattern(m[30..], BitsOf(42, 6)));
  }

  lemma MaskV2FirstLow(m: Mask)
    requires m == MaskV2First()
    ensures |m| == Width && forall i :: 0 <= i < Width - 6 ==> m[i] == Some(false)
    ensures m[30..] == [None, Some(true), Some(false), Some(false), Some(true), None]
  {
  }

  lemma FirstTailPattern(tail: Mask, bits: Bits)
    requires tail == [None, Some(true), Some(false), Some(false), Some(true), None] && bits == BitsOf(42, 6)
    ensures AddressPattern(tail, bits) == [None, Some(true), Some(true), Some(false), Some(true), None]
  {
    BitsOfSix(42);
  }

  /** Address 26 under 000...00X0XX decodes to 16 to 19 and 24 to 27. */
  lemma DecodeExampleSecond()
    ensures DecodeAddress(26, MaskV2Second()) == {16, 17, 18, 19, 24, 25, 26, 27}
  {
    var m := MaskV2Second();
    MaskV2SecondLow(m);
    DecodeLow(26, m, 6);
    SecondTailPattern(m[30..], BitsOf(26, 6));
    ExpandSecondTail(AddressPattern(m[30..], BitsOf(26, 6)));
  }

  lemma MaskV2SecondLow(m: Mask)
    requires m == MaskV2Second()
    ensures |m| == Width && forall i :: 0 <= i < Width - 6 ==> m[i] == Some(false)
    ensures m[30..] == [Some(false), Some(false), None, Some(false), None, None]
  {
  }

  lemma SecondTailPattern(tail: Mask, bits: Bits)
    requires tail == [Some(false), Some(false), None, Some(false), None, None] && bits == BitsOf(26, 6)
    ensures AddressPattern(tail, bits) == [Some(false), Some(true), None, Some(false), None, None]
  {
    BitsOfSix(26);
  }

  lemma ExpandSecondTail(t: Mask)
    requires t == [Some(false), Some(true), None, Some(false), None, None]
    ensures ExpandFrom({0}, t) == {16, 17, 18, 19, 24, 25, 26, 27}
  {
    FixedSingleStep(0, t, false);
    FixedSingleStep(0, t[1..], true);
    FloatingSingleStep(1, t[2..]);
    FixedPairStep(2, 3, t[3..], false);
    FloatingPairStep(4, 6, t[4..]);
    FloatingFourStep(8, 9, 12, 13, t[5..]);
    assert t[1..][1..] == t[2..] && t[2..][1..] == t[3..] && t[3..][1..] == t[4..];
    assert t[4..][1..] == t[5..] && t[5..][1..] == [];
  }

  /** The second example leaves 1 at 16 to 19 and 24 to 27, and 100 at 58
      and 59: the second write overwrites 26 and 27. */
  lemma RunV2Example(program: seq<ProgramStep>)
    requires program == ExampleV2()
    ensures RunV2(program) == map[16 := 1, 17 := 1, 18 := 1, 19 := 1, 24 := 1, 25 := 1, 26 := 1, 27 := 1,
      58 := 100, 59 := 100]
  {
    DecodeExampleFirst();
    DecodeExampleSecond();
    var p1, p2, p3 := program[..1], program[..2], program[..3];
    assert p2[..1] == p1 && p3[..2] == p2 && program[..3] == p3;
    assert MaskAfter(p1) == MaskV2First() && MaskAfter(p3) == MaskV2Second();
    assert p1[..0] == [];
    assert RunV2(p1) == map[];
    var first := Store(map[], {26, 27, 58, 59}, 100);
    assert RunV2(p2) == first;
    assert RunV2(p3) == first;
    assert RunV2(program) == Store(first, {16, 17, 18, 19, 24, 25, 26, 27}, 1);
  }
  lemma MaskV1Text(t: string)
    requires t == "XXXXXXXXXXXXXXXXXXXXXXXXXXXXX1XXXX0X"
    ensures MaskText(MaskV1()) == t
  {
    var m := MaskV1();
    assert |t| == 36;
    forall i | 0 <= i < 36 ensures MaskText(m)[i] == t[i] {
      assert m[i] == if i == 29 then Some(true) else if i == 34 then Some(false) else None;
    }
  }

  lemma MemLineEleven()
    ensures ShowStep(SetMemory(8, 11)) == "mem[8] = 11"
  {
    assert ShowNat(8) == "8";
    assert ShowNat(11) == "11" by { assert ShowNat(1) == "1"; }
    assert "mem[" + "8" == "mem[8";
    assert "mem[8" + "] = " == "mem[8] = ";
    assert "mem[8] = " + "11" == "mem[8] = 11";
  }

  lemma MemLineHundredOne()
    ensures ShowStep(SetMemory(7, 101)) == "mem[7] = 101"
  {
    assert ShowNat(7) == "7";
    assert ShowNat(101) == "101" by { assert ShowNat(1) == "1" && ShowNat(10) == "10"; }
    assert "mem[" + "7" == "mem[7";
    assert "mem[7" + "] = " == "mem[7] = ";
    assert "mem[7] = " + "101" == "mem[7] = 101";
  }

  lemma MemLineZero()
    ensures ShowStep(SetMemory(8, 0)) == "mem[8] = 0"
  {
    assert ShowNat(8) == "8" && ShowNat(0) == "0";
    assert "mem[" + "8" == "mem[8";
    assert "mem[8" + "] = " == "mem[8] = ";
    assert "mem[8] = " + "0" == "mem[8] = 0";
  }

  lemma MaskLineV1()
    ensures ShowStep(SetMask(MaskV1())) == "mask = XXXXXXXXXXXXXXXXXXXXXXXXXXXXX1XXXX0X"
  {
    MaskV1Text("XXXXXXXXXXXXXXXXXXXXXXXXXXXXX1XXXX0X");
    assert "mask = " + "XXXXXXXXXXXXXXXXXXXXXXXXXXXXX1XXXX0X" == "mask = XXXXXXXXXXXXXXXXXXXXXXXXXXXXX1XXXX0X";
  }

  lemma JoinFour(lines: seq<string>, a: string, b: string, c: string, d: string)
    requires lines == [a, b, c, d]
    ensures Join(lines, "\n") == a + "\n" + (b + "\n" + (c + "\n" + d))
  {
    assert lines[3..] == [d];
    JoinCons(c, lines[3..], "\n");
    assert lines[2..] == [c] + lines[3..];
    JoinCons(b, lines[2..], "\n");
    assert lines[1..] == [b] + lines[2..];
    JoinCons(a, lines[1..], "\n");
    assert lines == [a] + lines[1..];
  }

  /** The first example's text parses to the first example program. */
  lemma ParseExample(input: string)
    requires input == "mask = XXXXXXXXXXXXXXXXXXXXXXXXXXXXX1XXXX0X\nmem[8] = 11\nmem[7] = 101\nmem[8] = 0"
    ensures ParseProgram(input) == ExampleV1()
  {
    var program := ExampleV1();
    var lines := ShowSteps(program);
    MaskLineV1();
    MemLineEleven();
    MemLineHundredOne();
    MemLineZero();
    var a, b, c, d := "mask = XXXXXXXXXXXXXXXXXXXXXXXXXXXXX1XXXX0X", "mem[8] = 11", "mem[7] = 101", "mem[8] = 0";
    assert lines == [a, b, c, d];
    JoinFour(lines, a, b, c, d);
    JoinExample(input, a, b, c, d);
    ParseShowProgram(program);
  }

  lemma JoinExample(input: string, a: string, b: string, c: string, d: string)
    requires input == "mask = XXXXXXXXXXXXXXXXXXXXXXXXXXXXX1XXXX0X\nmem[8] = 11\nmem[7] = 101\nmem[8] = 0"
    requires a == "mask = XXXXXXXXXXXXXXXXXXXXXXXXXXXXX1XXXX0X" && b == "mem[8] = 11"
    requires c == "mem[7] = 101" && d == "mem[8] = 0"
    ensures a + "\n" + (b + "\n" + (c + "\n" + d)) == input
  {
    JoinExampleLast(c, d);
    JoinExampleMiddle(b, c + "\n" + d);
    JoinExampleFirst(a, b + "\n" + (c + "\n" + d), input);
  }

  lemma JoinExampleLast(c: string, d: string)
    requires c == "mem[7] = 101" && d == "mem[8] = 0"
    ensures c + "\n" + d == "mem[7] = 101\nmem[8] = 0"
  {
    assert c + "\n" == "mem[7] = 101\n";
  }

  lemma JoinExampleMiddle(b: string, rest: string)
    requires b == "mem[8] = 11" && rest == "mem[7] = 101\nmem[8] = 0"
    ensures b + "\n" + rest == "mem[8] = 11\nmem[7] = 101\nmem[8] = 0"
  {
    assert b + "\n" == "mem[8] = 11\n";
  }

  lemma JoinExampleFirst(a: string, rest: string, input: string)
    requires a == "mask = XXXXXXXXXXXXXXXXXXXXXXXXXXXXX1XXXX0X" && rest == "mem[8] = 11\nmem[7] = 101\nmem[8] = 0"
    requires input == "mask = XXXXXXXXXXXXXXXXXXXXXXXXXXXXX1XXXX0X\nmem[8] = 11\nmem[7] = 101\nmem[8] = 0"
    ensures a + "\n" + rest == input
  {
    var joined := a + "\n" + rest;
    assert |joined| == |input|;
    forall i | 0 <= i < |joined| ensures joined[i] == input[i] {
    }
  }
}
