/**
  The table-driven CRC-32 of app/src/core/crc32.hpp, proved to be the remainder of polynomial
  division by the generator of section 8 of RFC 1952. Registers and message bytes are reflected:
  read from the low end they list coefficients from the highest power down.
 */
module Crc32 {
  import opened Options
  import opened Gf2Division

  const POLY: bv32 := 0xEDB88320

  // ---------- Machine words as coefficient lists ----------

  predicate Odd(x: bv32) { x & 1 == 1 }

  function Half(x: bv32): bv32 { x >> 1 }

  function Add(x: bv32, y: bv32): bv32 { x ^ y }

  function Low(x: bv32, n: nat): (r: Bits)
    ensures |r| == n
  {
    if n == 0 then [] else [Odd(x)] + Low(Half(x), n - 1)
  }

  function Word(x: bv32): Register { Low(x, 32) }

  function Byte(c: bv8): (r: Bits)
    ensures |r| == 8
  {
    Low(c as bv32, 8)
  }

  function MessageBits(data: seq<bv8>): Bits {
    if data == [] then [] else Byte(data[0]) + MessageBits(data[1..])
  }

  lemma {:induction false} MessageBitsConcat(s: seq<bv8>, t: seq<bv8>)
    ensures MessageBits(s + t) == MessageBits(s) + MessageBits(t)
  {
    if s == [] {
      assert s + t == t;
    } else {
      assert (s + t)[0] == s[0] && (s + t)[1..] == s[1..] + t;
      MessageBitsConcat(s[1..], t);
    }
  }

  lemma AddBits(x: bv32, y: bv32)
    ensures Odd(Add(x, y)) == (Odd(x) != Odd(y))
    ensures Half(Add(x, y)) == Add(Half(x), Half(y))
  {}

  lemma {:induction false} LowOfAdd(x: bv32, y: bv32, n: nat)
    ensures Low(Add(x, y), n) == Xor(Low(x, n), Low(y, n))
    decreases n
  {
    hide Odd, Half, Add;
    if n > 0 {
      AddBits(x, y);
      LowOfAdd(Half(x), Half(y), n - 1);
    }
  }

  function Halves(x: bv32, k: nat): bv32 {
    if k == 0 then x else Halves(Half(x), k - 1)
  }

  lemma {:induction false} LowSkips(x: bv32, k: nat, n: nat)
    ensures Low(x, k + n) == Low(x, k) + Low(Halves(x, k), n)
    decreases k
  {
    hide Odd, Half;
    if k > 0 { LowSkips(Half(x), k - 1, n); }
  }

  lemma {:induction false} HalvesSum(x: bv32, j: nat, k: nat)
    ensures Halves(x, j + k) == Halves(Halves(x, j), k)
    decreases j
  {
    hide Half;
    if j > 0 { HalvesSum(Half(x), j - 1, k); }
  }

  function DropByte(x: bv32): bv32 { x >> 8 }

  lemma EightHalvesDropByte(x: bv32)
    ensures Half(Half(Half(Half(Half(Half(Half(Half(x)))))))) == DropByte(x)
  {}

  lemma EightHalves(x: bv32)
    ensures Halves(x, 8) == DropByte(x)
  {
    hide Half, DropByte;
    EightHalvesDropByte(x);
    var y := Half(Half(Half(Half(x))));
    assert Halves(x, 8) == Halves(Half(Half(x)), 6) == Halves(y, 4);
    assert Halves(y, 4) == Halves(Half(Half(y)), 2);
    assert Halves(Half(Half(y)), 2) == Halves(Half(Half(Half(y))), 1);
  }

  lemma FourBytesDropped(x: bv32)
    ensures DropByte(DropByte(DropByte(DropByte(x)))) == 0
  {}

  lemma AllHalves(x: bv32)
    ensures Halves(x, 32) == 0
  {
    hide Half, DropByte;
    var y := DropByte(DropByte(x));
    EightHalves(x);
    EightHalves(DropByte(x));
    EightHalves(y);
    EightHalves(DropByte(y));
    HalvesSum(x, 8, 24);
    HalvesSum(DropByte(x), 8, 16);
    HalvesSum(y, 8, 8);
    FourBytesDropped(x);
  }

  // ---------- Which words have zero coefficients ----------

  predicate Clear(x: bv32, m: bv32) { x & m == 0 }

  function Grow(m: bv32): bv32 { (m << 1) | 1 }

  /** The ones that `Low(x, n)` looks at. */
  function Mask(n: nat): bv32 {
    if n == 0 then 0 else Grow(Mask(n - 1))
  }

  lemma MaskedBits(x: bv32, m: bv32)
    ensures Odd(x & Grow(m)) == Odd(x)
    ensures Half(x & Grow(m)) == Half(x) & m
  {}

  lemma ZeroByBits(y: bv32)
    ensures y == 0 <==> !Odd(y) && Half(y) == 0
  {}

  lemma ClearStep(x: bv32, m: bv32)
    ensures Clear(x, Grow(m)) <==> !Odd(x) && Clear(Half(x), m)
  {
    hide Odd, Half, Grow;
    MaskedBits(x, m);
    ZeroByBits(x & Grow(m));
  }

  lemma ClearNothing(x: bv32)
    ensures Clear(x, 0)
  {}

  lemma {:induction false} LowIsZero(x: bv32, n: nat)
    ensures Low(x, n) == Zeros(n) <==> Clear(x, Mask(n))
    decreases n
  {
    hide Odd, Half, Clear, Grow;
    if n == 0 {
      ClearNothing(x);
    } else {
      ClearStep(x, Mask(n - 1));
      LowIsZero(Half(x), n - 1);
      assert Zeros(n) == [false] + Zeros(n - 1);
      if Low(x, n) == Zeros(n) {
        assert Low(x, n)[0] == Odd(x) && Low(x, n)[1..] == Low(Half(x), n - 1);
      }
    }
  }

  lemma Masks()
    ensures Mask(8) == 0xFF && Mask(32) == 0xFFFF_FFFF
  {
    assert Mask(8) == 0xFF;
    assert Mask(16) == 0xFFFF;
    assert Mask(24) == 0xFF_FFFF;
  }

  lemma WordInjective(x: bv32, y: bv32)
    requires Word(x) == Word(y)
    ensures x == y
  {
    LowOfAdd(x, y, 32);
    assert Xor(Word(x), Word(y)) == Zeros(32);
    LowIsZero(Add(x, y), 32);
    Masks();
    assert Clear(Add(x, y), 0xFFFF_FFFF);
    ClearAddIsEqual(x, y);
  }

  lemma ClearAddIsEqual(x: bv32, y: bv32)
    requires Clear(Add(x, y), 0xFFFF_FFFF)
    ensures x == y
  {}

  lemma ZeroIsClear(m: bv32)
    ensures Clear(0, m)
  {}

  lemma LowOfZero(n: nat)
    ensures Low(0, n) == Zeros(n)
  {
    hide Odd, Half, Clear;
    ZeroIsClear(Mask(n));
    LowIsZero(0, n);
  }

  // ---------- Words, bytes and shifts ----------

  lemma LastHalf(x: bv32)
    ensures Halves(Half(x), 31) == 0
  {
    hide Half;
    AllHalves(x);
  }

  lemma WordOfHalf(x: bv32)
    ensures Word(Half(x)) == Word(x)[1..] + [false]
  {
    hide Odd, Half, Low, Halves, Zeros;
    FirstBit(x);
    LastBit(x);
    ShiftedDown(Word(x), Odd(x), Low(Half(x), 31), Word(Half(x)));
  }

  lemma FirstBit(x: bv32)
    ensures Word(x) == [Odd(x)] + Low(Half(x), 31)
  {
    hide Odd, Half;
  }

  lemma LastBit(x: bv32)
    ensures Word(Half(x)) == Low(Half(x), 31) + [false]
  {
    hide Odd, Half, Low, Halves;
    LowSkips(Half(x), 31, 1);
    LastHalf(x);
    LowOfZero(1);
    assert Zeros(1) == [false];
  }

  lemma ShiftedDown(word: Bits, first: bool, rest: Bits, half: Bits)
    requires word == [first] + rest && half == rest + [false]
    ensures half == word[1..] + [false]
  {}

  /** A word is its low byte followed by the rest. */
  lemma SplitWord(x: bv32)
    ensures Word(x) == Low(x, 8) + Low(DropByte(x), 24)
    ensures Word(x)[8..] == Low(DropByte(x), 24)
  {
    hide Half, DropByte, Odd, Low, Halves;
    EightHalves(x);
    LowSkips(x, 8, 24);
  }

  lemma RestOfByteDropped(x: bv32)
    ensures Halves(DropByte(x), 24) == 0
  {
    hide Half, DropByte;
    EightHalves(x);
    HalvesSum(x, 8, 24);
    AllHalves(x);
  }

  lemma WordOfDropByte(x: bv32)
    ensures Word(DropByte(x)) == Word(x)[8..] + Zeros(8)
  {
    hide Half, DropByte, Odd, Low, Halves;
    SplitWord(x);
    LowSkips(DropByte(x), 24, 8);
    RestOfByteDropped(x);
    LowOfZero(8);
  }

  lemma ByteHasNoRest(c: bv8)
    ensures DropByte(c as bv32) == 0
  {}

  lemma WordOfByte(c: bv8)
    ensures Word(c as bv32) == Byte(c) + Zeros(24)
  {
    hide Half, Odd, DropByte, Low;
    ByteHasNoRest(c);
    SplitWord(c as bv32);
    LowOfZero(24);
  }

  function HighBytes(x: bv32): bv32 { x & 0xFFFF_FF00 }

  lemma HighBytesSplit(crc: bv32, c: bv8)
    ensures Add(crc, c as bv32) == Add(Index(crc, c) as bv32, HighBytes(crc))
    ensures DropByte(HighBytes(crc)) == DropByte(crc)
    ensures Clear(HighBytes(crc), 0xFF)
  {}

  lemma LowOfHighBytes(x: bv32)
    ensures Low(HighBytes(x), 8) == Zeros(8)
  {
    hide Half, Odd, HighBytes, Low, DropByte, Index, Add;
    HighBytesSplit(x, 0);
    Masks();
    LowIsZero(HighBytes(x), 8);
  }

  lemma WordOfHighBytes(x: bv32)
    ensures Word(HighBytes(x)) == Zeros(8) + Word(x)[8..]
  {
    hide Half, Odd, DropByte, HighBytes, Low, Index, Add;
    HighBytesSplit(x, 0);
    LowOfHighBytes(x);
    SplitWord(HighBytes(x));
    SplitWord(x);
  }

  // ---------- The table ----------

  /** The source's index expression, an 8-bit value. */
  function Index(crc: bv32, c: bv8): bv8 { ((crc & 0xFF) as bv8) ^ c }

  /** Entry `i` of the table is register `i` after eight message bits that are 0. */
  predicate IsEntry(t: bv32, i: bv8) {
    Word(t) == BitSteps(Word(POLY), Word(i as bv32), Zeros(8))
  }

  /** An 8-bit value as a position in the table. */
  function Slot(i: bv8): (k: nat)
    ensures k < 256
  {
    WidenedByte(i);
    i as int
  }

  function At(table: seq<bv32>, i: bv8): bv32
    requires |table| == 256
  {
    table[Slot(i)]
  }

  /** The first `n` entries are in place. */
  ghost predicate IsTableUpTo(table: seq<bv32>, n: int) {
    |table| == 256 && forall i: bv8 :: Slot(i) < n ==> IsEntry(At(table, i), i)
  }

  ghost predicate IsTable(table: seq<bv32>) {
    |table| == 256 && forall i: bv8 :: IsEntry(At(table, i), i)
  }

  /** The loop body of both checksum loops, `t` being the entry looked up. */
  function LookUpStep(crc: bv32, t: bv32): bv32 { (crc >> 8) ^ t }

  lemma LookUpStepParts(crc: bv32, t: bv32)
    ensures LookUpStep(crc, t) == Add(DropByte(crc), t)
  {}

  /** One table look-up absorbs one message byte. */
  lemma TableStep(crc: bv32, c: bv8, t: bv32)
    requires IsEntry(t, Index(crc, c))
    ensures Word(LookUpStep(crc, t)) == BitSteps(Word(POLY), Word(crc), Byte(c))
  {
    hide Half, Odd, DropByte, HighBytes, Index, Add, Low, LookUpStep;
    LookUpStepParts(crc, t);
    var p, i, h := Word(POLY), Index(crc, c) as bv32, HighBytes(crc);
    InjectWord(p, Word(crc), Byte(c));
    WordOfByte(c);
    LowOfAdd(crc, c as bv32, 32);
    HighBytesSplit(crc, c);
    LowOfAdd(i, h, 32);
    ZeroStepsLinear(p, Word(i), Word(h), 8);
    WordOfHighBytes(crc);
    ZeroStepsShiftZerosOut(p, 8, Word(crc)[8..]);
    WordOfDropByte(crc);
    LowOfAdd(DropByte(crc), t, 32);
  }

  lemma SourceShift(crc: bv32)
    ensures (crc >> 1) ^ (0xEDB88320 * (crc & 1)) == if Odd(crc) then Add(Half(crc), POLY) else Half(crc)
  {
    assert crc & 1 == 0 || crc & 1 == 1;
  }

  lemma ShiftIsBitStep(crc: bv32)
    ensures Word(if Odd(crc) then Add(Half(crc), POLY) else Half(crc)) == BitStep(Word(POLY), Word(crc), false)
  {
    hide Half, Add;
    WordOfHalf(crc);
    LowOfAdd(Half(crc), POLY, 32);
  }

  lemma WidenedByte(k: bv8)
    ensures 0 <= k as int < 256 && (k as bv32) as int == k as int
  {}

  lemma WordAndBack(x: bv32)
    ensures (x as int) as bv32 == x
  {}

  lemma ByteIndex(k: bv8)
    ensures 0 <= k as int < 256 && (k as int) as bv32 == k as bv32
  {
    WidenedByte(k);
    WordAndBack(k as bv32);
  }

  lemma {:induction false} ZeroStepsSnoc(p: Register, r: Register, n: nat)
    ensures BitSteps(p, r, Zeros(n + 1)) == BitStep(p, BitSteps(p, r, Zeros(n)), false)
  {
    BitStepsConcat(p, r, Zeros(n), [false]);
    assert Zeros(n + 1) == Zeros(n) + [false];
  }

  lemma EntryWritten(table: seq<bv32>, i: nat, crc: bv32)
    requires IsTableUpTo(table, i) && i < 256
    requires Word(crc) == BitSteps(Word(POLY), Word(i as bv32), Zeros(8))
    ensures IsTableUpTo(table[i := crc], i + 1)
  {
    hide Low, BitStep, Odd, Half;
    var after := table[i := crc];
    forall k: bv8 ensures Slot(k) < i + 1 ==> IsEntry(At(after, k), k) {
      ByteIndex(k);
      if Slot(k) == i {
        assert Word(i as bv32) == Word(k as bv32);
      } else {
        assert At(after, k) == At(table, k);
      }
    }
  }

  method GenerateCrcTable() returns (table: array<bv32>)
    ensures fresh(table) && IsTable(table[..])
  {
    hide Half, Odd, Add, Low, BitStep;
    table := new bv32[256](_ => 0);
    ghost var p := Word(POLY);
    var i := 0;
    while i < 256
      invariant 0 <= i <= 256
      invariant IsTableUpTo(table[..], i)
    {
      var crc := i as bv32;
      ghost var start := crc;
      for j := 0 to 8
        invariant IsTableUpTo(table[..], i)
        invariant Word(crc) == BitSteps(p, Word(start), Zeros(j))
      {
        SourceShift(crc);
        ShiftIsBitStep(crc);
        ZeroStepsSnoc(p, Word(start), j);
        crc := (crc >> 1) ^ (0xEDB88320 * (crc & 1));
      }
      ghost var was := table[..];
      table[i] := crc;
      EntryWritten(was, i, crc);
      assert table[..] == was[i := crc];
      i := i + 1;
    }
    forall k: bv8 ensures IsEntry(At(table[..], k), k) { ByteIndex(k); }
  }

  // ---------- The checksum ----------

  const ONES: bv32 := 0xFFFF_FFFF

  function InitialCrc32(): bv32 { 0xFFFF_FFFF }

  function FinalizeCrc32(crc: bv32): bv32 { !crc }

  /** `crc` is the register after `data`, started from all ones. */
  ghost predicate IsState(crc: bv32, data: seq<bv8>) {
    Word(crc) == BitSteps(Word(POLY), Word(ONES), MessageBits(data))
  }

  /** `c` is the checksum of `data`: the complement of that register. */
  ghost predicate IsCrc(c: bv32, data: seq<bv8>) {
    IsState(!c, data)
  }

  lemma MessageBitsSnoc(data: seq<bv8>, c: bv8)
    ensures MessageBits(data + [c]) == MessageBits(data) + Byte(c)
  {
    MessageBitsConcat(data, [c]);
    assert MessageBits([c]) == Byte(c) + MessageBits([]) == Byte(c);
  }

  lemma AbsorbByte(table: seq<bv32>, init: bv32, data: seq<bv8>, crc: bv32, c: bv8)
    requires IsTable(table)
    requires Word(crc) == BitSteps(Word(POLY), Word(init), MessageBits(data))
    ensures Word(LookUpStep(crc, At(table, Index(crc, c)))) ==
            BitSteps(Word(POLY), Word(init), MessageBits(data + [c]))
  {
    hide Low, BitStep, Odd, Half, Index, LookUpStep, Byte;
    TableStep(crc, c, At(table, Index(crc, c)));
    MessageBitsSnoc(data, c);
    BitStepsConcat(Word(POLY), Word(init), MessageBits(data), Byte(c));
  }

  lemma AbsorbState(table: seq<bv32>, data: seq<bv8>, crc: bv32, c: bv8)
    requires IsTable(table) && IsState(crc, data)
    ensures IsState(LookUpStep(crc, At(table, Index(crc, c))), data + [c])
  {
    hide Low, BitStep, BitSteps, Odd, Half, Index, LookUpStep, Byte, IsTable, MessageBits;
    AbsorbByte(table, ONES, data, crc, c);
  }

  lemma NoBits(crc: bv32, input: seq<bv8>)
    ensures MessageBits(input[..0]) == [] && BitSteps(Word(POLY), Word(crc), []) == Word(crc)
  {}

  lemma StateAtStart()
    ensures IsState(ONES, [])
  {}

  /** The table look-up for one byte, the loop body of both checksum loops. */
  method LookUp(table: array<bv32>, crc: bv32, c: bv8) returns (r: bv32)
    requires table.Length == 256
    ensures r == LookUpStep(crc, At(table[..], Index(crc, c)))
  {
    hide Index, LookUpStep, Slot;
    var i := Slot(Index(crc, c));
    assert table[..][i] == table[i];
    r := LookUpStep(crc, table[i]);
  }

  method IncrementalCrc32(table: array<bv32>, crc0: bv32, input: seq<bv8>) returns (crc: bv32)
    requires IsTable(table[..])
    ensures Word(crc) == BitSteps(Word(POLY), Word(crc0), MessageBits(input))
  {
    hide Low, BitStep, BitSteps, Odd, Half, Index, LookUpStep, At, MessageBits;
    crc := crc0;
    NoBits(crc0, input);
    for n := 0 to |input|
      invariant Word(crc) == BitSteps(Word(POLY), Word(crc0), MessageBits(input[..n]))
    {
      AbsorbByte(table[..], crc0, input[..n], crc, input[n]);
      assert input[..n] + [input[n]] == input[..n + 1];
      crc := LookUp(table, crc, input[n]);
    }
    assert input[..|input|] == input;
  }

  /** The inner loop of the file checksum, `before` being what was read earlier. */
  method AbsorbBuffer(table: array<bv32>, crc0: bv32, buffer: seq<bv8>, ghost before: seq<bv8>) returns (crc: bv32)
    requires IsTable(table[..]) && IsState(crc0, before)
    ensures IsState(crc, before + buffer)
  {
    hide Low, BitStep, Odd, Half, IsState, Index, LookUpStep, At, IsEntry;
    crc := crc0;
    assert before + buffer[..0] == before;
    for i := 0 to |buffer|
      invariant IsState(crc, before + buffer[..i])
    {
      AbsorbState(table[..], before + buffer[..i], crc, buffer[i]);
      assert before + buffer[..i] + [buffer[i]] == before + buffer[..i + 1];
      crc := LookUp(table, crc, buffer[i]);
    }
    assert buffer[..|buffer|] == buffer;
  }

  const BUFFER_SIZE := 4096

  /**
    `file` is the content of the file, or None when it cannot be opened. Every pass of the loop
    reads the next 4096 bytes, or what is left; a short read ends it.
   */
  method CalculateCrc32(table: array<bv32>, file: Option<seq<bv8>>) returns (r: Option<bv32>)
    requires IsTable(table[..])
    ensures r.None? <==> file.None?
    ensures r.Some? ==> IsCrc(r.value, file.value)
  {
    hide Low, BitStep, Odd, Half, IsState, Index, LookUpStep, At, IsEntry;
    if file.None? { return None; }
    StateAtStart();
    var crc := ONES;
    var pos := 0;
    var more := true;
    while more
      invariant 0 <= pos <= |file.value|
      invariant !more ==> pos == |file.value|
      invariant IsState(crc, file.value[..pos])
      decreases |file.value| - pos, more
    {
      var count := if |file.value| - pos < BUFFER_SIZE then |file.value| - pos else BUFFER_SIZE;
      var buffer := file.value[pos..pos + count];
      crc := AbsorbBuffer(table, crc, buffer, file.value[..pos]);
      assert file.value[..pos] + buffer == file.value[..pos + count];
      pos := pos + count;
      more := count == BUFFER_SIZE;
    }
    assert file.value[..pos] == file.value;
    DoubleComplement(crc);
    return Some(!crc);
  }

  lemma DoubleComplement(x: bv32)
    ensures !!x == x
  {}

  // ---------- What the checksum promises ----------

  /** `r` is the remainder of the message polynomial, presented with an all-ones register. */
  ghost predicate IsRemainder(data: seq<bv8>, r: Register) {
    exists q :: Divides(Word(POLY), Word(ONES), MessageBits(data), q, r)
  }

  /** A checksum is the complemented remainder of the division. */
  lemma CrcIsRemainder(data: seq<bv8>, c: bv32)
    ensures IsCrc(c, data) <==> IsRemainder(data, Word(!c))
  {
    hide Low;
    RegisterIsRemainder(Word(POLY), Word(ONES), MessageBits(data), Word(!c));
  }

  lemma CrcUnique(data: seq<bv8>, c: bv32, d: bv32)
    requires IsCrc(c, data) && IsCrc(d, data)
    ensures c == d
  {
    hide Low;
    WordInjective(!c, !d);
    DoubleComplement(c);
    DoubleComplement(d);
  }

  lemma PolyHasConstantTerm()
    ensures Word(POLY)[31]
  {
    LowSkips(POLY, 31, 1);
    EightHalves(POLY);
    EightHalves(DropByte(POLY));
    EightHalves(DropByte(DropByte(POLY)));
    HalvesSum(POLY, 8, 23);
    HalvesSum(DropByte(POLY), 8, 15);
    HalvesSum(DropByte(DropByte(POLY)), 8, 7);
    assert DropByte(DropByte(DropByte(POLY))) == 0xED;
    assert Halves(0xED, 4) == 0xE;
    HalvesSum(0xED, 4, 3);
    assert Halves(0xE, 3) == 1;
    assert Low(1, 1) == [true];
  }

  /** Equal-length messages that differ only inside 32 consecutive bits have different checksums. */
  lemma BurstChangesCrc(x: seq<bv8>, y: seq<bv8>, before: Bits, u: Bits, v: Bits, after: Bits, c: bv32, d: bv32)
    requires MessageBits(x) == before + u + after && MessageBits(y) == before + v + after
    requires |u| == |v| <= 32 && u != v
    requires IsCrc(c, x) && IsCrc(d, y)
    ensures c != d
  {
    hide Low;
    PolyHasConstantTerm();
    BurstDetected(Word(POLY), Word(ONES), before, u, v, after);
  }

  lemma {:induction false} MessageBitsInjective(x: seq<bv8>, y: seq<bv8>)
    requires |x| == |y| && MessageBits(x) == MessageBits(y)
    ensures x == y
    decreases |x|
  {
    hide Low, Byte;
    if x == [] { return; }
    assert Byte(x[0]) == MessageBits(x)[..8] && MessageBits(x[1..]) == MessageBits(x)[8..];
    assert Byte(y[0]) == MessageBits(y)[..8] && MessageBits(y[1..]) == MessageBits(y)[8..];
    MessageBitsInjective(x[1..], y[1..]);
    WordOfByte(x[0]);
    WordOfByte(y[0]);
    WordInjective(x[0] as bv32, y[0] as bv32);
    assert x == [x[0]] + x[1..] && y == [y[0]] + y[1..];
  }

  lemma {:induction false} MessageBitsLength(x: seq<bv8>)
    ensures |MessageBits(x)| == 8 * |x|
  {
    if x != [] { MessageBitsLength(x[1..]); }
  }

  /** The byte form: corrupting up to four consecutive bytes is always noticed. */
  lemma FourByteBurstChangesCrc(before: seq<bv8>, u: seq<bv8>, v: seq<bv8>, after: seq<bv8>, c: bv32, d: bv32)
    requires |u| == |v| <= 4 && u != v
    requires IsCrc(c, before + u + after) && IsCrc(d, before + v + after)
    ensures c != d
  {
    hide Low;
    MessageBitsConcat(before + u, after);
    MessageBitsConcat(before, u);
    MessageBitsConcat(before + v, after);
    MessageBitsConcat(before, v);
    MessageBitsLength(u);
    MessageBitsLength(v);
    if MessageBits(u) == MessageBits(v) { MessageBitsInjective(u, v); }
    BurstChangesCrc(before + u + after, before + v + after,
                    MessageBits(before), MessageBits(u), MessageBits(v), MessageBits(after), c, d);
  }
}
