// CRC-32 of section 8 of RFC 1952, as a fold over bytes, and its power to detect damage.
module Crc32 {
  import opened Folds

  const POLYNOMIAL: bv32 := 0xedb88320

  const BITS_PER_BYTE: nat := 8

  // One bit of the register: the inner loop of make_crc_table.
  function Shift(c: bv32): bv32 {
    if c & 1 == 1 then POLYNOMIAL ^ (c >> 1) else c >> 1
  }

  // (The state is part of the measure so that the verifier does not run a constant count through.)
  function Iterate<T>(f: T -> T, c: T, n: nat): T
    decreases n, c
  {
    if n == 0 then c else Iterate(f, f(c), n - 1)
  }

  function Shifts(c: bv32, n: nat): bv32 {
    Iterate(Shift, c, n)
  }

  // The entry of the table for a byte.
  function TableEntry(b: bv32): bv32 {
    Shifts(b, BITS_PER_BYTE)
  }

  // One byte of the message: the loop of update_crc.
  function Update(c: bv32, b: bv8): bv32 {
    TableEntry((c ^ b as bv32) & 0xff) ^ (c >> 8)
  }

  function Fold(c: bv32, message: seq<bv8>): bv32 {
    FoldLeft(Update, c, message)
  }

  function Checksum(message: seq<bv8>): bv32 {
    Fold(0xffff_ffff, message) ^ 0xffff_ffff
  }

  // ---- the register is linear and invertible ----

  lemma ShiftEqualParity(a: bv32, b: bv32)
    requires (a ^ b) & 1 == 0
    ensures Shift(a) ^ Shift(b) == (a ^ b) >> 1
  {
  }

  lemma ShiftOppositeParity(a: bv32, b: bv32)
    requires (a ^ b) & 1 == 1
    ensures Shift(a) ^ Shift(b) == POLYNOMIAL ^ ((a ^ b) >> 1)
  {
  }

  lemma ShiftLinear(sum: bv32, a: bv32, b: bv32)
    requires sum == a ^ b
    ensures Shift(sum) == Shift(a) ^ Shift(b)
  {
    if (a ^ b) & 1 == 0 {
      ShiftEqualParity(a, b);
    } else {
      ShiftOppositeParity(a, b);
    }
  }

  lemma ShiftInjective(a: bv32, b: bv32)
    requires Shift(a) == Shift(b)
    ensures a == b
  {
  }

  // Induction over the number of steps, for any step function, so that the solver sees no bits here.
  lemma {:induction false} IterateKeeps<T(!new)>(f: T -> T, related: (T, T, T) -> bool, a: T, b: T, c: T, n: nat)
    requires forall x, y, z :: related(x, y, z) ==> related(f(x), f(y), f(z))
    requires related(a, b, c)
    ensures related(Iterate(f, a, n), Iterate(f, b, n), Iterate(f, c, n))
    decreases n
  {
    if n != 0 {
      IterateKeeps(f, related, f(a), f(b), f(c), n - 1);
    }
  }

  lemma {:induction false} IterateInjective<T(!new)>(f: T -> T, a: T, b: T, n: nat)
    requires forall x, y :: f(x) == f(y) ==> x == y
    requires Iterate(f, a, n) == Iterate(f, b, n)
    ensures a == b
    decreases n
  {
    if n != 0 {
      IterateInjective(f, f(a), f(b), n - 1);
    }
  }

  function Xor(a: bv32, b: bv32): bv32 {
    a ^ b
  }

  ghost predicate IsSum(sum: bv32, a: bv32, b: bv32) {
    sum == a ^ b
  }

  lemma ShiftsLinear(sum: bv32, a: bv32, b: bv32, n: nat)
    requires sum == a ^ b
    ensures Shifts(sum, n) == Shifts(a, n) ^ Shifts(b, n)
  {
    forall x: bv32, y: bv32, z: bv32 | IsSum(x, y, z) ensures IsSum(Shift(x), Shift(y), Shift(z)) {
      ShiftLinear(x, y, z);
    }
    IterateKeeps(Shift, (x, y, z) => IsSum(x, y, z), sum, a, b, n);
    assert IsSum(Shifts(sum, n), Shifts(a, n), Shifts(b, n));
  }

  lemma ShiftsInjective(a: bv32, b: bv32, n: nat)
    requires Shifts(a, n) == Shifts(b, n)
    ensures a == b
  {
    forall x, y | Shift(x) == Shift(y) ensures x == y {
      ShiftInjective(x, y);
    }
    IterateInjective(Shift, a, b, n);
  }

  lemma ShiftEven(c: bv32)
    requires c & 1 == 0
    ensures Shift(c) == c >> 1
  {
  }

  lemma ShiftsStep(c: bv32, d: bv32, n: nat)
    requires n > 0 && Shift(c) == d
    ensures Shifts(c, n) == Shifts(d, n - 1)
  {
  }

  lemma EightZeroes(c: bv32, n: nat)
    requires c & 0xff == 0 && n == BITS_PER_BYTE
    ensures Shifts(c, n) == c >> 8
  {
    var c1 := c >> 1;
    var c2 := c1 >> 1;
    var c3 := c2 >> 1;
    var c4 := c3 >> 1;
    var c5 := c4 >> 1;
    var c6 := c5 >> 1;
    var c7 := c6 >> 1;
    assert c & 1 == 0 && c1 & 1 == 0 && c2 & 1 == 0 && c3 & 1 == 0
        && c4 & 1 == 0 && c5 & 1 == 0 && c6 & 1 == 0 && c7 & 1 == 0;
    ShiftEven(c); ShiftEven(c1); ShiftEven(c2); ShiftEven(c3);
    ShiftEven(c4); ShiftEven(c5); ShiftEven(c6); ShiftEven(c7);
    ShiftsStep(c, c1, n); ShiftsStep(c1, c2, n - 1); ShiftsStep(c2, c3, n - 2); ShiftsStep(c3, c4, n - 3);
    ShiftsStep(c4, c5, n - 4); ShiftsStep(c5, c6, n - 5); ShiftsStep(c6, c7, n - 6); ShiftsStep(c7, c7 >> 1, n - 7);
    assert Shifts(c7 >> 1, n - 8) == c7 >> 1;
  }

  lemma SplitLowByte(x: bv32)
    ensures x == (x & 0xff) ^ (x & 0xffff_ff00)
    ensures (x & 0xffff_ff00) & 0xff == 0
    ensures (x & 0xffff_ff00) >> 8 == x >> 8
  {
  }

  // ---- one byte of the table loop is eight register steps ----

  lemma LowAndHigh(x: bv32, low: bv32, high: bv32)
    requires low == x & 0xff && high == x & 0xffff_ff00
    ensures x == Xor(low, high)
  {
    SplitLowByte(x);
  }

  lemma HighShifts(x: bv32, high: bv32, top: bv32, n: nat)
    requires high == x & 0xffff_ff00 && top == x >> 8 && n == BITS_PER_BYTE
    ensures Shifts(high, n) == top
  {
    EightZeroes(high, n);
  }

  lemma MixedByteShift(c: bv32, b: bv8, x: bv32, top: bv32)
    requires x == c ^ b as bv32 && top == c >> 8
    ensures top == x >> 8
  {
  }

  lemma StepOfSum<T>(mix: (T, T) -> T, all: T, low: T, high: T, top: T)
    requires all == mix(low, high) && high == top
    ensures all == mix(low, top)
  {
  }

  lemma ShiftsOfSum(x: bv32, low: bv32, high: bv32, n: nat)
    requires x == Xor(low, high)
    ensures Shifts(x, n) == Xor(Shifts(low, n), Shifts(high, n))
  {
    ShiftsLinear(x, low, high, n);
  }

  lemma TableStep(x: bv32, low: bv32, high: bv32, top: bv32, n: nat)
    requires low == x & 0xff && high == x & 0xffff_ff00 && top == x >> 8
    requires n == BITS_PER_BYTE
    ensures Xor(Shifts(low, n), top) == Shifts(x, n)
  {
    LowAndHigh(x, low, high);
    HighShifts(x, high, top, n);
    ShiftsOfSum(x, low, high, n);
    StepOfSum(Xor, Shifts(x, n), Shifts(low, n), Shifts(high, n), top);
  }

  lemma TableStepAt(c: bv32, b: bv8, x: bv32, low: bv32, top: bv32, n: nat)
    requires x == c ^ b as bv32 && low == (c ^ b as bv32) & 0xff && top == c >> 8 && n == BITS_PER_BYTE
    ensures Xor(Shifts(low, n), top) == Shifts(x, n)
  {
    MixedByteShift(c, b, x, top);
    TableStep(x, low, x & 0xffff_ff00, top, n);
  }

  lemma UpdateIsEightShifts(c: bv32, b: bv8)
    ensures Update(c, b) == Shifts(c ^ b as bv32, BITS_PER_BYTE)
  {
    TableStepAt(c, b, c ^ b as bv32, (c ^ b as bv32) & 0xff, c >> 8, BITS_PER_BYTE);
  }

  lemma UpdateInjective(c: bv32, c': bv32, b: bv8, x: bv32, x': bv32)
    requires x == c ^ b as bv32 && x' == c' ^ b as bv32
    requires Update(c, b) == Update(c', b)
    ensures c == c'
  {
    UpdateIsEightShifts(c, b);
    UpdateIsEightShifts(c', b);
    ShiftsInjective(x, x', BITS_PER_BYTE);
  }

  // ---- four adjacent bytes ----

  // Feeding four bytes one at a time is four steps on the sum of all four, each moved up to where
  // the steps before it will have taken it down again.
  lemma FourSteps<T(!new)>(mix: (T, T) -> T, step: T -> T, c: T, b0: T, b1: T, b2: T, b3: T,
                           up1: T, up2: T, up22: T, up3: T, up33: T, up333: T)
    requires forall x, y :: step(mix(x, y)) == mix(step(x), step(y))
    requires step(up1) == b1
    requires step(up2) == b2 && step(up22) == up2
    requires step(up3) == b3 && step(up33) == up3 && step(up333) == up33
    ensures step(mix(step(mix(step(mix(step(mix(c, b0)), b1)), b2)), b3))
            == step(step(step(step(mix(mix(mix(mix(c, b0), up1), up22), up333)))))
  {
    var m0 := mix(c, b0);
    var m1 := mix(m0, up1);
    var m2 := mix(m1, up22);
    var m3 := mix(m2, up333);
    assert step(m1) == mix(step(m0), b1);
    assert step(m2) == mix(step(m1), up2);
    assert step(step(m2)) == mix(step(step(m1)), b2);
    assert step(m3) == mix(step(m2), up33);
    assert step(step(m3)) == mix(step(step(m2)), up3);
    assert step(step(step(m3))) == mix(step(step(step(m2))), b3);
  }

  function Step(c: bv32): bv32 {
    Shifts(c, BITS_PER_BYTE)
  }

  function Widen(b: bv8): bv32 {
    b as bv32
  }

  // The byte b moved up by one, two or three bytes.
  function Up1(b: bv8): bv32 { (b as bv32) << 8 }
  function Up2(b: bv8): bv32 { (b as bv32) << 16 }
  function Up3(b: bv8): bv32 { (b as bv32) << 24 }

  function Mixed(c: bv32, b0: bv8, b1: bv8, b2: bv8, b3: bv8): bv32 {
    Xor(Xor(Xor(Xor(c, Widen(b0)), Up1(b1)), Up2(b2)), Up3(b3))
  }

  lemma StepsOfSum()
    ensures forall x, y :: Step(Xor(x, y)) == Xor(Step(x), Step(y))
  {
    forall x, y ensures Step(Xor(x, y)) == Xor(Step(x), Step(y)) {
      ShiftsOfSum(Xor(x, y), x, y, BITS_PER_BYTE);
    }
  }

  lemma StepDown(c: bv32, d: bv32)
    requires c & 0xff == 0 && d == c >> 8
    ensures Step(c) == d
  {
    EightZeroes(c, BITS_PER_BYTE);
  }

  lemma StepUp1(b: bv8)
    ensures Step(Up1(b)) == Widen(b)
  {
    StepDown(Up1(b), Widen(b));
  }

  lemma StepUp2(b: bv8)
    ensures Step(Up2(b)) == Up1(b)
  {
    StepDown(Up2(b), Up1(b));
  }

  lemma StepUp3(b: bv8)
    ensures Step(Up3(b)) == Up2(b)
  {
    StepDown(Up3(b), Up2(b));
  }

  lemma UpdateIsStep(c: bv32, b: bv8)
    ensures Update(c, b) == Step(Xor(c, Widen(b)))
  {
    UpdateIsEightShifts(c, b);
  }

  lemma FourUpdates(c: bv32, b0: bv8, b1: bv8, b2: bv8, b3: bv8)
    ensures Update(Update(Update(Update(c, b0), b1), b2), b3)
            == Step(Step(Step(Step(Mixed(c, b0, b1, b2, b3)))))
  {
    var c1 := Update(c, b0);
    var c2 := Update(c1, b1);
    var c3 := Update(c2, b2);
    UpdateIsStep(c, b0);
    UpdateIsStep(c1, b1);
    UpdateIsStep(c2, b2);
    UpdateIsStep(c3, b3);
    StepsOfSum();
    StepUp1(b1); StepUp1(b2); StepUp1(b3);
    StepUp2(b2); StepUp2(b3);
    StepUp3(b3);
    FourSteps(Xor, Step, c, Widen(b0), Widen(b1), Widen(b2), Widen(b3),
              Up1(b1), Up1(b2), Up2(b2), Up1(b3), Up2(b3), Up3(b3));
  }

  // Sums of one value with four embedded bytes are equal only if the bytes are, when each byte is
  // placed above what the earlier ones can touch.
  lemma PlacedBytesInjective<T(!new), B(!new)>(
      mix: (T, T) -> T, p0: B -> T, p1: B -> T, p2: B -> T, p3: B -> T,
      low1: T -> T, low2: T -> T, low3: T -> T,
      c: T, b0: B, b1: B, b2: B, b3: B, d0: B, d1: B, d2: B, d3: B)
    requires forall x, b :: low3(mix(x, p3(b))) == low3(x) && low2(mix(x, p2(b))) == low2(x)
                            && low1(mix(x, p1(b))) == low1(x)
    requires forall x, y :: low3(x) == low3(y) ==> low2(x) == low2(y)
    requires forall x, y :: low2(x) == low2(y) ==> low1(x) == low1(y)
    requires forall x, b, d :: low1(mix(x, p0(b))) == low1(mix(x, p0(d))) ==> b == d
    requires forall x, b, d :: low2(mix(x, p1(b))) == low2(mix(x, p1(d))) ==> b == d
    requires forall x, b, d :: low3(mix(x, p2(b))) == low3(mix(x, p2(d))) ==> b == d
    requires forall x, b, d :: mix(x, p3(b)) == mix(x, p3(d)) ==> b == d
    requires mix(mix(mix(mix(c, p0(b0)), p1(b1)), p2(b2)), p3(b3))
          == mix(mix(mix(mix(c, p0(d0)), p1(d1)), p2(d2)), p3(d3))
    ensures b0 == d0 && b1 == d1 && b2 == d2 && b3 == d3
  {
    var x1, y1 := mix(c, p0(b0)), mix(c, p0(d0));
    var x2, y2 := mix(x1, p1(b1)), mix(y1, p1(d1));
    var x3, y3 := mix(x2, p2(b2)), mix(y2, p2(d2));
    assert low3(x3) == low3(mix(x3, p3(b3))) == low3(mix(y3, p3(d3))) == low3(y3);
    assert low2(x2) == low2(x3) == low2(y3) == low2(y2);
    assert low1(x1) == low1(x2) == low1(y2) == low1(y1);
  }

  function Low1(x: bv32): bv32 { x & 0xff }
  function Low2(x: bv32): bv32 { x & 0xffff }
  function Low3(x: bv32): bv32 { x & 0xff_ffff }

  lemma Up1Above(x: bv32, b: bv8)
    ensures Low1(Xor(x, Up1(b))) == Low1(x)
  {
  }

  lemma Up2Above(x: bv32, b: bv8)
    ensures Low2(Xor(x, Up2(b))) == Low2(x)
  {
  }

  lemma Up3Above(x: bv32, b: bv8)
    ensures Low3(Xor(x, Up3(b))) == Low3(x)
  {
  }

  lemma LowerPart(x: bv32, y: bv32)
    ensures Low3(x) == Low3(y) ==> Low2(x) == Low2(y)
    ensures Low2(x) == Low2(y) ==> Low1(x) == Low1(y)
  {
  }

  lemma WidenInjective(x: bv32, b: bv8, d: bv8)
    requires Low1(Xor(x, Widen(b))) == Low1(Xor(x, Widen(d)))
    ensures b == d
  {
  }

  lemma Up1Injective(x: bv32, b: bv8, d: bv8)
    requires Low2(Xor(x, Up1(b))) == Low2(Xor(x, Up1(d)))
    ensures b == d
  {
  }

  lemma Up2Injective(x: bv32, b: bv8, d: bv8)
    requires Low3(Xor(x, Up2(b))) == Low3(Xor(x, Up2(d)))
    ensures b == d
  {
  }

  lemma Up3Injective(x: bv32, b: bv8, d: bv8)
    requires Xor(x, Up3(b)) == Xor(x, Up3(d))
    ensures b == d
  {
  }

  lemma PlacedAbove()
    ensures forall x, b :: Low3(Xor(x, Up3(b))) == Low3(x)
    ensures forall x, b :: Low2(Xor(x, Up2(b))) == Low2(x)
    ensures forall x, b :: Low1(Xor(x, Up1(b))) == Low1(x)
  {
    forall x, b ensures Low3(Xor(x, Up3(b))) == Low3(x) {
      Up3Above(x, b);
    }
    forall x, b ensures Low2(Xor(x, Up2(b))) == Low2(x) {
      Up2Above(x, b);
    }
    forall x, b ensures Low1(Xor(x, Up1(b))) == Low1(x) {
      Up1Above(x, b);
    }
  }

  lemma PlacedInjective()
    ensures forall x, b, d :: Low1(Xor(x, Widen(b))) == Low1(Xor(x, Widen(d))) ==> b == d
    ensures forall x, b, d :: Low2(Xor(x, Up1(b))) == Low2(Xor(x, Up1(d))) ==> b == d
    ensures forall x, b, d :: Low3(Xor(x, Up2(b))) == Low3(Xor(x, Up2(d))) ==> b == d
    ensures forall x, b, d :: Xor(x, Up3(b)) == Xor(x, Up3(d)) ==> b == d
  {
    forall x, b, d | Low1(Xor(x, Widen(b))) == Low1(Xor(x, Widen(d))) ensures b == d {
      WidenInjective(x, b, d);
    }
    forall x, b, d | Low2(Xor(x, Up1(b))) == Low2(Xor(x, Up1(d))) ensures b == d {
      Up1Injective(x, b, d);
    }
    forall x, b, d | Low3(Xor(x, Up2(b))) == Low3(Xor(x, Up2(d))) ensures b == d {
      Up2Injective(x, b, d);
    }
    forall x, b, d | Xor(x, Up3(b)) == Xor(x, Up3(d)) ensures b == d {
      Up3Injective(x, b, d);
    }
  }

  lemma LowerParts()
    ensures forall x, y :: Low3(x) == Low3(y) ==> Low2(x) == Low2(y)
    ensures forall x, y :: Low2(x) == Low2(y) ==> Low1(x) == Low1(y)
  {
    forall x, y ensures (Low3(x) == Low3(y) ==> Low2(x) == Low2(y)) && (Low2(x) == Low2(y) ==> Low1(x) == Low1(y)) {
      LowerPart(x, y);
    }
  }

  lemma MixedInjective(c: bv32, b0: bv8, b1: bv8, b2: bv8, b3: bv8, d0: bv8, d1: bv8, d2: bv8, d3: bv8)
    requires Mixed(c, b0, b1, b2, b3) == Mixed(c, d0, d1, d2, d3)
    ensures b0 == d0 && b1 == d1 && b2 == d2 && b3 == d3
  {
    PlacedAbove();
    PlacedInjective();
    LowerParts();
    PlacedBytesInjective(Xor, Widen, Up1, Up2, Up3, Low1, Low2, Low3, c, b0, b1, b2, b3, d0, d1, d2, d3);
  }

  // From one register, different four-byte windows lead to different registers.
  lemma WindowInjective(c: bv32, window: seq<bv8>, window': seq<bv8>)
    requires |window| == |window'| == 4
    requires Fold(c, window) == Fold(c, window')
    ensures window == window'
  {
    FoldLeftFour(Update, c, window);
    FoldLeftFour(Update, c, window');
    FourUpdates(c, window[0], window[1], window[2], window[3]);
    FourUpdates(c, window'[0], window'[1], window'[2], window'[3]);
    FourStepsInjective(Mixed(c, window[0], window[1], window[2], window[3]),
                       Mixed(c, window'[0], window'[1], window'[2], window'[3]));
    MixedInjective(c, window[0], window[1], window[2], window[3], window'[0], window'[1], window'[2], window'[3]);
  }

  lemma FourStepsInjective(a: bv32, b: bv32)
    requires Step(Step(Step(Step(a)))) == Step(Step(Step(Step(b))))
    ensures a == b
  {
    StepInjective(Step(Step(Step(a))), Step(Step(Step(b))));
    StepInjective(Step(Step(a)), Step(Step(b)));
    StepInjective(Step(a), Step(b));
    StepInjective(a, b);
  }

  lemma StepInjective(a: bv32, b: bv32)
    requires Step(a) == Step(b)
    ensures a == b
  {
    ShiftsInjective(a, b, BITS_PER_BYTE);
  }

  lemma UpdatesInjective()
    ensures forall c, c', b :: Update(c, b) == Update(c', b) ==> c == c'
  {
    forall c, c', b | Update(c, b) == Update(c', b) ensures c == c' {
      UpdateInjective(c, c', b, c ^ b as bv32, c' ^ b as bv32);
    }
  }

  lemma WindowChangesFold(c: bv32, window: seq<bv8>, window': seq<bv8>, rest: seq<bv8>)
    requires |window| == |window'| == 4 && window != window'
    ensures Fold(Fold(c, window), rest) != Fold(Fold(c, window'), rest)
  {
    if Fold(Fold(c, window), rest) == Fold(Fold(c, window'), rest) {
      UpdatesInjective();
      FoldLeftInjective(Update, Fold(c, window), Fold(c, window'), rest);
      WindowInjective(c, window, window');
    }
  }

  // Two messages of one length that differ, but only inside four adjacent bytes, have different checksums.
  lemma FourByteDamageChangesChecksum(message: seq<bv8>, damaged: seq<bv8>, at: nat)
    requires |message| == |damaged| && at + 4 <= |message|
    requires message[..at] == damaged[..at] && message[at + 4..] == damaged[at + 4..]
    requires message != damaged
    ensures Checksum(message) != Checksum(damaged)
  {
    var window, window', rest := message[at..at + 4], damaged[at..at + 4], message[at + 4..];
    assert message == message[..at] + window + rest;
    assert damaged == message[..at] + window' + rest;
    SplitFold(message, at);
    SplitFold(damaged, at);
    WindowChangesFold(Fold(0xffff_ffff, message[..at]), window, window', rest);
    FinalXorInjective(Fold(0xffff_ffff, message), Fold(0xffff_ffff, damaged));
  }

  lemma FinalXorInjective(a: bv32, b: bv32)
    requires a != b
    ensures a ^ 0xffff_ffff != b ^ 0xffff_ffff
  {
  }

  lemma SplitFold(message: seq<bv8>, at: nat)
    requires at + 4 <= |message|
    ensures Fold(0xffff_ffff, message)
            == Fold(Fold(Fold(0xffff_ffff, message[..at]), message[at..at + 4]), message[at + 4..])
  {
    assert message == message[..at] + message[at..];
    assert message[at..] == message[at..at + 4] + message[at + 4..];
    FoldLeftConcat(Update, 0xffff_ffff, message[..at], message[at..]);
    FoldLeftConcat(Update, Fold(0xffff_ffff, message[..at]), message[at..at + 4], message[at + 4..]);
  }

  // ---- which checksum it is ----

  // The coefficient of x^e, in the register's reflected order.
  function Coefficient(e: nat): bv32
    requires e < 32
  {
    (1 as bv32) << (31 - e)
  }

  // The generator polynomial is the one of section 8 of RFC 1952, x^32 aside: a register that holds only its lowest
  // bit becomes the polynomial.
  lemma PolynomialOfCrc32()
    ensures Shift(1) == Coefficient(26) | Coefficient(23) | Coefficient(22) | Coefficient(16) | Coefficient(12)
                        | Coefficient(11) | Coefficient(10) | Coefficient(8) | Coefficient(7) | Coefficient(5)
                        | Coefficient(4) | Coefficient(2) | Coefficient(1) | Coefficient(0)
  {
  }

  // Any other register is shifted, and gets the polynomial added if its lowest bit was set.
  lemma ShiftByPolynomial(c: bv32)
    ensures Shift(c) == (c >> 1) ^ (if c & 1 == 1 then Shift(1) else 0)
  {
  }

  lemma UpdateBy(c: bv32, b: bv8, x: bv32, c1: bv32, c2: bv32, c3: bv32, c4: bv32, c5: bv32, c6: bv32, c7: bv32, c8: bv32)
    requires x == c ^ b as bv32 && Shift(x) == c1 && Shift(c1) == c2 && Shift(c2) == c3 && Shift(c3) == c4
    requires Shift(c4) == c5 && Shift(c5) == c6 && Shift(c6) == c7 && Shift(c7) == c8
    ensures Update(c, b) == c8
  {
    UpdateIsEightShifts(c, b);
    EightShifts(x, c1, c2, c3, c4, c5, c6, c7, c8, BITS_PER_BYTE);
  }

  lemma EightShifts(x: bv32, c1: bv32, c2: bv32, c3: bv32, c4: bv32, c5: bv32, c6: bv32, c7: bv32, c8: bv32, n: nat)
    requires Shift(x) == c1 && Shift(c1) == c2 && Shift(c2) == c3 && Shift(c3) == c4
    requires Shift(c4) == c5 && Shift(c5) == c6 && Shift(c6) == c7 && Shift(c7) == c8 && n == BITS_PER_BYTE
    ensures Shifts(x, n) == c8
  {
    ShiftsStep(x, c1, n); ShiftsStep(c1, c2, n - 1); ShiftsStep(c2, c3, n - 2); ShiftsStep(c3, c4, n - 3);
    ShiftsStep(c4, c5, n - 4); ShiftsStep(c5, c6, n - 5); ShiftsStep(c6, c7, n - 6); ShiftsStep(c7, c8, n - 7);
    assert Shifts(c8, n - 8) == c8;
  }

  lemma FoldOne(c: bv32, b: bv8, c': bv32, rest: seq<bv8>)
    requires Update(c, b) == c'
    ensures Fold(c, [b] + rest) == Fold(c', rest)
  {
    assert ([b] + rest)[1..] == rest;
  }

  // The check value of CRC-32, for the nine digits "123456789", and the checksum of nothing.
  lemma CheckValue()
    ensures Checksum([0x31, 0x32, 0x33, 0x34, 0x35, 0x36, 0x37, 0x38, 0x39]) == 0xcbf4_3926
    ensures Checksum([]) == 0
  {
    UpdateBy(0xffffffff, 0x31, 0xffffffce, 0x7fffffe7, 0xd2477cd3, 0x849b3d49, 0xaff51d84,
             0x57fa8ec2, 0x2bfd4761, 0xf8462090, 0x7c231048);
    UpdateBy(0x7c231048, 0x32, 0x7c23107a, 0x3e11883d, 0xf2b0473e, 0x7958239f, 0xd11492ef,
             0x8532ca57, 0xaf21e60b, 0xba287025, 0xb0acbb32);
    UpdateBy(0xb0acbb32, 0x33, 0xb0acbb01, 0xb5eedea0, 0x5af76f50, 0x2d7bb7a8, 0x16bddbd4,
             0x0b5eedea, 0x05af76f5, 0xef6f385a, 0x77b79c2d);
    UpdateBy(0x77b79c2d, 0x34, 0x77b79c19, 0xd6634d2c, 0x6b31a696, 0x3598d34b, 0xf774ea85,
             0x9602f662, 0x4b017b31, 0xc8383eb8, 0x641c1f5c);
    UpdateBy(0x641c1f5c, 0x35, 0x641c1f69, 0xdfb68c94, 0x6fdb464a, 0x37eda325, 0xf64e52b2,
             0x7b272959, 0xd02b178c, 0x68158bc6, 0x340ac5e3);
    UpdateBy(0x340ac5e3, 0x36, 0x340ac5d5, 0xf7bde1ca, 0x7bdef0e5, 0xd057fb52, 0x682bfda9,
             0xd9ad7df4, 0x6cd6befa, 0x366b5f7d, 0xf68d2c9e);
    UpdateBy(0xf68d2c9e, 0x37, 0xf68d2ca9, 0x96fe1574, 0x4b7f0aba, 0x25bf855d, 0xff67418e,
             0x7fb3a0c7, 0xd2615343, 0x84882a81, 0xaffc9660);
    UpdateBy(0xaffc9660, 0x38, 0xaffc9658, 0x57fe4b2c, 0x2bff2596, 0x15ff92cb, 0xe7474a45,
             0x9e1b2602, 0x4f0d9301, 0xca3e4aa0, 0x651f2550);
    UpdateBy(0x651f2550, 0x39, 0x651f2569, 0xdf371194, 0x6f9b88ca, 0x37cdc465, 0xf65e6112,
             0x7b2f3089, 0xd02f1b64, 0x68178db2, 0x340bc6d9);
    var s9: seq<bv8> := [];
    var s8 := [0x39] + s9;
    var s7 := [0x38] + s8;
    var s6 := [0x37] + s7;
    var s5 := [0x36] + s6;
    var s4 := [0x35] + s5;
    var s3 := [0x34] + s4;
    var s2 := [0x33] + s3;
    var s1 := [0x32] + s2;
    var s0 := [0x31] + s1;
    FoldOne(0xffffffff, 0x31, 0x7c231048, s1);
    FoldOne(0x7c231048, 0x32, 0xb0acbb32, s2);
    FoldOne(0xb0acbb32, 0x33, 0x77b79c2d, s3);
    FoldOne(0x77b79c2d, 0x34, 0x641c1f5c, s4);
    FoldOne(0x641c1f5c, 0x35, 0x340ac5e3, s5);
    FoldOne(0x340ac5e3, 0x36, 0xf68d2c9e, s6);
    FoldOne(0xf68d2c9e, 0x37, 0xaffc9660, s7);
    FoldOne(0xaffc9660, 0x38, 0x651f2550, s8);
    FoldOne(0x651f2550, 0x39, 0x340bc6d9, s9);
    assert s0 == [0x31, 0x32, 0x33, 0x34, 0x35, 0x36, 0x37, 0x38, 0x39];
  }
}
