// util::option_set over a 32-bit value.

module OptionSet {
  type Bits = bv32

  type Index = bv6

  const SIZE: Index := 32

  function Bit(b: Bits, i: Index): bool {
    i < SIZE && (b >> i) & 1 == 1
  }

  /** The number of set bits among the n lowest: the reference for count. */
  function PopCount(b: Bits, n: Index): nat
    decreases n
  {
    if n == 0 then 0 else PopCount(b, n - 1) + if Bit(b, n - 1) then 1 else 0
  }

  function SetBits(b: Bits): nat {
    PopCount(b, SIZE)
  }

  // ----- Single bits -----

  lemma AndBit(a: Bits, b: Bits, i: Index)
    ensures Bit(a & b, i) <==> Bit(a, i) && Bit(b, i)
  {
  }

  lemma OrBit(a: Bits, b: Bits, i: Index)
    ensures Bit(a | b, i) <==> Bit(a, i) || Bit(b, i)
  {
  }

  lemma XorBit(a: Bits, b: Bits, i: Index)
    ensures Bit(a ^ b, i) <==> Bit(a, i) != Bit(b, i)
  {
  }

  /** The bits below i. */
  function Below(i: Index): Bits
    requires i <= SIZE
  {
    if i == SIZE then 0xFFFF_FFFF else ((1 as Bits) << i) - 1
  }

  lemma AllBits(b: Bits)
    ensures b & 0xFFFF_FFFF == b
  {
  }

  lemma BelowNext(b: Bits, i: Index)
    requires i < SIZE && b & Below(i) == 0 && !Bit(b, i)
    ensures b & Below(i + 1) == 0
  {
  }

  /** b & (b - 1) is b without its lowest set bit. */
  lemma ClearedBit(b: Bits, k: Index, i: Index)
    requires k < SIZE && i < SIZE && Bit(b, k) && b & Below(k) == 0
    ensures Bit(b & (b - 1), i) <==> Bit(b, i) && i != k
  {
  }

  /** The lowest set bit, none of which lies below i. */
  lemma LowestBit(b: Bits, i: Index) returns (k: Index)
    requires b != 0 && i <= SIZE && b & Below(i) == 0
    ensures k < SIZE && Bit(b, k) && b & Below(k) == 0
    decreases SIZE - i
  {
    AllBits(b);
    if Bit(b, i) {
      k := i;
    } else {
      BelowNext(b, i);
      k := LowestBit(b, i + 1);
    }
  }

  // ----- Counting -----

  /** Among the n lowest bits, c is b without the bit k. */
  predicate Lacks(c: Bits, b: Bits, k: Index, n: Index)
    decreases n
  {
    n == 0 || (Lacks(c, b, k, n - 1) && (Bit(c, n - 1) <==> Bit(b, n - 1) && n - 1 != k))
  }

  lemma {:induction false} ClearedLacks(b: Bits, k: Index, n: Index)
    requires k < SIZE && n <= SIZE && Bit(b, k) && b & Below(k) == 0
    ensures Lacks(b & (b - 1), b, k, n)
    decreases n
  {
    if n > 0 {
      ClearedLacks(b, k, n - 1);
      ClearedBit(b, k, n - 1);
    }
  }

  lemma {:induction false} CountWithout(c: Bits, b: Bits, k: Index, n: Index)
    requires Lacks(c, b, k, n) && Bit(b, k)
    ensures PopCount(c, n) + (if k < n then 1 else 0) == PopCount(b, n)
    decreases n
  {
    if n > 0 {
      CountWithout(c, b, k, n - 1);
    }
  }

  /** Clearing the lowest set bit removes exactly one. */
  lemma ClearLowest(b: Bits)
    requires b != 0
    ensures SetBits(b & (b - 1)) + 1 == SetBits(b)
  {
    var k := LowestBit(b, 0);
    ClearedLacks(b, k, SIZE);
    CountWithout(b & (b - 1), b, k, SIZE);
  }

  /** One bit counts as one, and none as none; with the laws of counting this settles every value. */
  lemma OneBit(i: Index)
    requires i < 32
    ensures SetBits((1 as Bits) << i) == 1 && SetBits(0) == 0
  {
    NoBits(SIZE);
    var b := (1 as Bits) << i;
    ShiftedOne(i);
    ClearLowest(b);
  }

  lemma ShiftedOne(i: Index)
    requires i < 32
    ensures var b := (1 as Bits) << i; b != 0 && b & (b - 1) == 0
  {
  }

  lemma ClearLowestIsLess(b: Bits)
    requires b != 0
    ensures b & (b - 1) < b
  {
  }

  /** Among the n lowest bits, the three results are the Boolean combinations. */
  predicate Combined(a: Bits, b: Bits, both: Bits, either: Bits, one: Bits, n: Index)
    decreases n
  {
    n == 0 || (Combined(a, b, both, either, one, n - 1) && BitCombined(a, b, both, either, one, n - 1))
  }

  predicate BitCombined(a: Bits, b: Bits, both: Bits, either: Bits, one: Bits, i: Index) {
    && (Bit(both, i) <==> Bit(a, i) && Bit(b, i))
    && (Bit(either, i) <==> Bit(a, i) || Bit(b, i))
    && (Bit(one, i) <==> Bit(a, i) != Bit(b, i))
  }

  /** Bit by bit, the operators are the Boolean ones. */
  lemma BitsCombine(a: Bits, b: Bits, both: Bits, either: Bits, one: Bits, i: Index)
    requires both == a & b && either == a | b && one == a ^ b
    ensures BitCombined(a, b, both, either, one, i)
  {
    AndBit(a, b, i);
    OrBit(a, b, i);
    XorBit(a, b, i);
  }

  lemma {:induction false} OperatorsCombine(a: Bits, b: Bits, both: Bits, either: Bits, one: Bits, n: Index)
    requires both == a & b && either == a | b && one == a ^ b
    ensures Combined(a, b, both, either, one, n)
    decreases n
  {
    if n > 0 {
      OperatorsCombine(a, b, both, either, one, n - 1);
      BitsCombine(a, b, both, either, one, n - 1);
    }
  }

  lemma {:induction false} CountsAddUp(a: Bits, b: Bits, both: Bits, either: Bits, one: Bits, n: Index)
    requires Combined(a, b, both, either, one, n)
    ensures PopCount(both, n) + PopCount(either, n) == PopCount(a, n) + PopCount(b, n)
    ensures PopCount(one, n) + PopCount(both, n) == PopCount(either, n)
    decreases n
  {
    if n > 0 {
      CountsAddUp(a, b, both, either, one, n - 1);
    }
  }

  /** Inclusion and exclusion: the counts of the intersection and the union add up, and the symmetric
      difference is what is in the union but not in the intersection. */
  lemma CountLaws(a: Bits, b: Bits)
    ensures SetBits(a & b) + SetBits(a | b) == SetBits(a) + SetBits(b)
    ensures SetBits(a ^ b) == SetBits(a | b) - SetBits(a & b)
  {
    OperatorsCombine(a, b, a & b, a | b, a ^ b, SIZE);
    CountsAddUp(a, b, a & b, a | b, a ^ b, SIZE);
  }

  /** A set of options. An option may be several bits at once. */
  class OptionSet {
    var value: Bits

    constructor (value: Bits)
      ensures this.value == value
    {
      this.value := value;
    }

    /** Whether any bit of the option is in the set. */
    predicate Test(option: Bits): (found: bool)
      reads this
      ensures found <==> value & option != 0
    {
      Meets(value, option)
    }

    method Set(option: Bits)
      modifies this
      ensures value == old(value) | option
      ensures value == With(old(value), option)
    {
      value := value | option;
    }

    method Clear(option: Bits)
      modifies this
      ensures value == old(value) & !option
      ensures value == Without(old(value), option)
    {
      value := value & !option;
    }

    method Toggle(option: Bits)
      modifies this
      ensures value == old(value) ^ option
      ensures value == Toggled(old(value), option)
    {
      value := value ^ option;
    }

    method ToggleAll()
      modifies this
      ensures value == !old(value)
      ensures SetBits(value) == 32 - old(SetBits(value))
    {
      ComplementCount(value);
      value := !value;
    }

    method Count() returns (total: nat)
      ensures total == SetBits(value)
    {
      var bits := value;
      total := 0;
      while bits != 0
        invariant total + SetBits(bits) == SetBits(value)
        decreases bits
      {
        ClearLowest(bits);
        ClearLowestIsLess(bits);
        bits := bits & (bits - 1);
        total := total + 1;
      }
      NoBits(SIZE);
    }
  }

  /** Two options share a bit. */
  predicate Meets(a: Bits, b: Bits) {
    a & b != 0
  }

  /** Some bit of the option is not in the value. */
  predicate Lacking(value: Bits, option: Bits) {
    !value & option != 0
  }

  /** The value has a bit of `other` that is not one of the option's. */
  predicate MeetsBeside(value: Bits, option: Bits, other: Bits) {
    value & (other & !option) != 0
  }

  lemma AndOverOr(a: Bits, b: Bits, c: Bits)
    ensures (a | b) & c == (a & c) | (b & c)
  {
  }

  lemma OrIsZero(a: Bits, b: Bits)
    ensures a | b == 0 <==> a == 0 && b == 0
  {
  }

  lemma SetMeets(value: Bits, option: Bits, other: Bits)
    ensures Meets(value | option, other) <==> Meets(value, other) || Meets(option, other)
  {
    AndOverOr(value, option, other);
    OrIsZero(value & other, option & other);
  }

  lemma AndSwaps(a: Bits, b: Bits, c: Bits)
    ensures (a & b) & c == a & (c & b)
  {
  }

  lemma ClearMeets(value: Bits, option: Bits, other: Bits)
    ensures Meets(value & !option, other) <==> MeetsBeside(value, option, other)
  {
    AndSwaps(value, !option, other);
  }

  lemma ToggleMisses(value: Bits, option: Bits, other: Bits)
    requires !Meets(option, other)
    ensures Meets(value ^ option, other) <==> Meets(value, other)
  {
  }

  lemma ToggleMeets(value: Bits, option: Bits, other: Bits)
    requires !Meets(other, !option)
    ensures Meets(value ^ option, other) <==> Lacking(value, other)
  {
  }

  /** With the option set: an option is in the set if it was, or shares a bit with this one. */
  function With(value: Bits, option: Bits): (r: Bits)
    ensures forall other :: Meets(r, other) <==> Meets(value, other) || Meets(option, other)
    ensures SetBits(r) == SetBits(value) + SetBits(option) - SetBits(value & option)
  {
    CountLaws(value, option);
    forall other
      ensures Meets(value | option, other) <==> Meets(value, other) || Meets(option, other)
    {
      SetMeets(value, option, other);
    }
    value | option
  }

  /** With the option cleared: an option is in the set if it was, with a bit that is not one of this one's. */
  function Without(value: Bits, option: Bits): (r: Bits)
    ensures !Meets(r, option)
    ensures forall other :: Meets(r, other) <==> MeetsBeside(value, option, other)
    ensures SetBits(r) == SetBits(value) - SetBits(value & option)
  {
    CountLaws(value & option, value & !option);
    Partition(value, option);
    NoBits(SIZE);
    NothingBesideItself(value, option);
    forall other
      ensures Meets(value & !option, other) <==> MeetsBeside(value, option, other)
    {
      ClearMeets(value, option, other);
    }
    value & !option
  }

  /** With the option toggled: options that share no bit with it are as before, and one made of its bits is in
      the set if some of those were not. */
  function Toggled(value: Bits, option: Bits): (r: Bits)
    ensures forall other :: !Meets(option, other) ==> (Meets(r, other) <==> Meets(value, other))
    ensures forall other :: !Meets(other, !option) ==> (Meets(r, other) <==> Lacking(value, other))
    ensures SetBits(r) == SetBits(value) + SetBits(option) - 2 * SetBits(value & option)
  {
    CountLaws(value, option);
    forall other | !Meets(option, other)
      ensures Meets(value ^ option, other) <==> Meets(value, other)
    {
      ToggleMisses(value, option, other);
    }
    forall other | !Meets(other, !option)
      ensures Meets(value ^ option, other) <==> Lacking(value, other)
    {
      ToggleMeets(value, option, other);
    }
    value ^ option
  }

  /** Toggling twice undoes itself. */
  lemma ToggledTwice(value: Bits, option: Bits)
    ensures Toggled(Toggled(value, option), option) == value
  {
    ToggleKeeps(value, option);
  }

  lemma NothingBesideItself(value: Bits, option: Bits)
    ensures !MeetsBeside(value, option, option)
  {
  }

  lemma ToggleKeeps(value: Bits, option: Bits)
    ensures (value ^ option) ^ option == value
  {
  }

  lemma {:induction false} NoBits(n: Index)
    ensures PopCount(0, n) == 0
    decreases n
  {
    if n > 0 {
      NoBits(n - 1);
    }
  }

  lemma Partition(value: Bits, option: Bits)
    ensures (value & option) & (value & !option) == 0
    ensures (value & option) | (value & !option) == value
  {
  }

  /** Every bit is in a value or in its complement. */
  lemma ComplementCount(value: Bits)
    ensures SetBits(value) + SetBits(!value) == 32
  {
    CountLaws(value, !value);
    Complement(value);
    NoBits(SIZE);
    AllBitsCount();
  }

  lemma Complement(value: Bits)
    ensures value & !value == 0 && value | !value == 0xFFFF_FFFF
  {
  }

  lemma AllSet(i: Index)
    requires i < SIZE
    ensures Bit(0xFFFF_FFFF, i)
  {
  }

  lemma {:induction false} AllBitsUpTo(n: Index)
    requires n <= SIZE
    ensures PopCount(0xFFFF_FFFF, n) == n as nat
    decreases n
  {
    if n > 0 {
      AllSet(n - 1);
      AllBitsUpTo(n - 1);
    }
  }

  lemma AllBitsCount()
    ensures SetBits(0xFFFF_FFFF) == 32
  {
    AllBitsUpTo(SIZE);
  }
}
