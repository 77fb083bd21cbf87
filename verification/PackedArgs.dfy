/**
 Type-erased format arguments. Up to 15 argument types are packed, four bits each, into a 64-bit
 descriptor and only the values are stored; more are stored one by one with their types.
 */
module PackedArgs {

  import opened Words

  const MAX_PACKED_ARGS := 15
  const PACKED_ARG_BITS := 4
  const IS_UNPACKED_BIT := 0x8000_0000_0000_0000
  const HAS_NAMED_ARGS_BIT := 0x4000_0000_0000_0000
  const INT_RANGE := 0x1_0000_0000

  const NONE_TYPE := 0

  /** The codes of the types an argument can have; 0 is for no argument. */
  type TypeCode = c: nat | 0 < c < 16 witness 1

  datatype Arg<+V> = Arg(code: TypeCode, value: V)

  /** What get returns. The arrays are unchecked in the source: OutOfBounds is a read past one. */
  datatype Lookup<+V> = NoArg | Found(arg: Arg<V>) | OutOfBounds

  function EncodeTypes<V>(args: seq<Arg<V>>): nat {
    if args == [] then 0 else BitOr(args[0].code, EncodeTypes(args[1..]) * 16 % WORD)
  }

  function MakeDescriptor<V>(args: seq<Arg<V>>): nat {
    if |args| <= MAX_PACKED_ARGS then EncodeTypes(args) else BitOr(IS_UNPACKED_BIT, |args|)
  }

  function NamedFlag(named: bool): nat {
    if named then HAS_NAMED_ARGS_BIT else 0
  }

  /** basic_format_args: the descriptor, and one of the two arrays. */
  datatype FormatArgs<V> = FormatArgs(desc: nat, values: seq<V>, args: seq<Arg<V>>) {
    predicate IsPacked() {
      !TestBit(desc, IS_UNPACKED_BIT)
    }

    function Type(index: nat): nat {
      ShiftRight(desc, index * PACKED_ARG_BITS) % 16
    }

    /** The count is what the conversion to int leaves of the descriptor, without the flag bits. */
    function MaxSize(): nat {
      if IsPacked() then MAX_PACKED_ARGS else desc % INT_RANGE
    }

    function Get(id: nat): Lookup<V> {
      if !IsPacked() then
        if id >= MaxSize() then NoArg else if id < |args| then Found(args[id]) else OutOfBounds
      else if id >= MAX_PACKED_ARGS then NoArg
      else if Type(id) == NONE_TYPE then NoArg
      else if id < |values| then Found(Arg(Type(id), values[id]))
      else OutOfBounds
    }
  }

  /** The view of a store built by make_format_args. */
  function Erased<V>(args: seq<Arg<V>>, named: bool): FormatArgs<V> {
    var desc := BitOr(MakeDescriptor(args), NamedFlag(named));
    if |args| <= MAX_PACKED_ARGS then FormatArgs(desc, seq(|args|, i requires 0 <= i < |args| => args[i].value), [])
    else FormatArgs(desc, [], args)
  }

  /** The view of a list built at run time, never packed. */
  function Dynamic<V>(args: seq<Arg<V>>, named: bool): FormatArgs<V> {
    FormatArgs(BitOr(BitOr(IS_UNPACKED_BIT, |args|), NamedFlag(named)), [], args)
  }

  // The descriptor in arithmetic.

  function Pow16(k: nat): (p: nat)
    ensures p >= 1
  {
    if k == 0 then 1 else 16 * Pow16(k - 1)
  }

  lemma Pow16Values()
    ensures Pow16(15) == 0x1000_0000_0000_0000
  {
    assert Pow16(3) == 0x1000;
    assert Pow16(6) == 0x100_0000;
    assert Pow16(9) == 0x10_0000_0000;
    assert Pow16(12) == 0x1_0000_0000_0000;
  }

  lemma {:induction false} Pow16Monotonic(m: nat, n: nat)
    requires m <= n
    ensures Pow16(m) <= Pow16(n)
    decreases n
  {
    if m < n {
      Pow16Monotonic(m, n - 1);
    }
  }

  lemma OrAbove(k: nat, p: nat, low: nat, high: nat)
    requires p == Pow2(k) && low < p
    ensures BitOr(low, p * high) == low + p * high
  {
    OrOfFields(k, p, low, 0, 0, high);
    OrWithZero(low);
    OrWithZero(high);
    assert low + p * 0 == low && 0 + p * high == p * high;
  }

  lemma OrNibble(code: nat, rest: nat)
    requires code < 16 && rest < Pow16(14)
    ensures BitOr(code, rest * 16 % WORD) == code + 16 * rest
  {
    Pow16Values();
    assert Pow2(4) == 16;
    assert rest * 16 % WORD == 16 * rest by { assert 16 * Pow16(14) == Pow16(15); }
    OrAbove(4, 16, code, rest);
  }

  lemma {:induction false} EncodedIs<V>(args: seq<Arg<V>>)
    requires |args| <= MAX_PACKED_ARGS
    ensures EncodeTypes(args) < Pow16(|args|)
    ensures args != [] ==> EncodeTypes(args) == args[0].code + 16 * EncodeTypes(args[1..])
  {
    if args != [] {
      EncodedIs(args[1..]);
      Pow16Monotonic(|args| - 1, 14);
      OrNibble(args[0].code, EncodeTypes(args[1..]));
    }
  }

  lemma ShiftPast(x: nat, low: nat, n: nat)
    requires low < 16
    ensures ShiftRight(low + 16 * x, n + 4) == ShiftRight(x, n)
  {
    ShiftRightTwice(low + 16 * x, 4, n);
    ShiftFour(x, low);
  }

  lemma ShiftFour(x: nat, low: nat)
    requires low < 16
    ensures ShiftRight(low + 16 * x, 4) == x
  {
    var y := low + 16 * x;
    assert ShiftRight(y, 4) == ShiftRight(y / 2, 3);
    assert ShiftRight(y / 2, 3) == ShiftRight(y / 2 / 2, 2);
    assert ShiftRight(y / 2 / 2, 2) == ShiftRight(y / 2 / 2 / 2, 1);
    assert ShiftRight(y / 2 / 2 / 2, 1) == y / 2 / 2 / 2 / 2;
  }

  lemma SplitNibble(code: nat, rest: nat, room: nat, above: nat)
    requires room > 0
    ensures code + 16 * rest + Product(Pow16(room), above) == code + 16 * (rest + Product(Pow16(room - 1), above))
  {
    TimesSixteen(Pow16(room - 1), above);
  }

  lemma TimesSixteen(p: nat, x: nat)
    ensures Product(16 * p, x) == 16 * Product(p, x)
  {
  }

  lemma LowNibble(code: nat, x: nat)
    requires code < 16
    ensures (code + 16 * x) % 16 == code
  {
  }

  /** The type at an index, whatever is packed above the fields. */
  lemma {:induction false} TypeOfEncoded<V>(args: seq<Arg<V>>, index: nat, above: nat, room: nat)
    requires |args| <= room <= MAX_PACKED_ARGS && index < room
    ensures ShiftRight(EncodeTypes(args) + Product(Pow16(room), above), index * PACKED_ARG_BITS) % 16
         == if index < |args| then args[index].code else NONE_TYPE
    decreases room
  {
    var rest := if args == [] then [] else args[1..];
    var code := if args == [] then 0 else args[0].code;
    var x := EncodeTypes(rest) + Product(Pow16(room - 1), above);
    EncodedSum(args, rest, code, room, above);
    hide EncodeTypes, BitOr, Product, Pow16;
    if index == 0 {
      LowNibble(code, x);
    } else {
      ShiftPast(x, code, (index - 1) * PACKED_ARG_BITS);
      TypeOfEncoded(rest, index - 1, above, room - 1);
    }
  }

  lemma EncodedSum<V>(args: seq<Arg<V>>, rest: seq<Arg<V>>, code: nat, room: nat, above: nat)
    requires |args| <= room <= MAX_PACKED_ARGS && room > 0
    requires if args == [] then rest == [] && code == 0 else rest == args[1..] && code == args[0].code
    ensures EncodeTypes(args) + Product(Pow16(room), above) == code + 16 * (EncodeTypes(rest) + Product(Pow16(room - 1), above))
  {
    EncodedIs(args);
    SplitNibble(code, EncodeTypes(rest), room, above);
  }

  lemma Pow2Values()
    ensures Pow2(60) == 0x1000_0000_0000_0000 && Pow2(32) == INT_RANGE && Pow2(30) == 0x4000_0000
  {
    assert Pow2(10) == 0x400;
    assert Pow2(20) == 0x10_0000;
    assert Pow2(30) == 0x4000_0000;
    assert Pow2(40) == 0x100_0000_0000;
    assert Pow2(50) == 0x4_0000_0000_0000;
  }

  lemma NamedAbove(types: nat, named: bool)
    requires types < 0x1000_0000_0000_0000
    ensures BitOr(types, NamedFlag(named)) == types + NamedFlag(named)
  {
    Pow2Values();
    OrAbove(60, 0x1000_0000_0000_0000, types, if named then 4 else 0);
  }

  lemma LowIsPacked(desc: nat)
    requires desc < IS_UNPACKED_BIT
    ensures !TestBit(desc, IS_UNPACKED_BIT)
  {
  }

  lemma PackedDescriptor<V>(args: seq<Arg<V>>, named: bool)
    requires |args| <= MAX_PACKED_ARGS
    ensures Erased(args, named).desc == EncodeTypes(args) + NamedFlag(named)
    ensures Erased(args, named).IsPacked()
  {
    EncodedIs(args);
    Pow16Monotonic(|args|, 15);
    Pow16Values();
    NamedAbove(EncodeTypes(args), named);
    LowIsPacked(EncodeTypes(args) + NamedFlag(named));
  }

  /** The flags of an unpacked descriptor stay above its count. */
  lemma UnpackedDescriptor(count: nat, named: bool)
    requires count < INT_RANGE
    ensures BitOr(BitOr(IS_UNPACKED_BIT, count), NamedFlag(named))
         == INT_RANGE * (if named then 0xC000_0000 else 0x8000_0000) + count
  {
    CountBelow(0x8000_0000, count);
    if named {
      FlagsAboveCount(count);
    } else {
      OrWithZero(INT_RANGE * 0x8000_0000 + count);
    }
  }

  lemma CountBelow(flags: nat, count: nat)
    requires count < INT_RANGE
    ensures BitOr(INT_RANGE * flags, count) == INT_RANGE * flags + count
  {
    Pow2Values();
    OrOfFields(32, INT_RANGE, 0, count, flags, 0);
    OrWithZero(count);
    OrWithZero(flags);
  }

  lemma FlagsAboveCount(count: nat)
    requires count < INT_RANGE
    ensures BitOr(INT_RANGE * 0x8000_0000 + count, INT_RANGE * 0x4000_0000) == INT_RANGE * 0xC000_0000 + count
  {
    Pow2Values();
    OrOfFields(32, INT_RANGE, count, 0, 0x8000_0000, 0x4000_0000);
    OrWithZero(count);
    TopBits();
  }

  lemma TopBits()
    ensures BitOr(0x8000_0000, 0x4000_0000) == 0xC000_0000
  {
    Pow2Values();
    OrOfFields(30, 0x4000_0000, 0, 0, 2, 1);
    OrWithZero(0);
    assert BitOr(2, 1) == 3;
  }

  lemma UnpackedGet<V>(args: seq<Arg<V>>, named: bool, id: nat)
    requires |args| < INT_RANGE
    ensures Dynamic(args, named).Get(id) == if id < |args| then Found(args[id]) else NoArg
  {
    hide BitOr, NamedFlag;
    UnpackedDescriptor(|args|, named);
    UnpackedFields(|args|, if named then 0xC000_0000 else 0x8000_0000);
  }

  lemma UnpackedFields(count: nat, flags: nat)
    requires count < INT_RANGE && 0x8000_0000 <= flags < INT_RANGE
    ensures TestBit(INT_RANGE * flags + count, IS_UNPACKED_BIT)
    ensures (INT_RANGE * flags + count) % INT_RANGE == count
  {
    var desc := INT_RANGE * flags + count;
    assert desc / IS_UNPACKED_BIT == 1;
  }

  lemma PackedType<V>(args: seq<Arg<V>>, named: bool, id: nat)
    requires |args| <= MAX_PACKED_ARGS && id < MAX_PACKED_ARGS
    ensures ShiftRight(EncodeTypes(args) + NamedFlag(named), id * PACKED_ARG_BITS) % 16
         == if id < |args| then args[id].code else NONE_TYPE
  {
    Pow16Values();
    TypeOfEncoded(args, id, if named then 4 else 0, MAX_PACKED_ARGS);
  }

  lemma PackedGet<V>(args: seq<Arg<V>>, named: bool, id: nat)
    requires |args| <= MAX_PACKED_ARGS
    ensures Erased(args, named).Get(id) == if id < |args| then Found(args[id]) else NoArg
  {
    PackedDescriptor(args, named);
    if id < MAX_PACKED_ARGS {
      PackedType(args, named, id);
    }
  }

  /** Looking an argument up in the erased form agrees with the plain list, however many there are. */
  lemma GetAgreesWithList<V>(args: seq<Arg<V>>, named: bool, id: nat)
    requires |args| < INT_RANGE / 2
    ensures Erased(args, named).Get(id) == if id < |args| then Found(args[id]) else NoArg
    ensures Dynamic(args, named).Get(id) == if id < |args| then Found(args[id]) else NoArg
  {
    UnpackedGet(args, named, id);
    if |args| <= MAX_PACKED_ARGS {
      PackedGet(args, named, id);
    } else {
      assert Erased(args, named) == Dynamic(args, named);
    }
  }
}
