/** The base-128 integers of the wire format, as pure functions on byte strings.
    They are unsigned LEB128 numbers (section 7.6 of DWARF Version 5) cut to 64 bits
    and ten bytes. */
module Varint {
  import opened MachineInts

  const MAX_VARINT_BYTES: nat := 10

  /** What a read of the wire does. `Overrun` is a read that starts, or whose body ends,
      outside the buffer: the program has no bounds check there. */
  datatype Outcome<T> = Overrun | Read(ok: bool, value: T, used: nat)

  /** The shortest base-128 form, low groups first. */
  function EncodeVarint(v: nat): (bs: seq<byte>)
    ensures |bs| >= 1
  {
    if v < 0x80 then [v] else [v % 0x80 + 0x80] + EncodeVarint(v / 0x80)
  }

  /** The number a group string stands for, without any width limit. */
  function GroupSum(bs: seq<byte>): nat
  {
    if bs == [] then 0 else bs[0] % 0x80 + 0x80 * GroupSum(bs[1..])
  }

  /** The number a 64-bit reader makes of it. */
  function Value(bs: seq<byte>): uint64
  {
    GroupSum(bs) % TWO_TO_THE_64
  }

  /** How many bytes carry the continuation bit before the first that does not. */
  function Continuations(bs: seq<byte>): (n: nat)
    ensures n <= |bs|
    ensures n < |bs| ==> bs[n] < 0x80
    ensures forall i :: 0 <= i < n ==> bs[i] >= 0x80
  {
    if bs == [] || bs[0] < 0x80 then 0 else 1 + Continuations(bs[1..])
  }

  /** A varint read from a cursor with the bytes `bs` left. The byte that ends the buffer
      is consumed but never merged, because a read reports success only when the cursor
      is still inside the buffer afterwards. */
  function ReadVarint(bs: seq<byte>): Outcome<uint64>
  {
    if bs == [] then Overrun
    else
      var n := Continuations(bs);
      if n < MAX_VARINT_BYTES && n + 1 < |bs| then
        Read(true, Value(bs[..n + 1]), n + 1)
      else if |bs| <= MAX_VARINT_BYTES then
        Read(false, Value(bs[..|bs| - 1]), |bs|)
      else
        Read(false, Value(bs[..MAX_VARINT_BYTES]), MAX_VARINT_BYTES)
  }

  // ----- sums of groups

  lemma {:induction false} GroupSumBound(bs: seq<byte>)
    ensures GroupSum(bs) < Pow128(|bs|)
  {
    if bs != [] {
      GroupSumBound(bs[1..]);
    }
  }

  lemma {:induction false} GroupSumAppend(bs: seq<byte>, b: byte)
    ensures GroupSum(bs + [b]) == GroupSum(bs) + b % 0x80 * Pow128(|bs|)
  {
    if bs == [] {
      assert bs + [b] == [b];
    } else {
      assert (bs + [b])[1..] == bs[1..] + [b];
      GroupSumAppend(bs[1..], b);
      var g, p := b % 0x80, Pow128(|bs| - 1);
      assert 0x80 * (g * p) == g * (0x80 * p);
    }
  }

  /** One turn of the reading loop: OR-ing in the i-th group adds it, and the tenth group
      keeps only the bit that still fits a 64-bit word. */
  lemma MergeGroup(value: uint64, g: nat, i: nat)
    requires g < 0x80 && i < MAX_VARINT_BYTES && value < Pow128(i)
    ensures BitOr(value, ShiftLeft64(g, 7 * i)) == (value + g * Pow128(i)) % TWO_TO_THE_64
  {
    Pow2OfGroups(i);
    Pow128Values();
    if i < 9 {
      Pow128Monotone(i + 1, 9);
    }
    MergeAt(value, g, 7 * i, Pow128(i));
  }

  lemma MergeAt(value: uint64, g: nat, n: nat, p: nat)
    requires g < 0x80 && value < p == Pow2(n)
    requires 0x80 * p <= TWO_TO_THE_63 || p == TWO_TO_THE_63
    ensures BitOr(value, ShiftLeft64(g, n)) == (value + g * p) % TWO_TO_THE_64
  {
    if p == TWO_TO_THE_63 {
      TopGroup(value, g, p);
      OrDisjoint(value, g % 2, n);
    } else {
      LowGroup(value, g, p);
      OrDisjoint(value, g, n);
    }
  }

  lemma LowGroup(value: nat, g: nat, p: nat)
    requires g < 0x80 && value < p && 0x80 * p <= TWO_TO_THE_63
    ensures (g * p) % TWO_TO_THE_64 == g * p
    ensures (value + g * p) % TWO_TO_THE_64 == value + g * p
  {
    LowProduct(g, p);
    SmallMod(g * p);
    SmallMod(value + g * p);
  }

  lemma LowProduct(g: nat, p: nat)
    requires g < 0x80
    ensures 0 <= g * p <= 0x7F * p
  {
  }

  lemma SmallMod(x: nat)
    requires x < TWO_TO_THE_64
    ensures x % TWO_TO_THE_64 == x
  {
  }

  lemma TopGroup(value: nat, g: nat, p: nat)
    requires g < 0x80 && value < p == TWO_TO_THE_63
    ensures (g * p) % TWO_TO_THE_64 == g % 2 * p
    ensures (value + g * p) % TWO_TO_THE_64 == value + g % 2 * p
  {
    assert g == g / 2 * 2 + g % 2;
  }

  lemma {:induction false} ContinuationsAre(bs: seq<byte>, n: nat)
    requires n < |bs| && bs[n] < 0x80
    requires forall i :: 0 <= i < n ==> bs[i] >= 0x80
    ensures Continuations(bs) == n
  {
    if n > 0 {
      ContinuationsAre(bs[1..], n - 1);
    }
  }
}
