/** What the 64-bit varint reader and writer promise each other. */
module VarintLaws {
  import opened MachineInts
  import opened Varint

  /** The continuation bit is set exactly on the bytes before the last. */
  ghost predicate Terminated(bs: seq<byte>)
  {
    && bs != []
    && bs[|bs| - 1] < 0x80
    && forall i :: 0 <= i < |bs| - 1 ==> bs[i] >= 0x80
  }

  // ----- reading any bytes

  /** From any cursor inside the buffer the read stays inside it. It succeeds exactly when
      one of the next ten bytes ends a number without ending the buffer. A read that fails yields
      the groups it merged: all ten, or all before the buffer's last byte. */
  lemma ReadVarintAcceptance(bs: seq<byte>)
    requires bs != []
    ensures var r := ReadVarint(bs);
      && r.Read?
      && (r.ok <==> exists k :: 0 <= k < 10 && k + 1 < |bs| && bs[k] < 0x80)
      && (r.ok ==>
            && r.used < |bs| && r.used <= 10
            && Terminated(bs[..r.used])
            && r.value == GroupSum(bs[..r.used]) % 0x1_0000_0000_0000_0000)
      && (!r.ok ==>
            && r.used == (if |bs| < 10 then |bs| else 10)
            && r.value == GroupSum(bs[..if |bs| <= 10 then |bs| - 1 else 10]) % 0x1_0000_0000_0000_0000)
  {
    var n := Continuations(bs);
    if n < MAX_VARINT_BYTES && n + 1 < |bs| {
      assert bs[n] < 0x80;
    }
  }

  lemma {:induction false} TerminatedContinuations(bs: seq<byte>, rest: seq<byte>)
    requires Terminated(bs)
    ensures Continuations(bs + rest) == |bs| - 1
  {
    ContinuationsAre(bs + rest, |bs| - 1);
  }

  /** A terminated group string of at most ten bytes is read back as its 64-bit value when a
      byte follows; when it ends the buffer its last group is lost and the read fails. */
  lemma ReadTerminated(bs: seq<byte>, rest: seq<byte>)
    requires Terminated(bs) && |bs| <= MAX_VARINT_BYTES
    ensures ReadVarint(bs + rest) ==
            if rest != [] then Read(true, Value(bs), |bs|)
            else Read(false, Value(bs[..|bs| - 1]), |bs|)
  {
    TerminatedContinuations(bs, rest);
    assert (bs + rest)[..|bs|] == bs;
    assert (bs + rest)[..|bs| - 1] == bs[..|bs| - 1];
  }

  // ----- the shape of an encoding

  lemma {:induction false} EncodeTerminated(v: nat)
    ensures Terminated(EncodeVarint(v))
  {
    if v >= 0x80 {
      EncodeTerminated(v / 0x80);
      var e, t := EncodeVarint(v), EncodeVarint(v / 0x80);
      assert forall i :: 1 <= i < |e| ==> e[i] == t[i - 1];
    }
  }

  lemma {:induction false} EncodeSum(v: nat)
    ensures GroupSum(EncodeVarint(v)) == v
  {
    if v >= 0x80 {
      EncodeSum(v / 0x80);
      assert EncodeVarint(v)[1..] == EncodeVarint(v / 0x80);
    }
  }

  /** The encoding has the least length that can hold the number. */
  lemma {:induction false} EncodeLength(v: nat, k: nat)
    requires k >= 1
    ensures |EncodeVarint(v)| <= k <==> v < Pow128(k)
    decreases k
  {
    if k == 1 {
      assert Pow128(1) == 0x80;
    } else if v >= 0x80 {
      EncodeLength(v / 0x80, k - 1);
    } else {
      Pow128Monotone(1, k);
    }
  }

  lemma EncodeWithinBound(v: uint64)
    ensures 1 <= |EncodeVarint(v)| <= 10
  {
    Pow128Values();
    EncodeLength(v, MAX_VARINT_BYTES);
  }

  // ----- round trip

  lemma {:induction false} GroupSumConcat(a: seq<byte>, b: seq<byte>)
    ensures GroupSum(a + b) == GroupSum(a) + GroupSum(b) * Pow128(|a|)
  {
    if a == [] {
      assert a + b == b;
    } else {
      assert (a + b)[1..] == a[1..] + b;
      GroupSumConcat(a[1..], b);
      Regroup(a[0] % 0x80, GroupSum(a[1..]), GroupSum(b), Pow128(|a| - 1));
    }
  }

  lemma Regroup(x: nat, g: nat, s: nat, p: nat)
    ensures x + 0x80 * (g + s * p) == x + 0x80 * g + s * (0x80 * p)
  {
    assert 0x80 * (s * p) == s * (0x80 * p);
  }

  /** Dropping high groups keeps the number modulo the groups kept. */
  lemma GroupSumPrefix(bs: seq<byte>, n: nat)
    requires n <= |bs|
    ensures GroupSum(bs[..n]) == GroupSum(bs) % Pow128(n)
  {
    assert bs == bs[..n] + bs[n..];
    GroupSumConcat(bs[..n], bs[n..]);
    GroupSumBound(bs[..n]);
    ModUnique(GroupSum(bs), GroupSum(bs[n..]), Pow128(n), GroupSum(bs[..n]));
  }

  /** All but the top group of an encoding is worth the number modulo those groups. */
  lemma TruncatedValue(v: uint64)
    ensures var e := EncodeVarint(v); Value(e[..|e| - 1]) == v % Pow128(|e| - 1)
  {
    var e := EncodeVarint(v);
    EncodeSum(v);
    GroupSumPrefix(e, |e| - 1);
    ModLe(v, Pow128(|e| - 1));
    ModUnique(v % Pow128(|e| - 1), 0, TWO_TO_THE_64, v % Pow128(|e| - 1));
  }

  lemma EncodedValue(v: uint64)
    ensures Value(EncodeVarint(v)) == v
  {
    EncodeSum(v);
    ModUnique(v, 0, TWO_TO_THE_64, v);
  }

  /** Every 64-bit number is read back when a byte follows; at the end of the buffer the
      read fails and the top group is lost. */
  lemma VarintRoundTrip(v: uint64, rest: seq<byte>)
    ensures var k := |EncodeVarint(v)|;
      ReadVarint(EncodeVarint(v) + rest) ==
      if rest != [] then Read(true, v, k) else Read(false, v % Pow128(k - 1), k)
  {
    EncodeTerminated(v);
    EncodeWithinBound(v);
    ReadTerminated(EncodeVarint(v), rest);
    EncodedValue(v);
    TruncatedValue(v);
  }

  /** The loss at the end of the buffer is real for every number but zero. */
  lemma {:induction false} LastGroupMatters(v: nat)
    ensures v % Pow128(|EncodeVarint(v)| - 1) == v <==> v == 0
  {
    var k := |EncodeVarint(v)|;
    if k > 1 {
      EncodeLength(v, k - 1);
    }
  }

  // ----- optimality

  /** No byte string the reader accepts for a number is shorter than what the writer writes. */
  lemma EncodeIsShortest(bs: seq<byte>)
    requires bs != [] && ReadVarint(bs).ok
    ensures |EncodeVarint(ReadVarint(bs).value)| <= ReadVarint(bs).used
  {
    var r := ReadVarint(bs);
    ReadVarintAcceptance(bs);
    GroupSumBound(bs[..r.used]);
    ModLe(GroupSum(bs[..r.used]), TWO_TO_THE_64);
    EncodeLength(r.value, r.used);
  }

  lemma {:induction false} EncodeOfSum(bs: seq<byte>)
    requires Terminated(bs)
    ensures EncodeVarint(GroupSum(bs)) == bs <==> |bs| == 1 || bs[|bs| - 1] != 0
  {
    if |bs| == 1 {
      assert GroupSum(bs[1..]) == 0;
    } else {
      EncodeOfSum(bs[1..]);
      var v, t := GroupSum(bs), GroupSum(bs[1..]);
      assert bs == [bs[0]] + bs[1..];
      if t == 0 {
        assert EncodeVarint(0) == [0];
        assert |EncodeVarint(v)| == 1;
      } else {
        assert v / 0x80 == t && v % 0x80 + 0x80 == bs[0];
        assert EncodeVarint(v) == [bs[0]] + EncodeVarint(t);
        assert EncodeVarint(v)[1..] == EncodeVarint(t);
      }
    }
  }

  lemma TopGroupSum(bs: seq<byte>)
    requires Terminated(bs) && |bs| <= MAX_VARINT_BYTES
    ensures |bs| < MAX_VARINT_BYTES ==> GroupSum(bs) < TWO_TO_THE_63
    ensures |bs| == MAX_VARINT_BYTES ==>
              bs[|bs| - 1] * TWO_TO_THE_63 <= GroupSum(bs) < (bs[|bs| - 1] + 1) * TWO_TO_THE_63
  {
    hide Pow128, GroupSum;
    Pow128Values();
    if |bs| < MAX_VARINT_BYTES {
      GroupSumBound(bs);
      Pow128Monotone(|bs|, 9);
    } else {
      var low, top := bs[..|bs| - 1], bs[|bs| - 1];
      assert bs == low + [top];
      GroupSumAppend(low, top);
      GroupSumBound(low);
    }
  }

  lemma ValueIsSumExactly(bs: seq<byte>)
    requires Terminated(bs) && |bs| <= MAX_VARINT_BYTES
    ensures Value(bs) == GroupSum(bs) <==> (|bs| == MAX_VARINT_BYTES ==> bs[|bs| - 1] < 2)
  {
    TopGroupSum(bs);
    if GroupSum(bs) < TWO_TO_THE_64 {
      ModUnique(GroupSum(bs), 0, TWO_TO_THE_64, GroupSum(bs));
    }
  }

  /** Which accepted strings are the writer's own: those with no zero group on top and, when
      all ten bytes are used, no bit beyond the sixty-fourth. */
  lemma CanonicalExactly(bs: seq<byte>)
    requires Terminated(bs) && |bs| <= MAX_VARINT_BYTES
    ensures EncodeVarint(Value(bs)) == bs <==>
            && (|bs| == 1 || bs[|bs| - 1] != 0)
            && (|bs| == MAX_VARINT_BYTES ==> bs[|bs| - 1] < 2)
  {
    EncodeOfSum(bs);
    ValueIsSumExactly(bs);
    EncodeSum(Value(bs));
  }

  // ----- prefix-freedom

  lemma {:induction false} VarintPrefixFree(a: nat, b: nat, x: seq<byte>, y: seq<byte>)
    requires EncodeVarint(a) + x == EncodeVarint(b) + y
    ensures a == b && x == y
  {
    hide EncodeVarint;
    FirstGroup(a, x);
    FirstGroup(b, y);
    if a >= 0x80 {
      VarintPrefixFree(a / 0x80, b / 0x80, x, y);
    }
  }

  /** The first byte of an encoding, and what follows it. */
  lemma FirstGroup(v: nat, x: seq<byte>)
    ensures var p := EncodeVarint(v) + x;
      && p != []
      && p[0] == (if v < 0x80 then v else v % 0x80 + 0x80)
      && p[1..] == (if v < 0x80 then x else EncodeVarint(v / 0x80) + x)
  {
  }
}
