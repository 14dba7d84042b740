/** The two protocol buffers: a cursor over a private copy of a byte array. */
module WireBuffers {
  import opened MachineInts
  import opened Varint
  import opened VarintLaws
  import opened WireFields

  class ClickReadProtoBuffer {
    const m_buffer: array<byte>
    const m_len: int
    var m_index: int

    ghost predicate Valid()
      reads this
    {
      m_len == m_buffer.Length <= INT_MAX && 0 <= m_index <= m_len
    }

    /** The bytes the cursor has not passed yet. */
    ghost function Rest(): seq<byte>
      requires Valid()
      reads this, m_buffer
    {
      m_buffer[m_index..]
    }

    constructor (buffer: array<byte>, len: nat)
      requires len <= buffer.Length && len <= INT_MAX
      ensures Valid() && fresh(m_buffer)
      ensures Rest() == buffer[..len]
    {
      m_buffer := new byte[len](i requires 0 <= i < len reads buffer => buffer[i]);
      m_len := len;
      m_index := 0;
    }

    /** Takes one byte; reports whether another one follows. There is no bounds check, so a
        caller must still be inside the buffer. */
    method ReadByte() returns (ok: bool, b: byte)
      requires Valid() && Rest() != []
      modifies this`m_index
      ensures Valid()
      ensures b == old(Rest())[0] && Rest() == old(Rest())[1..]
      ensures ok <==> Rest() != []
    {
      b := m_buffer[m_index];
      m_index := m_index + 1;
      ok := m_index < m_len;
    }

    method ReadBuffer(size: nat) returns (ok: bool, data: seq<byte>)
      requires Valid() && size <= |Rest()|
      modifies this`m_index
      ensures Valid()
      ensures data == old(Rest())[..size] && Rest() == old(Rest())[size..]
      ensures ok <==> Rest() != []
    {
      data := m_buffer[m_index..m_index + size];
      m_index := m_index + size;
      ok := m_index < m_len;
    }

    method ReadAll(len: nat) returns (ok: bool, data: seq<byte>)
      requires Valid() && len <= |Rest()|
      modifies this`m_index
      ensures Valid()
      ensures data == old(Rest())[..len] && Rest() == old(Rest())[len..]
      ensures ok <==> Rest() != []
    {
      ok, data := ReadBuffer(len);
    }

    /** The shift-and-OR loop computes exactly the number `ReadVarint` describes. */
    method ReadVarint64() returns (ok: bool, value: uint64)
      requires Valid() && Rest() != []
      modifies this`m_index
      ensures Valid() && old(m_index) <= m_index
      ensures ReadVarint(old(Rest())) == Read(ok, value, m_index - old(m_index))
      ensures Rest() == old(Rest())[m_index - old(m_index)..]
    {
      hide BitAnd, BitOr, ShiftLeft64, ReadVarint, Value;
      ghost var bs := Rest();
      NothingRead();
      value := 0;
      var i := 0;
      while i < MAX_VARINT_BYTES
        invariant 0 <= i <= MAX_VARINT_BYTES && i < |bs|
        invariant Valid() && m_index == old(m_index) + i && Rest() == bs[i..]
        invariant forall j :: 0 <= j < i ==> bs[j] >= 0x80
        invariant value == Value(bs[..i])
      {
        var more, b := ReadByte();
        assert b == bs[i];
        if !more {
          AtBufferEnd(bs, i);
          return false, value;
        }
        ghost var before := value;
        MergeIntoValue(bs, i);
        AndLow7(b);
        value := BitOr(value, ShiftLeft64(BitAnd(b, 0x7F), 7 * i));
        AndHighBit(b);
        if BitAnd(b, 0x80) == 0 {
          AtLastGroup(bs, i);
          return true, value;
        }
        i := i + 1;
      }
      TenContinuations(bs);
      ok := false;
    }

    /** Reads a length and its body. `prior` is what the caller's string held before. */
    method ReadString(prior: seq<byte>) returns (ok: bool, value: seq<byte>)
      requires Valid() && WireFields.ReadString(Rest(), prior).Read?
      modifies this`m_index
      ensures Valid() && old(m_index) <= m_index
      ensures WireFields.ReadString(old(Rest()), prior) == Read(ok, value, m_index - old(m_index))
      ensures Rest() == old(Rest())[m_index - old(m_index)..]
    {
      value := prior;
      var read, len := ReadVarint64();
      if read {
        ghost var used := m_index - old(m_index);
        if len > STRING_LIMIT {
          return false, value;
        }
        ok, value := ReadAll(len);
        assert old(Rest())[used..][..len] == old(Rest())[used..used + len];
        return;
      }
      return false, value;
    }
  }

  lemma AtBufferEnd(bs: seq<byte>, i: nat)
    requires i < MAX_VARINT_BYTES && |bs| == i + 1
    requires forall j :: 0 <= j < i ==> bs[j] >= 0x80
    ensures ReadVarint(bs) == Read(false, Value(bs[..i]), i + 1)
  {
  }

  lemma AtLastGroup(bs: seq<byte>, i: nat)
    requires i < MAX_VARINT_BYTES && i + 1 < |bs| && bs[i] < 0x80
    requires forall j :: 0 <= j < i ==> bs[j] >= 0x80
    ensures ReadVarint(bs) == Read(true, Value(bs[..i + 1]), i + 1)
  {
    ContinuationsAre(bs, i);
  }

  lemma NothingRead()
    ensures Value([]) == 0
  {
  }

  lemma TenContinuations(bs: seq<byte>)
    requires |bs| > MAX_VARINT_BYTES
    requires forall j :: 0 <= j < MAX_VARINT_BYTES ==> bs[j] >= 0x80
    ensures ReadVarint(bs) == Read(false, Value(bs[..MAX_VARINT_BYTES]), MAX_VARINT_BYTES)
  {
  }

  /** One loop turn on the value of the bytes read so far. */
  lemma MergeIntoValue(bs: seq<byte>, i: nat)
    requires i < MAX_VARINT_BYTES && i < |bs|
    ensures BitOr(Value(bs[..i]), ShiftLeft64(bs[i] % 0x80, 7 * i)) == Value(bs[..i + 1])
  {
    var low := bs[..i];
    assert bs[..i + 1] == low + [bs[i]];
    GroupSumAppend(low, bs[i]);
    GroupSumBound(low);
    Pow128Values();
    Pow128Monotone(i, 9);
    ModUnique(GroupSum(low), 0, TWO_TO_THE_64, GroupSum(low));
    MergeGroup(Value(low), bs[i] % 0x80, i);
  }

  class ClickWriteProtoBuffer {
    const m_buffer: array<byte>
    const m_len: int
    var m_index: int

    /** Everything written so far, and what the buffer held when it was made. */
    ghost var Log: seq<byte>
    ghost const Initial: seq<byte>

    /** The buffer is the log followed by the untouched part of its initial contents. */
    ghost predicate Valid()
      reads this, m_buffer
    {
      && m_len == m_buffer.Length == |Initial| <= INT_MAX
      && m_index == |Log| <= m_len
      && m_buffer[..] == Log + Initial[|Log|..]
    }

    ghost predicate Room(n: nat)
      reads this
    {
      |Log| + n <= m_len
    }

    constructor (buffer: array<byte>, len: nat)
      requires len <= buffer.Length && len <= INT_MAX
      ensures Valid() && fresh(m_buffer)
      ensures Log == [] && Initial == buffer[..len]
    {
      m_buffer := new byte[len](i requires 0 <= i < len reads buffer => buffer[i]);
      m_len := len;
      m_index := 0;
      Log := [];
      Initial := buffer[..len];
    }

    /** Copies the log out and leaves the rest of the caller's array alone. */
    method GetBuffer(buffer: array<byte>) returns (ok: bool, len: int)
      requires Valid() && buffer != m_buffer && |Log| <= buffer.Length
      modifies buffer
      ensures ok && len == |Log|
      ensures buffer[..] == Log + old(buffer[|Log|..])
    {
      forall i | 0 <= i < m_index {
        buffer[i] := m_buffer[i];
      }
      assert forall i :: 0 <= i < m_index ==> m_buffer[..][i] == Log[i];
      len := m_index;
      ok := true;
    }

    /** Appends to the log. There is no bounds check, so there must be room. */
    method WriteBuffer(buff: seq<byte>)
      requires Valid() && Room(|buff|)
      modifies this`m_index, this`Log, m_buffer
      ensures Valid()
      ensures Log == old(Log) + buff
    {
      forall i | 0 <= i < |buff| {
        m_buffer[m_index + i] := buff[i];
      }
      m_index := m_index + |buff|;
      Log := Log + buff;
      Appended(old(m_buffer[..]), m_buffer[..], old(Log), buff, Initial);
    }

    method WriteAll(buf: seq<byte>)
      requires Valid() && Room(|buf|)
      modifies this`m_index, this`Log, m_buffer
      ensures Valid()
      ensures Log == old(Log) + buf
    {
      WriteBuffer(buf);
    }

    method WriteVarint64(v: uint64)
      requires Valid() && Room(|EncodeVarint(v)|)
      modifies this`m_index, this`Log, m_buffer
      ensures Valid()
      ensures Log == old(Log) + EncodeVarint(v)
    {
      hide BitAnd, BitOr, ShiftRight, EncodeVarint;
      var bytes := new byte[MAX_VARINT_BYTES];
      var size := 0;
      var value: nat := v;
      EncodeWithinBound(v);
      var i := 0;
      while i < MAX_VARINT_BYTES
        invariant 0 <= i <= MAX_VARINT_BYTES && size == i
        invariant i + |EncodeVarint(value)| <= MAX_VARINT_BYTES
        invariant bytes[..size] + EncodeVarint(value) == EncodeVarint(v)
        modifies bytes
      {
        ghost var done, before := bytes[..size], value;
        LowGroupByte(value);
        var b: int := BitAnd(value, 0x7F);
        if value > 0x7F {
          b := BitOr(b, 0x80);
        }
        bytes[size] := b;
        size := size + 1;
        assert bytes[..size] == done + [b];
        value := ShiftRight(value, 7);
        GroupWritten(done, b, before, value);
        if value == 0 {
          break;
        }
        i := i + 1;
      }
      assert bytes[..size] == EncodeVarint(v);
      WriteAll(bytes[..size]);
    }

    method WriteUInt64(value: uint64)
      requires Valid() && Room(|EncodeVarint(value)|)
      modifies this`m_index, this`Log, m_buffer
      ensures Valid()
      ensures Log == old(Log) + EncodeVarint(value)
    {
      WriteVarint64(value);
    }

    method WriteString(value: seq<byte>)
      requires Valid() && Room(|EncodeString(value)|)
      modifies this`m_index, this`Log, m_buffer
      ensures Valid()
      ensures Log == old(Log) + EncodeString(value)
    {
      WriteVarint64(|value|);
      WriteAll(value);
      assert old(Log) + EncodeVarint(|value|) + value == old(Log) + EncodeString(value);
    }
  }

  /** The byte a turn of the writing loop emits, and what it leaves to write. */
  lemma LowGroupByte(value: nat)
    ensures var low, next := BitAnd(value, 0x7F), ShiftRight(value, 7);
      var b := if value > 0x7F then BitOr(low, 0x80) else low;
      && 0 <= b < 0x100
      && EncodeVarint(value) == if next == 0 then [b] else [b] + EncodeVarint(next)
  {
    AndLow7(value);
    OrHighBit(value % 0x80);
    ShiftRight7(value);
  }

  /** One more byte of an encoding is out. */
  lemma GroupWritten(done: seq<byte>, b: byte, value: nat, next: nat)
    requires EncodeVarint(value) == if next == 0 then [b] else [b] + EncodeVarint(next)
    ensures next == 0 ==> done + EncodeVarint(value) == done + [b]
    ensures next != 0 ==>
              && done + EncodeVarint(value) == done + [b] + EncodeVarint(next)
              && |EncodeVarint(value)| == 1 + |EncodeVarint(next)|
  {
    hide EncodeVarint;
  }

  lemma Appended(before: seq<byte>, after: seq<byte>, log: seq<byte>, buff: seq<byte>, initial: seq<byte>)
    requires |before| == |after| == |initial| && |log| + |buff| <= |initial|
    requires before == log + initial[|log|..]
    requires forall i :: 0 <= i < |after| ==>
      after[i] == if |log| <= i < |log| + |buff| then buff[i - |log|] else before[i]
    ensures after == (log + buff) + initial[|log + buff|..]
  {
  }
}
