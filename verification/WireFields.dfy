/** Strings and field sequences on the wire, as pure functions on byte strings. */
module WireFields {
  import opened MachineInts
  import opened Varint

  /** The longest string a reader accepts. */
  const STRING_LIMIT: nat := 0x00FF_FFFF

  function EncodeString(s: seq<byte>): seq<byte>
  {
    EncodeVarint(|s|) + s
  }

  /** A string read into a variable that holds `prior`: only an accepted length touches it. */
  function ReadString(bs: seq<byte>, prior: seq<byte>): Outcome<seq<byte>>
  {
    match ReadVarint(bs)
    case Overrun => Overrun
    case Read(false, _, used) => Read(false, prior, used)
    case Read(true, n, used) =>
      if n > STRING_LIMIT then Read(false, prior, used)
      else if used + n > |bs| then Overrun
      else Read(used + n < |bs|, bs[used..used + n], used + n)
  }

  datatype Kind = NumKind | StrKind

  datatype Field = Num(n: uint64) | Str(s: seq<byte>)
  {
    predicate WithinLimit() { Str? ==> |s| <= STRING_LIMIT }

    function Kind(): Kind { if Num? then NumKind else StrKind }

    /** What is left of the field when no byte follows it in the buffer. */
    function AtEnd(): Field
    {
      if Num? then
        var groups := Pow128(|EncodeVarint(n)| - 1);
        ModLe(n, groups);
        Num(n % groups)
      else this
    }
  }

  function EncodeField(f: Field): seq<byte>
  {
    if f.Num? then EncodeVarint(f.n) else EncodeString(f.s)
  }

  function EncodeFields(fs: seq<Field>): seq<byte>
  {
    if fs == [] then [] else EncodeField(fs[0]) + EncodeFields(fs[1..])
  }

  /** A field read into a fresh variable; a fresh string is empty. */
  function ReadField(bs: seq<byte>, kind: Kind): Outcome<Field>
  {
    match kind
    case NumKind =>
      (match ReadVarint(bs)
       case Overrun => Overrun
       case Read(ok, n, used) => Read(ok, Num(n), used))
    case StrKind =>
      (match ReadString(bs, [])
       case Overrun => Overrun
       case Read(ok, s, used) => Read(ok, Str(s), used))
  }

  lemma ReadFieldStaysInside(bs: seq<byte>, kind: Kind)
    requires ReadField(bs, kind).Read?
    ensures 1 <= ReadField(bs, kind).used <= |bs|
    ensures ReadField(bs, kind).ok ==> ReadField(bs, kind).used < |bs|
    ensures ReadField(bs, kind).value.Kind() == kind
  {
  }

  /** A sequence of reads that ignores the single reports: the reports and fields so far, and
      the bytes left. `Outside` is a read outside the buffer. */
  datatype Reading = Outside | Inside(oks: seq<bool>, values: seq<Field>, rest: seq<byte>)

  /** Reads on through a schema. */
  function ReadOn(r: Reading, kinds: seq<Kind>): Reading
    requires r.Inside?
    decreases |kinds| - |r.values|
  {
    if |r.values| >= |kinds| then r
    else
      match ReadField(r.rest, kinds[|r.values|])
      case Overrun => Outside
      case Read(ok, f, used) =>
        ReadFieldStaysInside(r.rest, kinds[|r.values|]);
        ReadOn(Inside(r.oks + [ok], r.values + [f], r.rest[used..]), kinds)
  }

  function ReadFields(bs: seq<byte>, kinds: seq<Kind>): Reading
  {
    ReadOn(Inside([], [], bs), kinds)
  }

  /** The schema asks for exactly the kinds of `fs`. */
  ghost predicate Matches(kinds: seq<Kind>, fs: seq<Field>)
  {
    |kinds| == |fs| && forall i :: 0 <= i < |fs| ==> kinds[i] == fs[i].Kind()
  }

  ghost predicate AllWithinLimit(fs: seq<Field>)
  {
    forall i :: 0 <= i < |fs| ==> fs[i].WithinLimit()
  }

  /** The fields as a reader sees them: when `atEnd` says that the last field ends the buffer,
      only what is left of it there. */
  function Received(fs: seq<Field>, atEnd: bool): (values: seq<Field>)
    ensures |values| == |fs|
  {
    if fs == [] then []
    else [if atEnd && |fs| == 1 then fs[0].AtEnd() else fs[0]] + Received(fs[1..], atEnd)
  }

  /** The reports of n reads: every one but possibly the last is a success. */
  function Reports(n: nat, atEnd: bool): (oks: seq<bool>)
    ensures |oks| == n
    ensures forall i :: 0 <= i < n ==> (oks[i] <==> !(atEnd && i == n - 1))
  {
    if n == 0 then [] else [!(atEnd && n == 1)] + Reports(n - 1, atEnd)
  }
}
