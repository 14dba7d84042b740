/** Round trips and unique decoding for strings and field sequences. */
module WireFieldLaws {
  import opened MachineInts
  import opened Varint
  import opened VarintLaws
  import opened WireFields

  /** A string within the limit is read back; in a buffer that ends with it the read reports
      failure, although the body was copied. The empty string then leaves the variable alone. */
  lemma StringRoundTrip(s: seq<byte>, prior: seq<byte>, rest: seq<byte>)
    requires |s| <= STRING_LIMIT
    ensures ReadString(EncodeString(s) + rest, prior) ==
            Read(rest != [], if s == [] && rest == [] then prior else s, |EncodeString(s)|)
  {
    VarintRoundTrip(|s|, s + rest);
    var bs, k := EncodeString(s) + rest, |EncodeVarint(|s|)|;
    assert bs == EncodeVarint(|s|) + (s + rest);
    if s + rest != [] {
      assert bs[k..k + |s|] == s;
    }
  }

  /** The limit is exact: a string is accepted when a byte follows it, and only then, if it is
      within the limit. A longer one leaves the cursor right after its length. */
  lemma StringAcceptedExactly(s: seq<byte>, prior: seq<byte>, rest: seq<byte>)
    requires |s| < TWO_TO_THE_64
    ensures var r := ReadString(EncodeString(s) + rest, prior);
      && r.Read?
      && (r.ok <==> |s| <= 0x00FF_FFFF && rest != [])
      && (|s| > 0x00FF_FFFF ==> r == Read(false, prior, |EncodeVarint(|s|)|))
  {
    if |s| <= STRING_LIMIT {
      StringRoundTrip(s, prior, rest);
    } else {
      VarintRoundTrip(|s|, s + rest);
      assert EncodeString(s) + rest == EncodeVarint(|s|) + (s + rest);
    }
  }

  lemma FieldRoundTrip(f: Field, rest: seq<byte>)
    requires f.WithinLimit()
    ensures ReadField(EncodeField(f) + rest, f.Kind()) ==
            Read(rest != [], if rest != [] then f else f.AtEnd(), |EncodeField(f)|)
  {
    match f
    case Num(n) => VarintRoundTrip(n, rest);
    case Str(s) => StringRoundTrip(s, [], rest);
  }

  lemma EncodeFieldsNonempty(fs: seq<Field>)
    ensures fs != [] ==> EncodeFields(fs) != []
  {
  }

  lemma EncodeFieldsStep(fs: seq<Field>, x: seq<byte>)
    requires fs != []
    ensures EncodeFields(fs) + x == EncodeField(fs[0]) + (EncodeFields(fs[1..]) + x)
  {
  }

  lemma FirstFieldRead(fs: seq<Field>, rest: seq<byte>)
    requires fs != [] && fs[0].WithinLimit()
    ensures var last := rest == [] && |fs| == 1;
      var bs, n := EncodeFields(fs) + rest, |EncodeField(fs[0])|;
      && n <= |bs| && bs[n..] == EncodeFields(fs[1..]) + rest
      && ReadField(bs, fs[0].Kind()) == Read(!last, if last then fs[0].AtEnd() else fs[0], n)
  {
    var head, tail := EncodeField(fs[0]), EncodeFields(fs[1..]) + rest;
    EncodeFieldsStep(fs, rest);
    assert (head + tail)[|head|..] == tail;
    FieldRoundTrip(fs[0], tail);
    EncodeFieldsNonempty(fs[1..]);
  }

  /** The schema asks next for exactly the kinds of `fs`. */
  ghost predicate Awaits(r: Reading, kinds: seq<Kind>, fs: seq<Field>)
    requires r.Inside?
  {
    && |r.values| + |fs| <= |kinds|
    && forall i :: 0 <= i < |fs| ==> kinds[|r.values| + i] == fs[i].Kind()
  }

  /** One step of a reader that meets written fields. */
  lemma ReadOnStep(r: Reading, kinds: seq<Kind>, fs: seq<Field>, rest: seq<byte>) returns (r': Reading)
    requires fs != [] && fs[0].WithinLimit()
    requires r.Inside? && r.rest == EncodeFields(fs) + rest && Awaits(r, kinds, fs)
    ensures var last := rest == [] && |fs| == 1;
      r' == Inside(r.oks + [!last], r.values + [if last then fs[0].AtEnd() else fs[0]], EncodeFields(fs[1..]) + rest)
    ensures ReadOn(r, kinds) == ReadOn(r', kinds)
  {
    FirstFieldRead(fs, rest);
    assert kinds[|r.values| + 0] == fs[0].Kind();
    var last := rest == [] && |fs| == 1;
    r' := Inside(r.oks + [!last], r.values + [if last then fs[0].AtEnd() else fs[0]], r.rest[|EncodeField(fs[0])|..]);
  }

  /** A reader that meets the written fields passes them all and goes on behind them. */
  lemma {:induction false} ReadOnWritten(r: Reading, kinds: seq<Kind>, fs: seq<Field>, rest: seq<byte>)
    requires AllWithinLimit(fs)
    requires r.Inside? && r.rest == EncodeFields(fs) + rest && Awaits(r, kinds, fs)
    ensures ReadOn(r, kinds) ==
            ReadOn(Inside(r.oks + Reports(|fs|, rest == []), r.values + Received(fs, rest == []), rest), kinds)
    decreases |fs|
  {
    hide ReadOn;
    if fs == [] {
      assert r == Inside(r.oks + Reports(0, rest == []), r.values + Received(fs, rest == []), rest);
    } else {
      var r' := ReadOnStep(r, kinds, fs, rest);
      AwaitsTail(r, r', kinds, fs);
      ReadOnWritten(r', kinds, fs[1..], rest);
      var last := rest == [] && |fs| == 1;
      Prepended(r.oks, !last, Reports(|fs| - 1, rest == []));
      Prepended(r.values, if last then fs[0].AtEnd() else fs[0], Received(fs[1..], rest == []));
    }
  }

  lemma AwaitsTail(r: Reading, r': Reading, kinds: seq<Kind>, fs: seq<Field>)
    requires r.Inside? && r'.Inside? && fs != [] && |r'.values| == |r.values| + 1
    requires Awaits(r, kinds, fs)
    ensures Awaits(r', kinds, fs[1..])
  {
    forall i | 0 <= i < |fs| - 1
      ensures kinds[|r'.values| + i] == fs[1..][i].Kind()
    {
      assert kinds[|r.values| + (i + 1)] == fs[i + 1].Kind();
    }
  }

  lemma Prepended<T>(a: seq<T>, t: T, b: seq<T>)
    ensures a + [t] + b == a + ([t] + b)
  {
  }

  lemma ReadingEnds(r: Reading, kinds: seq<Kind>)
    requires r.Inside? && |r.values| >= |kinds|
    ensures ReadOn(r, kinds) == r
  {
  }

  lemma ReadingRunsDry(r: Reading, kinds: seq<Kind>)
    requires r.Inside? && |r.values| < |kinds| && r.rest == []
    ensures ReadOn(r, kinds) == Outside
  {
  }

  /** The reader behind the written fields, whatever the schema asks for next. */
  lemma ReadWritten(kinds: seq<Kind>, fs: seq<Field>, rest: seq<byte>)
    requires AllWithinLimit(fs)
    requires |fs| <= |kinds| && forall i :: 0 <= i < |fs| ==> kinds[i] == fs[i].Kind()
    ensures ReadFields(EncodeFields(fs) + rest, kinds) ==
            ReadOn(Inside(Reports(|fs|, rest == []), Received(fs, rest == []), rest), kinds)
  {
    hide ReadOn, EncodeFields;
    ReadOnWritten(Inside([], [], EncodeFields(fs) + rest), kinds, fs, rest);
    EmptyFirst(Reports(|fs|, rest == []));
    EmptyFirst(Received(fs, rest == []));
  }

  lemma ConcatAssociative<T>(a: seq<T>, b: seq<T>, c: seq<T>)
    ensures (a + b) + c == a + (b + c)
  {
  }

  lemma EmptyFirst<T>(s: seq<T>)
    ensures [] + s == s
  {
  }

  /** Any list of fields, written in order and read by its schema, comes back in full and ends
      exactly where it was written; the end of the buffer costs the last report and the top
      group of a final number, nothing else. */
  lemma {:induction false} FieldsRoundTrip(kinds: seq<Kind>, fs: seq<Field>, rest: seq<byte>)
    requires AllWithinLimit(fs) && Matches(kinds, fs)
    ensures ReadFields(EncodeFields(fs) + rest, kinds) ==
            Inside(Reports(|fs|, rest == []), Received(fs, rest == []), rest)
  {
    hide EncodeFields;
    ReadWritten(kinds, fs, rest);
    ReadingEnds(Inside(Reports(|fs|, rest == []), Received(fs, rest == []), rest), kinds);
  }

  /** A schema longer than what was written reads outside a buffer that ends there. */
  lemma {:induction false} SchemaTooLong(kinds: seq<Kind>, fs: seq<Field>)
    requires AllWithinLimit(fs)
    requires |fs| < |kinds| && forall i :: 0 <= i < |fs| ==> kinds[i] == fs[i].Kind()
    ensures ReadFields(EncodeFields(fs), kinds) == Outside
  {
    hide EncodeFields;
    assert EncodeFields(fs) + [] == EncodeFields(fs);
    ReadWritten(kinds, fs, []);
    ReadingRunsDry(Inside(Reports(|fs|, true), Received(fs, true), []), kinds);
  }

  // ----- reading on after a failure

  /** What is read after `r`. */
  function Behind(r: Reading, more: Reading): Reading
    requires r.Inside?
  {
    if more.Inside? then Inside(r.oks + more.oks, r.values + more.values, more.rest) else Outside
  }

  lemma ReadOnNext(r: Reading, kinds: seq<Kind>)
    requires r.Inside? && |r.values| < |kinds|
    ensures var f := ReadField(r.rest, kinds[|r.values|]);
      && (f.Overrun? ==> ReadOn(r, kinds) == Outside)
      && (f.Read? ==>
            && f.used <= |r.rest|
            && ReadOn(r, kinds) == ReadOn(Inside(r.oks + [f.ok], r.values + [f.value], r.rest[f.used..]), kinds))
  {
    if ReadField(r.rest, kinds[|r.values|]).Read? {
      ReadFieldStaysInside(r.rest, kinds[|r.values|]);
    }
  }

  lemma {:induction false} ReadOnIsBehind(r: Reading, kinds: seq<Kind>)
    requires r.Inside? && |r.values| <= |kinds|
    ensures ReadOn(r, kinds) == Behind(r, ReadFields(r.rest, kinds[|r.values|..]))
    decreases |kinds| - |r.values|
  {
    hide ReadOn, ReadField;
    var n := |r.values|;
    var later := kinds[n..];
    var start := Inside([], [], r.rest);
    if n == |kinds| {
      ReadingEnds(r, kinds);
      ReadingEnds(start, later);
    } else {
      ReadOnNext(r, kinds);
      ReadOnNext(start, later);
      assert later[0] == kinds[n] && later[1..] == kinds[n + 1..];
      var f := ReadField(r.rest, kinds[n]);
      if f.Read? {
        var rest := r.rest[f.used..];
        ReadOnIsBehind(Inside(r.oks + [f.ok], r.values + [f.value], rest), kinds);
        ReadOnIsBehind(Inside([] + [f.ok], [] + [f.value], rest), later);
        OneBehind(r, f.ok, f.value, ReadFields(rest, kinds[n + 1..]));
      }
    }
  }

  lemma OneBehind(r: Reading, ok: bool, f: Field, more: Reading)
    requires r.Inside?
    ensures var rest := if more.Inside? then more.rest else [];
      Behind(Inside(r.oks + [ok], r.values + [f], rest), more)
      == Behind(r, Behind(Inside([] + [ok], [] + [f], rest), more))
  {
  }

  /** A reader that ignores the reports goes on behind whatever a read has consumed, also when
      that read failed. */
  lemma ReadsGoOn(bs: seq<byte>, kind: Kind, kinds: seq<Kind>)
    ensures var f := ReadField(bs, kind);
      && (f.Overrun? ==> ReadFields(bs, [kind] + kinds) == Outside)
      && (f.Read? ==>
            && f.used <= |bs|
            && ReadFields(bs, [kind] + kinds)
               == Behind(Inside([f.ok], [f.value], bs[f.used..]), ReadFields(bs[f.used..], kinds)))
  {
    hide ReadOn, ReadField;
    var all := [kind] + kinds;
    ReadOnNext(Inside([], [], bs), all);
    var f := ReadField(bs, kind);
    if f.Read? {
      var r := Inside([] + [f.ok], [] + [f.value], bs[f.used..]);
      ReadOnIsBehind(r, all);
      assert all[1..] == kinds;
    }
  }

  /** After a string beyond the limit the reader takes the string's own bytes for the next fields. */
  lemma TooLongStringIsReadAsFields(s: seq<byte>, rest: seq<byte>, kinds: seq<Kind>)
    requires 0x00FF_FFFF < |s| < TWO_TO_THE_64
    ensures ReadFields(EncodeString(s) + rest, [StrKind] + kinds)
            == Behind(Inside([false], [Str([])], s + rest), ReadFields(s + rest, kinds))
  {
    hide ReadFields, EncodeVarint, ReadString, EncodeString;
    var bs := EncodeString(s) + rest;
    StringAcceptedExactly(s, [], rest);
    ReadsGoOn(bs, StrKind, kinds);
    BehindTheLength(s, rest);
  }

  lemma BehindTheLength(s: seq<byte>, rest: seq<byte>)
    ensures (EncodeString(s) + rest)[|EncodeVarint(|s|)|..] == s + rest
  {
    hide EncodeVarint;
    ConcatAssociative(EncodeVarint(|s|), s, rest);
  }

  /** Exactly when nothing at all is lost. */
  lemma {:induction false} FieldsRecoveredExactly(kinds: seq<Kind>, fs: seq<Field>, rest: seq<byte>)
    requires AllWithinLimit(fs) && Matches(kinds, fs)
    ensures ReadFields(EncodeFields(fs) + rest, kinds).Inside?
    ensures ReadFields(EncodeFields(fs) + rest, kinds).values == fs <==>
            rest != [] || fs == [] || fs[|fs| - 1].Str? || fs[|fs| - 1] == Num(0)
  {
    FieldsRoundTrip(kinds, fs, rest);
    ReceivedExactly(fs, rest == []);
  }

  /** What a reader sees of a list, in closed form. */
  lemma {:induction false} ReceivedFields(fs: seq<Field>, atEnd: bool)
    requires fs != []
    ensures Received(fs, atEnd) ==
            fs[..|fs| - 1] + [if atEnd then fs[|fs| - 1].AtEnd() else fs[|fs| - 1]]
  {
    if |fs| > 1 {
      ReceivedFields(fs[1..], atEnd);
      assert fs[..|fs| - 1] == [fs[0]] + fs[1..][..|fs| - 2];
    }
  }

  lemma ReceivedExactly(fs: seq<Field>, atEnd: bool)
    ensures Received(fs, atEnd) == fs <==>
            !atEnd || fs == [] || fs[|fs| - 1].Str? || fs[|fs| - 1] == Num(0)
  {
    if fs != [] {
      var init, last := fs[..|fs| - 1], fs[|fs| - 1];
      assert fs == init + [last];
      ReceivedFields(fs, atEnd);
      assert Received(fs, atEnd)[|fs| - 1] == if atEnd then last.AtEnd() else last;
      if last.Num? {
        LastGroupMatters(last.n);
      }
    }
  }

  // ----- unique decoding

  lemma StringPrefixFree(a: seq<byte>, b: seq<byte>, x: seq<byte>, y: seq<byte>)
    requires EncodeString(a) + x == EncodeString(b) + y
    ensures a == b && x == y
  {
    assert EncodeString(a) + x == EncodeVarint(|a|) + (a + x);
    assert EncodeString(b) + y == EncodeVarint(|b|) + (b + y);
    VarintPrefixFree(|a|, |b|, a + x, b + y);
    assert a == (a + x)[..|a|] && x == (a + x)[|a|..];
    assert b == (b + y)[..|b|] && y == (b + y)[|b|..];
  }

  lemma FieldPrefixFree(f: Field, g: Field, x: seq<byte>, y: seq<byte>)
    requires f.Kind() == g.Kind()
    requires EncodeField(f) + x == EncodeField(g) + y
    ensures f == g && x == y
  {
    if f.Num? {
      VarintPrefixFree(f.n, g.n, x, y);
    } else {
      StringPrefixFree(f.s, g.s, x, y);
    }
  }

  /** No field is a prefix of another of its kind, so a schema decodes in one way only. */
  lemma {:induction false} FieldsPrefixFree(fs: seq<Field>, gs: seq<Field>, x: seq<byte>, y: seq<byte>)
    requires |fs| == |gs| && forall i :: 0 <= i < |fs| ==> fs[i].Kind() == gs[i].Kind()
    requires EncodeFields(fs) + x == EncodeFields(gs) + y
    ensures fs == gs && x == y
  {
    if fs == [] {
      assert EncodeFields(fs) + x == x && EncodeFields(gs) + y == y;
    } else {
      EncodeFieldsStep(fs, x);
      EncodeFieldsStep(gs, y);
      FieldPrefixFree(fs[0], gs[0], EncodeFields(fs[1..]) + x, EncodeFields(gs[1..]) + y);
      FieldsPrefixFree(fs[1..], gs[1..], x, y);
      assert fs == [fs[0]] + fs[1..] && gs == [gs[0]] + gs[1..];
    }
  }

  lemma {:induction false} FieldsConcat(fs: seq<Field>, gs: seq<Field>)
    ensures EncodeFields(fs + gs) == EncodeFields(fs) + EncodeFields(gs)
  {
    if fs == [] {
      assert fs + gs == gs;
    } else {
      assert (fs + gs)[1..] == fs[1..] + gs;
      FieldsConcat(fs[1..], gs);
      assert EncodeFields(fs + gs) == EncodeField(fs[0]) + EncodeFields(fs[1..] + gs);
    }
  }
}
