/** The byte format of pool records, stated apart from the code that writes and reads them. */
module PoolFormat {
  import opened Wire
  import opened WireItems
  import opened PoolCodec

  /** Fields by their numbers in the message definition. */
  function FieldOf(p: Pool, k: nat): Bytes
    requires 1 <= k <= 5
  {
    match k
    case 1 => p.id
    case 2 => p.standardDenom
    case 3 => p.counterpartyDenom
    case 4 => p.escrowAddress
    case _ => p.lptDenom
  }

  // ---- Writing ------------------------------------------------------------------------------------------

  /** The space a field takes: none if it is empty, else a tag, a length and the bytes. */
  function Span(s: Bytes): nat {
    if s == [] then 0 else 1 + |EncodeVarint(|s|)| + |s|
  }

  /** The space all fields before number `k` take. */
  function OffsetOf(p: Pool, k: nat): nat
    requires 1 <= k <= 6
  {
    if k == 1 then 0 else OffsetOf(p, k - 1) + Span(FieldOf(p, k - 1))
  }

  lemma SpanIsLength(tag: Byte, s: Bytes)
    ensures |StringField(tag, s)| == Span(s)
    ensures s != [] ==> StringField(tag, s) == [tag] + (EncodeVarint(|s|) + s)
  {
    hide EncodeVarint;
  }

  lemma Offsets(p: Pool)
    ensures OffsetOf(p, 1) == 0 && OffsetOf(p, 2) == Span(p.id)
    ensures OffsetOf(p, 3) == OffsetOf(p, 2) + Span(p.standardDenom)
    ensures OffsetOf(p, 4) == OffsetOf(p, 3) + Span(p.counterpartyDenom)
    ensures OffsetOf(p, 5) == OffsetOf(p, 4) + Span(p.escrowAddress)
    ensures OffsetOf(p, 6) == OffsetOf(p, 5) + Span(p.lptDenom)
  {
    hide Span;
  }

  lemma FieldsStand(p: Pool)
    ensures At(Encode(p), OffsetOf(p, 1), StringField(0x0A, p.id))
    ensures At(Encode(p), OffsetOf(p, 2), StringField(0x12, p.standardDenom))
    ensures At(Encode(p), OffsetOf(p, 3), StringField(0x1A, p.counterpartyDenom))
    ensures At(Encode(p), OffsetOf(p, 4), StringField(0x22, p.escrowAddress))
    ensures At(Encode(p), OffsetOf(p, 5), StringField(0x2A, p.lptDenom))
    ensures |Encode(p)| == OffsetOf(p, 6)
  {
    hide StringField, Span, OffsetOf, At;
    Offsets(p);
    SpanIsLength(0x0A, p.id);
    SpanIsLength(0x12, p.standardDenom);
    SpanIsLength(0x1A, p.counterpartyDenom);
    SpanIsLength(0x22, p.escrowAddress);
    SpanIsLength(0x2A, p.lptDenom);
    FiveParts(StringField(0x0A, p.id), StringField(0x12, p.standardDenom), StringField(0x1A, p.counterpartyDenom),
      StringField(0x22, p.escrowAddress), StringField(0x2A, p.lptDenom));
  }

  lemma FiveParts(a: Bytes, b: Bytes, c: Bytes, d: Bytes, e: Bytes)
    ensures var data := a + (b + (c + (d + e)));
      && At(data, 0, a) && At(data, |a|, b) && At(data, |a| + |b|, c) && At(data, |a| + |b| + |c|, d)
      && At(data, |a| + |b| + |c| + |d|, e) && |data| == |a| + |b| + |c| + |d| + |e|
  {
    var data := a + (b + (c + (d + e)));
    assert At(data, 0, data);
    hide At;
    AtConcat(data, 0, a, b + (c + (d + e)));
    AtConcat(data, |a|, b, c + (d + e));
    AtConcat(data, |a| + |b|, c, d + e);
    AtConcat(data, |a| + |b| + |c|, d, e);
  }

  /**
    The stored bytes, field by field: field number k, unless it is empty, stands after all fields of lower
    number as the byte 8k + 2, the length as a varint, and its bytes; and nothing else is stored.
   */
  lemma FieldStandsAt(p: Pool, k: nat)
    requires 1 <= k <= 5
    ensures |Encode(p)| == OffsetOf(p, 6)
    ensures var s := FieldOf(p, k);
      s != [] ==> At(Encode(p), OffsetOf(p, k), [8 * k + 2] + (EncodeVarint(|s|) + s))
  {
    hide Encode, StringField, OffsetOf, EncodeVarint;
    FieldsStand(p);
    SpanIsLength(8 * k + 2, FieldOf(p, k));
  }

  // ---- Reading --------------------------------------------------------------------------------------------

  /** What the last item of number `k` says; nothing if there is none. */
  function LastUnder(items: seq<Item>, k: nat): Bytes {
    if items == [] then [] else
      var last := items[|items| - 1];
      if last.Text? && last.field == k then last.content else LastUnder(items[..|items| - 1], k)
  }

  /** An item the pool record can take: text under one of its numbers, anything under another. */
  predicate Takes(it: Item) {
    it.field <= 5 ==> it.Text?
  }

  lemma ItemDecodes(data: Bytes, i: nat, it: Item, m: Pool)
    requires |data| < INT64 && WellFormed([it]) && At(data, i, ItemsBytes([it]))
    ensures var end := i + |ItemsBytes([it])|;
      DecodeFrom(data, i, m) ==
        if !Takes(it) then Err(WrongWireType)
        else DecodeFrom(data, end, if it.field <= 5 then SetField(m, it.field, it.content) else m)
  {
    hide Tag, Payload, SkipField, SetField, ItemsBytes, TagBytes, WellFormed;
    ItemTag(data, i, it);
    if 5 < it.field {
      SkipFieldEnds(data, i, it);
    } else if it.Text? {
      TextBytes(it.field, it.content);
      AtConcat(data, i, TagBytes(it.field, 2), Delimited(it.content));
      PayloadRoundTrip(data, i + |TagBytes(it.field, 2)|, it.content);
    }
  }

  /** After the first `n` items every field is the last one given so far. */
  lemma {:induction false} ReadsUpTo(items: seq<Item>, n: nat) returns (m: Pool)
    requires WellFormed(items) && |ItemsBytes(items)| < INT64 && n <= |items|
    requires forall j :: 0 <= j < n ==> Takes(items[j])
    ensures DecodeFrom(ItemsBytes(items), 0, EMPTY) == DecodeFrom(ItemsBytes(items), |ItemsBytes(items[..n])|, m)
    ensures forall k :: 1 <= k <= 5 ==> FieldOf(m, k) == LastUnder(items[..n], k)
  {
    hide DecodeFrom, ItemsBytes, WellFormed;
    if n == 0 {
      NoItems();
      m := EMPTY;
    } else {
      var it := items[n - 1];
      var rest := ReadsUpTo(items, n - 1);
      WellFormedAt(items, n - 1);
      ItemStandsAt(items, n - 1);
      ItemDecodes(ItemsBytes(items), |ItemsBytes(items[..n - 1])|, it, rest);
      m := if it.field <= 5 then SetField(rest, it.field, it.content) else rest;
      assert items[..n][..n - 1] == items[..n - 1];
      SetFieldSets(rest, it.field, if it.Text? then it.content else []);
      ItemIsNumbered(it);
    }
  }

  lemma ItemIsNumbered(it: Item)
    requires WellFormed([it])
    ensures 1 <= it.field
  {
  }

  lemma SetFieldSets(p: Pool, field: nat, s: Bytes)
    requires 1 <= field
    ensures forall k :: 1 <= k <= 5 ==> FieldOf(SetField(p, field, s), k) == if k == field then s else FieldOf(p, k)
  {
  }

  /**
    Reading any list of items, in any order, known and unknown numbers mixed: each field is the last text
    given under its number, and unknown items of every kind, groups included, are passed over.
   */
  lemma ReadsLast(items: seq<Item>)
    requires WellFormed(items) && |ItemsBytes(items)| < INT64
    requires forall j :: 0 <= j < |items| ==> Takes(items[j])
    ensures var r := DecodeFrom(ItemsBytes(items), 0, EMPTY);
      r.Ok? && forall k :: 1 <= k <= 5 ==> FieldOf(r.value, k) == LastUnder(items, k)
  {
    hide ItemsBytes, WellFormed, FieldOf, LastUnder;
    var m := ReadsUpTo(items, |items|);
    assert items[..|items|] == items;
    DecodeAtEnd(ItemsBytes(items), m);
  }

  /** The first item of a known number that is no text ends the reading. */
  lemma RefusesOtherKinds(items: seq<Item>, n: nat)
    requires WellFormed(items) && |ItemsBytes(items)| < INT64 && n < |items|
    requires (forall j :: 0 <= j < n ==> Takes(items[j])) && !Takes(items[n])
    ensures DecodeFrom(ItemsBytes(items), 0, EMPTY) == Err(WrongWireType)
  {
    hide DecodeFrom, ItemsBytes, WellFormed, FieldOf, LastUnder;
    var m := ReadsUpTo(items, n);
    WellFormedAt(items, n);
    ItemStandsAt(items, n);
    ItemDecodes(ItemsBytes(items), |ItemsBytes(items[..n])|, items[n], m);
  }
}
