/** The stored form of a pool record: written backwards into a sized buffer, read forwards by a tag loop. */
module PoolCodec {
  import opened Wire

  /** Strings are their bytes. */
  datatype Pool = Pool(id: Bytes, standardDenom: Bytes, counterpartyDenom: Bytes, escrowAddress: Bytes, lptDenom: Bytes)

  const EMPTY := Pool([], [], [], [], [])

  /** A string field; an empty string is not written. */
  function StringField(tag: Byte, s: Bytes): Bytes {
    if s == [] then [] else [tag] + Delimited(s)
  }

  function Encode(p: Pool): Bytes {
    StringField(0x0A, p.id) + (StringField(0x12, p.standardDenom) + (StringField(0x1A, p.counterpartyDenom)
      + (StringField(0x22, p.escrowAddress) + StringField(0x2A, p.lptDenom))))
  }

  function FieldSize(s: Bytes): nat {
    if |s| > 0 then 1 + |s| + Sov(|s|) else 0
  }

  function Size(p: Pool): nat {
    FieldSize(p.id) + FieldSize(p.standardDenom) + FieldSize(p.counterpartyDenom) + FieldSize(p.escrowAddress)
      + FieldSize(p.lptDenom)
  }

  lemma FieldSizeIsLength(tag: Byte, s: Bytes)
    ensures FieldSize(s) == |StringField(tag, s)|
  {
    hide Sov;
    SovIsLength(|s|);
  }

  /** The announced size is the number of bytes written. */
  lemma SizeIsLength(p: Pool)
    ensures Size(p) == |Encode(p)|
  {
    hide FieldSize, StringField;
    FieldSizeIsLength(0x0A, p.id);
    FieldSizeIsLength(0x12, p.standardDenom);
    FieldSizeIsLength(0x1A, p.counterpartyDenom);
    FieldSizeIsLength(0x22, p.escrowAddress);
    FieldSizeIsLength(0x2A, p.lptDenom);
  }

  function SetField(p: Pool, field: int, s: Bytes): Pool {
    match field
    case 1 => p.(id := s)
    case 2 => p.(standardDenom := s)
    case 3 => p.(counterpartyDenom := s)
    case 4 => p.(escrowAddress := s)
    case 5 => p.(lptDenom := s)
    case _ => p
  }

  /** Read the rest of the data from index `i` into the record `m`. */
  function DecodeFrom(data: Bytes, i: nat, m: Pool): (r: Result<Pool>)
    requires |data| < INT64
    decreases |data| - i
  {
    if i >= |data| then Ok(m) else
      var (field, wireType, next) :- Tag(data, i);
      if 1 <= field <= 5 then
        if wireType != 2 then Err(WrongWireType) else
          var (s, post) :- Payload(data, next);
          DecodeFrom(data, post, SetField(m, field, s))
      else
        var post :- SkipField(data, i);
        DecodeFrom(data, post, m)
  }

  lemma FieldDecodes(data: Bytes, i: nat, field: nat, s: Bytes, m: Pool)
    requires |data| < INT64 && 1 <= field <= 5 && At(data, i, StringField(field * 8 + 2, s))
    ensures DecodeFrom(data, i, m)
         == DecodeFrom(data, i + |StringField(field * 8 + 2, s)|, if s == [] then m else SetField(m, field, s))
  {
    hide Tag, Payload, SetField;
    if s != [] {
      AtConcat(data, i, [field * 8 + 2], Delimited(s));
      TagRoundTrip(data, i, field, 2);
      PayloadRoundTrip(data, i + 1, s);
    }
  }

  /** Every pool record survives being stored and read back into an empty record. */
  lemma RoundTrip(p: Pool)
    requires |Encode(p)| < INT64
    ensures DecodeFrom(Encode(p), 0, EMPTY) == Ok(p)
  {
    hide DecodeFrom, StringField;
    var data := Encode(p);
    var a, b, c, d, e := StringField(0x0A, p.id), StringField(0x12, p.standardDenom),
        StringField(0x1A, p.counterpartyDenom),
      StringField(0x22, p.escrowAddress), StringField(0x2A, p.lptDenom);
    assert At(data, 0, a + (b + (c + (d + e))));
    AtConcat(data, 0, a, b + (c + (d + e)));
    AtConcat(data, |a|, b, c + (d + e));
    AtConcat(data, |a| + |b|, c, d + e);
    AtConcat(data, |a| + |b| + |c|, d, e);
    var m1 := EMPTY.(id := p.id);
    var m2 := m1.(standardDenom := p.standardDenom);
    var m3 := m2.(counterpartyDenom := p.counterpartyDenom);
    var m4 := m3.(escrowAddress := p.escrowAddress);
    FieldDecodes(data, 0, 1, p.id, EMPTY);
    FieldDecodes(data, |a|, 2, p.standardDenom, m1);
    FieldDecodes(data, |a| + |b|, 3, p.counterpartyDenom, m2);
    FieldDecodes(data, |a| + |b| + |c|, 4, p.escrowAddress, m3);
    FieldDecodes(data, |a| + |b| + |c| + |d|, 5, p.lptDenom, m4);
    DecodeAtEnd(data, p);
  }

  lemma DecodeAtEnd(data: Bytes, m: Pool)
    requires |data| < INT64
    ensures DecodeFrom(data, |data|, m) == Ok(m)
  {
  }

  /** Write a field, unless it is empty, in front of `tail`. */
  method WriteField(dAtA: array<Byte>, ghost before: Bytes, end: nat, tag: Byte, s: Bytes, ghost tail: Bytes)
    returns (i: nat)
    requires |s| < INT64 && FieldSize(s) <= end && Written(dAtA, before, end, tail)
    modifies dAtA
    ensures i == end - FieldSize(s)
    ensures Written(dAtA, before, i, StringField(tag, s) + tail)
  {
    hide Sov, Delimited;
    i := end;
    if |s| > 0 {
      ghost var now := dAtA[..end];
      i := WriteDelimited(dAtA, end, tag, s);
      assert dAtA[..i] == now[..i];
    } else {
      assert StringField(tag, s) + tail == tail;
    }
  }

  /** Fill the end of a buffer of at least `Size(p)` bytes, last field first. */
  method MarshalToSizedBuffer(p: Pool, dAtA: array<Byte>) returns (n: nat)
    requires Size(p) < INT64 && Size(p) <= dAtA.Length
    modifies dAtA
    ensures n == Size(p)
    ensures dAtA[..] == old(dAtA[..])[..dAtA.Length - n] + Encode(p)
  {
    hide StringField, FieldSize, Written;
    FieldsFit(p);
    NothingWritten(dAtA);
    ghost var before := dAtA[..];
    var i := WriteField(dAtA, before, dAtA.Length, 0x2A, p.lptDenom, []);
    ghost var tail := StringField(0x2A, p.lptDenom) + [];
    i := WriteField(dAtA, before, i, 0x22, p.escrowAddress, tail);
    tail := StringField(0x22, p.escrowAddress) + tail;
    i := WriteField(dAtA, before, i, 0x1A, p.counterpartyDenom, tail);
    tail := StringField(0x1A, p.counterpartyDenom) + tail;
    i := WriteField(dAtA, before, i, 0x12, p.standardDenom, tail);
    tail := StringField(0x12, p.standardDenom) + tail;
    i := WriteField(dAtA, before, i, 0x0A, p.id, tail);
    n := dAtA.Length - i;
    assert StringField(0x2A, p.lptDenom) + [] == StringField(0x2A, p.lptDenom);
    AllWritten(dAtA, before, i, Encode(p));
  }

  lemma FieldsFit(p: Pool)
    requires Size(p) < INT64
    ensures |p.id| < INT64 && |p.standardDenom| < INT64 && |p.counterpartyDenom| < INT64
    ensures |p.escrowAddress| < INT64 && |p.lptDenom| < INT64
  {
    hide Sov;
  }

  method Marshal(p: Pool) returns (bytes: Bytes)
    requires Size(p) < INT64
    ensures bytes == Encode(p) && |bytes| == Size(p)
  {
    hide Size, Encode;
    SizeIsLength(p);
    var dAtA := new Byte[Size(p)];
    var n := MarshalToSizedBuffer(p, dAtA);
    bytes := dAtA[..];
  }

  /** Read a record with the tag loop; it stops on every input and never reads outside it. */
  method Unmarshal(data: Bytes) returns (r: Result<Pool>)
    requires |data| < INT64
    ensures r == DecodeFrom(data, 0, EMPTY)
  {
    hide SkipField, Payload, Tag;
    var i: nat, m := 0, EMPTY;
    while i < |data|
      invariant DecodeFrom(data, i, m) == DecodeFrom(data, 0, EMPTY)
      decreases |data| - i
    {
      var tag := ReadTag(data, i);
      if tag.Err? { return Err(tag.error); }
      var (field, wireType, next) := tag.value;
      if 1 <= field <= 5 {
        if wireType != 2 { return Err(WrongWireType); }
        var payload := ReadPayload(data, next);
        if payload.Err? { return Err(payload.error); }
        match field {
          case 1 => m := m.(id := payload.value.0);
          case 2 => m := m.(standardDenom := payload.value.0);
          case 3 => m := m.(counterpartyDenom := payload.value.0);
          case 4 => m := m.(escrowAddress := payload.value.0);
          case _ => m := m.(lptDenom := payload.value.0);
        }
        i := payload.value.1;
      } else {
        var skipped := SkipUnknown(data, i);
        if skipped.Err? { return Err(skipped.error); }
        i := skipped.value;
      }
    }
    return Ok(m);
  }
}
