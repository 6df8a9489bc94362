/** The stored form of a CSR record, with its repeated contract field. */
module CsrCodec {
  import opened Basics
  import opened Bits
  import opened Wire
  import Text

  /** An NFT with its contracts (address strings as bytes), transaction count and revenue. */
  datatype Csr = Csr(contracts: seq<Bytes>, id: nat, txs: nat, revenue: nat)

  const EMPTY := Csr([], 0, 0, 0)

  predicate InRange(c: Csr) {
    c.id < UINT64 && c.txs < UINT64 && c.revenue < INT_LIMIT
  }

  // ---- The integer as decimal text ---------------------------------------------------------------------

  function IntText(n: nat): Bytes {
    var ds := Text.Digits(n);
    seq(|ds|, i requires 0 <= i < |ds| => 48 + ds[i])
  }

  predicate IsIntText(s: Bytes) {
    s != [] && forall i :: 0 <= i < |s| ==> 48 <= s[i] <= 57
  }

  function TextDigits(s: Bytes): seq<nat>
    requires IsIntText(s)
  {
    seq(|s|, i requires 0 <= i < |s| => s[i] - 48)
  }

  /** Empty text leaves the integer as it was. */
  function ReadInt(s: Bytes, current: nat): (r: Result<nat>) {
    if s == [] then Ok(current)
    else if !IsIntText(s) || Text.Value(TextDigits(s)) >= INT_LIMIT then Err(InvalidInteger)
    else Ok(Text.Value(TextDigits(s)))
  }

  lemma IntRoundTrip(n: nat, current: nat)
    requires n < INT_LIMIT
    ensures ReadInt(IntText(n), current) == Ok(n)
  {
    assert TextDigits(IntText(n)) == Text.Digits(n);
    Text.ValueOfDigits(n);
  }

  // ---- The record ----------------------------------------------------------------------------------------

  /** Contracts are written one by one, empty strings included. */
  function EncodeContracts(cs: seq<Bytes>): Bytes {
    if cs == [] then [] else [0x0A] + Delimited(cs[0]) + EncodeContracts(cs[1..])
  }

  function VarintField(tag: Byte, v: nat): Bytes {
    if v == 0 then [] else [tag] + EncodeVarint(v)
  }

  function Encode(c: Csr): (bs: Bytes)
    ensures bs != []
  {
    EncodeContracts(c.contracts)
      + (VarintField(0x10, c.id) + (VarintField(0x18, c.txs) + ([0x22] + Delimited(IntText(c.revenue)))))
  }

  /** Read the rest of the data from index `i` into the record `m`. */
  function DecodeFrom(data: Bytes, i: nat, m: Csr): (r: Result<Csr>)
    requires |data| < INT64
    decreases |data| - i
  {
    if i >= |data| then Ok(m) else
      var (field, wireType, next) :- Tag(data, i);
      match field
      case 1 =>
        if wireType != 2 then Err(WrongWireType) else
          var (s, post) :- Payload(data, next);
          DecodeFrom(data, post, m.(contracts := m.contracts + [s]))
      case 2 =>
        if wireType != 0 then Err(WrongWireType) else
          var (v, post) :- Varint(data, next);
          DecodeFrom(data, post, m.(id := v))
      case 3 =>
        if wireType != 0 then Err(WrongWireType) else
          var (v, post) :- Varint(data, next);
          DecodeFrom(data, post, m.(txs := v))
      case 4 =>
        if wireType != 2 then Err(WrongWireType) else
          var (s, post) :- Payload(data, next);
          var n :- ReadInt(s, m.revenue);
          DecodeFrom(data, post, m.(revenue := n))
      case _ =>
        var post :- SkipField(data, i);
        DecodeFrom(data, post, m)
  }

  lemma ContractDecodes(data: Bytes, i: nat, s: Bytes, m: Csr)
    requires |data| < INT64 && At(data, i, [0x0A] + Delimited(s))
    ensures DecodeFrom(data, i, m) == DecodeFrom(data, i + 1 + |Delimited(s)|, m.(contracts := m.contracts + [s]))
  {
    hide Tag, Payload, Varint, SkipField, ReadInt, Delimited;
    AtConcat(data, i, [0x0A], Delimited(s));
    TagRoundTrip(data, i, 1, 2);
    PayloadRoundTrip(data, i + 1, s);
  }

  lemma {:induction false} ContractsDecode(data: Bytes, i: nat, cs: seq<Bytes>, m: Csr)
    requires |data| < INT64 && At(data, i, EncodeContracts(cs))
    ensures DecodeFrom(data, i, m) == DecodeFrom(data, i + |EncodeContracts(cs)|, m.(contracts := m.contracts + cs))
    decreases |cs|
  {
    hide DecodeFrom, Delimited;
    if cs == [] {
      assert m.contracts + cs == m.contracts;
    } else {
      AtConcat(data, i, [0x0A] + Delimited(cs[0]), EncodeContracts(cs[1..]));
      ContractDecodes(data, i, cs[0], m);
      ContractsDecode(data, i + 1 + |Delimited(cs[0])|, cs[1..], m.(contracts := m.contracts + [cs[0]]));
      assert m.contracts + [cs[0]] + cs[1..] == m.contracts + cs;
    }
  }

  lemma VarintFieldReads(data: Bytes, i: nat, field: nat, v: nat)
    requires |data| < INT64 && 1 <= field <= 15 && v < UINT64 && At(data, i, [field * 8] + EncodeVarint(v))
    ensures Tag(data, i) == Ok((field, 0, i + 1)) && Varint(data, i + 1) == Ok((v, i + 1 + |EncodeVarint(v)|))
  {
    hide Tag, Varint, EncodeVarint;
    AtConcat(data, i, [field * 8], EncodeVarint(v));
    TagRoundTrip(data, i, field, 0);
    VarintRoundTrip(data, i + 1, v);
  }

  lemma IdDecodes(data: Bytes, i: nat, v: nat, m: Csr)
    requires |data| < INT64 && v < UINT64 && m.id == 0 && At(data, i, VarintField(0x10, v))
    ensures DecodeFrom(data, i, m) == DecodeFrom(data, i + |VarintField(0x10, v)|, m.(id := v))
  {
    hide Tag, Payload, Varint, SkipField, ReadInt, EncodeVarint;
    if v != 0 { VarintFieldReads(data, i, 2, v); }
  }

  lemma TxsDecodes(data: Bytes, i: nat, v: nat, m: Csr)
    requires |data| < INT64 && v < UINT64 && m.txs == 0 && At(data, i, VarintField(0x18, v))
    ensures DecodeFrom(data, i, m) == DecodeFrom(data, i + |VarintField(0x18, v)|, m.(txs := v))
  {
    hide Tag, Payload, Varint, SkipField, ReadInt, EncodeVarint;
    if v != 0 { VarintFieldReads(data, i, 3, v); }
  }

  lemma RevenueDecodes(data: Bytes, i: nat, n: nat, m: Csr)
    requires |data| < INT64 && n < INT_LIMIT && At(data, i, [0x22] + Delimited(IntText(n)))
    requires i + |[0x22] + Delimited(IntText(n))| == |data|
    ensures DecodeFrom(data, i, m) == Ok(m.(revenue := n))
  {
    hide Tag, Payload, Varint, SkipField, ReadInt, Delimited, IntText;
    AtConcat(data, i, [0x22], Delimited(IntText(n)));
    TagRoundTrip(data, i, 4, 2);
    PayloadRoundTrip(data, i + 1, IntText(n));
    IntRoundTrip(n, m.revenue);
  }

  /** Every CSR record, with any number of contracts of any length, survives being stored and read back. */
  lemma RoundTrip(c: Csr)
    requires InRange(c) && |Encode(c)| < INT64
    ensures DecodeFrom(Encode(c), 0, EMPTY) == Ok(c)
  {
    hide DecodeFrom, EncodeContracts, VarintField, Delimited;
    var data := Encode(c);
    var k, a, b, r := EncodeContracts(c.contracts), VarintField(0x10, c.id), VarintField(0x18, c.txs),
      [0x22] + Delimited(IntText(c.revenue));
    assert At(data, 0, k + (a + (b + r)));
    AtConcat(data, 0, k, a + (b + r));
    AtConcat(data, |k|, a, b + r);
    AtConcat(data, |k| + |a|, b, r);
    assert [] + c.contracts == c.contracts;
    ContractsDecode(data, 0, c.contracts, EMPTY);
    IdDecodes(data, |k|, c.id, Csr(c.contracts, 0, 0, 0));
    TxsDecodes(data, |k| + |a|, c.txs, Csr(c.contracts, c.id, 0, 0));
    RevenueDecodes(data, |k| + |a| + |b|, c.revenue, Csr(c.contracts, c.id, c.txs, 0));
  }

  lemma {:induction false} VarintLength(v: nat, k: nat)
    requires v < Pow2(7 * k) && 0 < k
    ensures |EncodeVarint(v)| <= k
  {
    if 128 <= v {
      assert Pow2(7 * k) == 128 * Pow2(7 * (k - 1)) by { Pow2Adds(7, 7 * (k - 1)); assert Pow2(7) == 128; }
      VarintLength(v / 128, k - 1);
    }
  }

  /** A record with one contract and a one-digit revenue takes up little space. */
  lemma SmallRecordFits(contract: Bytes, id: nat, txs: nat, revenue: nat)
    requires |contract| < 128 && id < UINT64 && txs < UINT64 && revenue < 10
    ensures |Encode(Csr([contract], id, txs, revenue))| < 200
  {
    Powers();
    Pow2Monotone(64, 70);
    hide Pow2;
    VarintLength(id, 10);
    VarintLength(txs, 10);
    hide EncodeVarint;
    DelimitedIsShort(contract);
    DelimitedIsShort(IntText(revenue));
    assert EncodeContracts([contract]) == [0x0A] + Delimited(contract) by { assert [contract][1..] == []; }
  }

  lemma DelimitedIsShort(s: Bytes)
    requires |s| < 128
    ensures |Delimited(s)| == 1 + |s|
  {
  }

  // ---- The generated code ----------------------------------------------------------------------------------

  lemma {:induction false} ContractsSnoc(cs: seq<Bytes>, s: Bytes)
    ensures EncodeContracts(cs + [s]) == EncodeContracts(cs) + ([0x0A] + Delimited(s))
  {
    hide Delimited;
    if cs == [] {
      assert EncodeContracts([s][1..]) == [];
    } else {
      ContractsSnoc(cs[1..], s);
      assert (cs + [s])[1..] == cs[1..] + [s];
    }
  }

  /** The announced size is the number of bytes written. */
  method Size(c: Csr) returns (n: nat)
    ensures n == |Encode(c)|
  {
    hide Sov;
    n := 0;
    for i := 0 to |c.contracts|
      invariant n == |EncodeContracts(c.contracts[..i])|
    {
      var l := |c.contracts[i]|;
      n := n + 1 + l + Sov(l);
      SovIsLength(l);
      ContractsSnoc(c.contracts[..i], c.contracts[i]);
      assert c.contracts[..i + 1] == c.contracts[..i] + [c.contracts[i]];
    }
    assert c.contracts[..|c.contracts|] == c.contracts;
    SovIsLength(c.id);
    SovIsLength(c.txs);
    if c.id != 0 { n := n + 1 + Sov(c.id); }
    if c.txs != 0 { n := n + 1 + Sov(c.txs); }
    var l := |IntText(c.revenue)|;
    SovIsLength(l);
    n := n + 1 + l + Sov(l);
  }

  /** Write a varint field, unless it is zero, in front of `tail`. */
  method WriteVarintField(dAtA: array<Byte>, ghost before: Bytes, end: nat, tag: Byte, v: nat, ghost tail: Bytes)
    returns (i: nat)
    requires v < UINT64 && |VarintField(tag, v)| <= end && Written(dAtA, before, end, tail)
    modifies dAtA
    ensures i == end - |VarintField(tag, v)|
    ensures Written(dAtA, before, i, VarintField(tag, v) + tail)
  {
    hide Sov, EncodeVarint;
    i := end;
    if v != 0 {
      SovIsLength(v);
      ghost var now := dAtA[..end];
      i := WriteVarint(dAtA, end, tag, v);
      assert dAtA[..i] == now[..i];
    } else {
      assert VarintField(tag, v) + tail == tail;
    }
  }

  method WritePayload(dAtA: array<Byte>, ghost before: Bytes, end: nat, tag: Byte, s: Bytes, ghost tail: Bytes)
    returns (i: nat)
    requires |s| < INT64 && 1 + |Delimited(s)| <= end && Written(dAtA, before, end, tail)
    modifies dAtA
    ensures i == end - (1 + |Delimited(s)|)
    ensures Written(dAtA, before, i, ([tag] + Delimited(s)) + tail)
  {
    hide Sov, Delimited;
    DelimitedLength(s);
    ghost var now := dAtA[..end];
    i := WriteDelimited(dAtA, end, tag, s);
    assert dAtA[..i] == now[..i];
  }

  lemma ContractsAt(cs: seq<Bytes>, k: nat, tail: Bytes)
    requires k < |cs|
    ensures EncodeContracts(cs[k..]) + tail == ([0x0A] + Delimited(cs[k])) + (EncodeContracts(cs[k + 1..]) + tail)
    ensures |EncodeContracts(cs[k..])| == 1 + |Delimited(cs[k])| + |EncodeContracts(cs[k + 1..])|
    ensures |EncodeContracts(cs[..k + 1])| == |EncodeContracts(cs[..k])| + 1 + |Delimited(cs[k])|
    ensures |cs[k]| <= |Delimited(cs[k])|
  {
    assert cs[k..][1..] == cs[k + 1..] && cs[..k + 1] == cs[..k] + [cs[k]];
    ContractsSnoc(cs[..k], cs[k]);
  }

  /** All contracts in front of `tail`, the last one first. */
  method WriteContracts(dAtA: array<Byte>, ghost before: Bytes, end: nat, cs: seq<Bytes>, ghost tail: Bytes)
    returns (i: nat)
    requires |EncodeContracts(cs)| <= end && |EncodeContracts(cs)| < INT64 && Written(dAtA, before, end, tail)
    modifies dAtA
    ensures i == end - |EncodeContracts(cs)|
    ensures Written(dAtA, before, i, EncodeContracts(cs) + tail)
  {
    i := end;
    assert cs[|cs|..] == [] && cs[..|cs|] == cs && EncodeContracts([]) == [] && [] + tail == tail;
    hide EncodeContracts, Delimited, Written;
    for k := |cs| downto 0
      invariant i == end - |EncodeContracts(cs[k..])| && |EncodeContracts(cs[..k])| <= i
        && |EncodeContracts(cs[..k])| < INT64
      invariant Written(dAtA, before, i, EncodeContracts(cs[k..]) + tail)
    {
      ContractsAt(cs, k, tail);
      i := WritePayload(dAtA, before, i, 0x0A, cs[k], EncodeContracts(cs[k + 1..]) + tail);
    }
    assert cs[0..] == cs;
  }

  /** Fill the end of a buffer large enough for the record, last field first. */
  method MarshalToSizedBuffer(c: Csr, dAtA: array<Byte>) returns (n: nat)
    requires InRange(c) && |Encode(c)| < INT64 && |Encode(c)| <= dAtA.Length
    modifies dAtA
    ensures n == |Encode(c)|
    ensures dAtA[..] == old(dAtA[..])[..dAtA.Length - n] + Encode(c)
  {
    hide Sov, Delimited, EncodeContracts, VarintField, IntText, Written;
    NothingWritten(dAtA);
    ghost var before := dAtA[..];
    var text := IntText(c.revenue);
    DelimitedLength(text);
    var i := WritePayload(dAtA, before, dAtA.Length, 0x22, text, []);
    ghost var tail := [0x22] + Delimited(text);
    assert tail + [] == tail;
    i := WriteVarintField(dAtA, before, i, 0x18, c.txs, tail);
    tail := VarintField(0x18, c.txs) + tail;
    i := WriteVarintField(dAtA, before, i, 0x10, c.id, tail);
    tail := VarintField(0x10, c.id) + tail;
    i := WriteContracts(dAtA, before, i, c.contracts, tail);
    n := dAtA.Length - i;
    AllWritten(dAtA, before, i, Encode(c));
  }

  lemma DelimitedLength(s: Bytes)
    ensures |Delimited(s)| == |s| + Sov(|s|)
  {
    hide Sov;
    SovIsLength(|s|);
  }

  method Marshal(c: Csr) returns (bytes: Bytes)
    requires InRange(c) && |Encode(c)| < INT64
    ensures bytes == Encode(c)
  {
    hide Encode;
    var size := Size(c);
    var dAtA := new Byte[size];
    var n := MarshalToSizedBuffer(c, dAtA);
    bytes := dAtA[..];
  }

  /** Read a record with the tag loop; it stops on every input and never reads outside it. */
  method Unmarshal(data: Bytes) returns (r: Result<Csr>)
    requires |data| < INT64
    ensures r == DecodeFrom(data, 0, EMPTY)
  {
    hide SkipField, Payload, Tag, Varint, ReadInt;
    var i: nat, m := 0, EMPTY;
    while i < |data|
      invariant DecodeFrom(data, i, m) == DecodeFrom(data, 0, EMPTY)
      decreases |data| - i
    {
      var tag := ReadTag(data, i);
      if tag.Err? { return Err(tag.error); }
      var (field, wireType, next) := tag.value;
      if field == 1 || field == 4 {
        if wireType != 2 { return Err(WrongWireType); }
        var payload := ReadPayload(data, next);
        if payload.Err? { return Err(payload.error); }
        if field == 1 {
          m := m.(contracts := m.contracts + [payload.value.0]);
        } else {
          var n := ReadInt(payload.value.0, m.revenue);
          if n.Err? { return Err(n.error); }
          m := m.(revenue := n.value);
        }
        i := payload.value.1;
      } else if field == 2 || field == 3 {
        if wireType != 0 { return Err(WrongWireType); }
        var value := ReadVarint(data, next);
        if value.Err? { return Err(value.error); }
        if field == 2 { m := m.(id := value.value.0); } else { m := m.(txs := value.value.0); }
        i := value.value.1;
      } else {
        var skipped := SkipUnknown(data, i);
        if skipped.Err? { return Err(skipped.error); }
        i := skipped.value;
      }
    }
    return Ok(m);
  }
}
