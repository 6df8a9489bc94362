/** The byte format of CSR records, stated apart from the code that writes and reads them. */
module CsrFormat {
  import opened Basics
  import opened Wire
  import opened WireItems
  import opened CsrCodec
  import Text

  // ---- Writing ------------------------------------------------------------------------------------------

  /** A length and the bytes. */
  function Counted(s: Bytes): Bytes {
    EncodeVarint(|s|) + s
  }

  /** The space that contracts take: for each a tag, a length and the bytes. */
  function ContractsSpan(cs: seq<Bytes>): nat {
    if cs == [] then 0 else ContractsSpan(cs[..|cs| - 1]) + 1 + |Counted(cs[|cs| - 1])|
  }

  /** The space a number takes: none if it is zero. */
  function NumberSpan(v: nat): nat {
    if v == 0 then 0 else 1 + |EncodeVarint(v)|
  }

  lemma {:induction false} ContractsSpanIsLength(cs: seq<Bytes>)
    ensures |EncodeContracts(cs)| == ContractsSpan(cs)
  {
    if cs != [] {
      var n := |cs| - 1;
      ContractsSpanIsLength(cs[..n]);
      ContractsSnoc(cs[..n], cs[n]);
      assert cs == cs[..n] + [cs[n]];
    }
  }

  lemma {:induction false} ContractsConcat(a: seq<Bytes>, b: seq<Bytes>)
    ensures EncodeContracts(a + b) == EncodeContracts(a) + EncodeContracts(b)
  {
    hide Delimited;
    if a == [] {
      assert a + b == b;
    } else {
      assert (a + b)[1..] == a[1..] + b;
      ContractsConcat(a[1..], b);
    }
  }

  lemma OneContract(s: Bytes)
    ensures EncodeContracts([s]) == [0x0A] + Counted(s)
  {
    assert [s][1..] == [];
  }

  lemma FourParts(a: Bytes, b: Bytes, c: Bytes, d: Bytes)
    ensures var data := a + (b + (c + d));
      At(data, 0, a) && At(data, |a|, b) && At(data, |a| + |b|, c) && At(data, |a| + |b| + |c|, d)
  {
    var data := a + (b + (c + d));
    assert At(data, 0, data);
    hide At;
    AtConcat(data, 0, a, b + (c + d));
    AtConcat(data, |a|, b, c + d);
    AtConcat(data, |a| + |b|, c, d);
  }

  /** Contract `i` stands after the contracts before it, under tag 0x0A, empty or not. */
  lemma ContractStandsAt(c: Csr, i: nat)
    requires i < |c.contracts|
    ensures At(Encode(c), ContractsSpan(c.contracts[..i]), [0x0A] + Counted(c.contracts[i]))
  {
    hide VarintField, Delimited, EncodeContracts, Counted;
    var cs := c.contracts;
    assert cs == cs[..i] + ([cs[i]] + cs[i + 1..]);
    ContractsConcat(cs[..i], [cs[i]] + cs[i + 1..]);
    ContractsConcat([cs[i]], cs[i + 1..]);
    OneContract(cs[i]);
    ContractsSpanIsLength(cs[..i]);
    var rest := VarintField(0x10, c.id) + (VarintField(0x18, c.txs) + ([0x22] + Delimited(IntText(c.revenue))));
    ThreeParts(EncodeContracts(cs[..i]), [0x0A] + Counted(cs[i]), EncodeContracts(cs[i + 1..]), rest);
  }

  lemma ThreeParts(a: Bytes, b: Bytes, c: Bytes, d: Bytes)
    ensures At((a + (b + c)) + d, |a|, b)
  {
    assert (a + (b + c)) + d == a + (b + (c + d));
    FourParts(a, b, c, d);
  }

  /**
    After the contracts: the id under tag 0x10 and the transaction count under tag 0x18, each as a varint
    unless it is zero; then, always, the revenue under tag 0x22 as a length and decimal digits; and no more.
   */
  lemma NumbersStandAt(c: Csr)
    ensures var idAt := ContractsSpan(c.contracts);
      var txsAt := idAt + NumberSpan(c.id);
      var revenueAt := txsAt + NumberSpan(c.txs);
      && (c.id != 0 ==> At(Encode(c), idAt, [0x10] + EncodeVarint(c.id)))
      && (c.txs != 0 ==> At(Encode(c), txsAt, [0x18] + EncodeVarint(c.txs)))
      && At(Encode(c), revenueAt, [0x22] + Counted(IntText(c.revenue)))
      && |Encode(c)| == revenueAt + 1 + |Counted(IntText(c.revenue))|
  {
    hide EncodeContracts, EncodeVarint, IntText, At;
    ContractsSpanIsLength(c.contracts);
    FourParts(EncodeContracts(c.contracts), VarintField(0x10, c.id), VarintField(0x18, c.txs),
      [0x22] + Delimited(IntText(c.revenue)));
  }

  /** Decimal digits, most significant first and none too many, that make up the number. */
  lemma DecimalText(n: nat)
    ensures IsIntText(IntText(n)) && Text.Value(TextDigits(IntText(n))) == n
    ensures 1 < |IntText(n)| ==> IntText(n)[0] != 48
  {
    assert TextDigits(IntText(n)) == Text.Digits(n);
    Text.ValueOfDigits(n);
    NoLeadingZero(n);
  }

  lemma {:induction false} NoLeadingZero(n: nat)
    ensures 1 < |Text.Digits(n)| ==> Text.Digits(n)[0] != 0
  {
    if 10 <= n { NoLeadingZero(n / 10); }
  }

  // ---- Reading --------------------------------------------------------------------------------------------

  /** The texts under number `k`, in order. */
  function TextsUnder(items: seq<Item>, k: nat): seq<Bytes> {
    if items == [] then [] else
      var rest, last := TextsUnder(items[..|items| - 1], k), items[|items| - 1];
      if last.Text? && last.field == k then rest + [last.content] else rest
  }

  /** The last number under `k`; zero if there is none. */
  function LastNumber(items: seq<Item>, k: nat): nat {
    if items == [] then 0 else
      var last := items[|items| - 1];
      if last.Number? && last.field == k then last.value else LastNumber(items[..|items| - 1], k)
  }

  /** The last number written out under `k`; zero if there is none. */
  function LastDecimal(items: seq<Item>, k: nat): nat {
    if items == [] then 0 else
      var last := items[|items| - 1];
      if last.Text? && last.field == k && IsIntText(last.content) then Text.Value(TextDigits(last.content))
      else LastDecimal(items[..|items| - 1], k)
  }

  /** An item of the kind its number calls for; other numbers may hold anything. */
  predicate RightKind(it: Item) {
    && (it.field == 1 || it.field == 4 ==> it.Text?)
    && (it.field == 2 || it.field == 3 ==> it.Number?)
  }

  /** No text, or decimal digits of a number below 2^256. */
  predicate Decimal(s: Bytes) {
    s == [] || (IsIntText(s) && Text.Value(TextDigits(s)) < INT_LIMIT)
  }

  predicate Takes(it: Item) {
    RightKind(it) && (it.field == 4 ==> Decimal(it.content))
  }

  /** The record with one more item read. */
  function With(m: Csr, it: Item): Csr
    requires Takes(it)
  {
    match it.field
    case 1 => m.(contracts := m.contracts + [it.content])
    case 2 => m.(id := it.value)
    case 3 => m.(txs := it.value)
    case 4 => if it.content == [] then m else m.(revenue := Text.Value(TextDigits(it.content)))
    case _ => m
  }

  lemma TextItemReads(data: Bytes, i: nat, field: nat, s: Bytes)
    requires |data| < INT64 && WellFormed([Text(field, s)]) && At(data, i, ItemsBytes([Text(field, s)]))
    ensures Payload(data, i + |TagBytes(field, 2)|) == Ok((s, i + |ItemsBytes([Text(field, s)])|))
  {
    hide Payload, ItemsBytes, TagBytes, Delimited;
    TextBytes(field, s);
    AtConcat(data, i, TagBytes(field, 2), Delimited(s));
    PayloadRoundTrip(data, i + |TagBytes(field, 2)|, s);
  }

  lemma NumberItemReads(data: Bytes, i: nat, field: nat, v: nat)
    requires |data| < INT64 && WellFormed([Number(field, v)]) && At(data, i, ItemsBytes([Number(field, v)]))
    ensures Varint(data, i + |TagBytes(field, 0)|) == Ok((v, i + |ItemsBytes([Number(field, v)])|))
  {
    hide Varint, ItemsBytes, TagBytes, EncodeVarint;
    NumberBytes(field, v);
    AtConcat(data, i, TagBytes(field, 0), EncodeVarint(v));
    VarintRoundTrip(data, i + |TagBytes(field, 0)|, v);
  }

  lemma ItemDecodes(data: Bytes, i: nat, it: Item, m: Csr)
    requires |data| < INT64 && WellFormed([it]) && At(data, i, ItemsBytes([it]))
    ensures DecodeFrom(data, i, m) ==
      if !RightKind(it) then Err(WrongWireType)
      else if !Takes(it) then Err(InvalidInteger)
      else DecodeFrom(data, i + |ItemsBytes([it])|, With(m, it))
  {
    hide Tag, Payload, Varint, SkipField, ItemsBytes, TagBytes, WellFormed, IsIntText, TextDigits, At;
    ItemTag(data, i, it);
    if 4 < it.field {
      SkipFieldEnds(data, i, it);
    } else if RightKind(it) {
      if it.Text? { TextItemReads(data, i, it.field, it.content); }
      if it.Number? { NumberItemReads(data, i, it.field, it.value); }
    }
  }

  /** What the first `n` items amount to. */
  ghost predicate Holds(m: Csr, items: seq<Item>) {
    && m.contracts == TextsUnder(items, 1) && m.id == LastNumber(items, 2) && m.txs == LastNumber(items, 3)
    && m.revenue == LastDecimal(items, 4)
  }

  lemma HoldsNext(m: Csr, items: seq<Item>, n: nat)
    requires n < |items| && Takes(items[n]) && Holds(m, items[..n]) && 1 <= items[n].field
    ensures Holds(With(m, items[n]), items[..n + 1])
  {
    hide TextDigits;
    assert items[..n + 1][..n] == items[..n] && items[..n + 1][n] == items[n];
  }

  lemma {:induction false} ReadsUpTo(items: seq<Item>, n: nat) returns (m: Csr)
    requires WellFormed(items) && |ItemsBytes(items)| < INT64 && n <= |items|
    requires forall j :: 0 <= j < n ==> Takes(items[j])
    ensures DecodeFrom(ItemsBytes(items), 0, EMPTY) == DecodeFrom(ItemsBytes(items), |ItemsBytes(items[..n])|, m)
    ensures Holds(m, items[..n])
  {
    hide DecodeFrom, ItemsBytes, WellFormed, Takes, With;
    if n == 0 {
      NoItems();
      m := EMPTY;
    } else {
      hide Holds;
      var it := items[n - 1];
      var rest := ReadsUpTo(items, n - 1);
      WellFormedAt(items, n - 1);
      ItemStandsAt(items, n - 1);
      ItemDecodes(ItemsBytes(items), |ItemsBytes(items[..n - 1])|, it, rest);
      m := With(rest, it);
      ItemIsNumbered(it);
      TakesKind(it);
      HoldsNext(rest, items, n - 1);
    }
  }

  lemma ItemIsNumbered(it: Item)
    requires WellFormed([it])
    ensures 1 <= it.field
  {
  }

  lemma TakesKind(it: Item)
    ensures Takes(it) ==> RightKind(it)
  {
  }

  /**
    Reading any list of items, in any order, known and unknown numbers mixed: the contracts are all texts
    under 1, id and count the last numbers under 2 and 3, the revenue the last number written out under 4,
    and unknown items of every kind are passed over.
   */
  lemma ReadsAll(items: seq<Item>)
    requires WellFormed(items) && |ItemsBytes(items)| < INT64
    requires forall j :: 0 <= j < |items| ==> Takes(items[j])
    ensures var r := DecodeFrom(ItemsBytes(items), 0, EMPTY); r.Ok? && Holds(r.value, items)
  {
    var m := ReadsUpTo(items, |items|);
    assert items[..|items|] == items;
    hide ItemsBytes, WellFormed, Holds, Takes;
  }

  /** The first item that the record cannot take ends the reading with the error its fault calls for. */
  lemma RefusesOthers(items: seq<Item>, n: nat)
    requires WellFormed(items) && |ItemsBytes(items)| < INT64 && n < |items|
    requires (forall j :: 0 <= j < n ==> Takes(items[j])) && !Takes(items[n])
    ensures DecodeFrom(ItemsBytes(items), 0, EMPTY)
      == if RightKind(items[n]) then Err(InvalidInteger) else Err(WrongWireType)
  {
    hide DecodeFrom, ItemsBytes, WellFormed, Holds, Takes, RightKind;
    var m := ReadsUpTo(items, n);
    WellFormedAt(items, n);
    ItemStandsAt(items, n);
    ItemDecodes(ItemsBytes(items), |ItemsBytes(items[..n])|, items[n], m);
    TakesKind(items[n]);
  }
}
