/**
  Wire data as a list of tagged items, independent of how any record is read or written: what bytes stand
  for, and that the reading code goes through them item by item.
 */
module WireItems {
  import opened Arithmetic
  import opened Basics
  import opened Bits
  import opened Wire

  // ---- What the bytes of a varint mean -----------------------------------------------------------------

  /** Seven bits per byte, least significant first. */
  function Groups(bs: Bytes): nat {
    if bs == [] then 0 else bs[0] % 128 + 128 * Groups(bs[1..])
  }

  /** All bytes but the last announce another one. */
  predicate Chained(bs: Bytes) {
    bs != [] && bs[|bs| - 1] < 128 && forall j :: 0 <= j < |bs| - 1 ==> 128 <= bs[j]
  }

  /** A varint is written as the shortest chain of groups that makes up the number. */
  lemma {:induction false} VarintForm(v: nat)
    ensures Chained(EncodeVarint(v)) && Groups(EncodeVarint(v)) == v
    ensures 1 < |EncodeVarint(v)| ==> EncodeVarint(v)[|EncodeVarint(v)| - 1] != 0
  {
    if 128 <= v {
      VarintForm(v / 128);
      var rest := EncodeVarint(v / 128);
      assert EncodeVarint(v)[1..] == rest;
      forall j | 0 <= j < |rest| ensures EncodeVarint(v)[j + 1] == rest[j] {
      }
    } else {
      assert [v][1..] == [];
    }
  }

  /** The tenth group has room for one bit only. */
  lemma LastGroup(acc: nat, b: Byte)
    requires acc < Pow2(63) && acc < UINT64
    ensures PushGroup(acc, b, 63) == (acc + (b % 128) * Pow2(63)) % UINT64
  {
    hide Pow2, And, Or, PushGroup;
    Powers();
    assert UINT64 == 2 * Pow2(63) by { Pow2Adds(1, 63); assert Pow2(1) == 2 by { PowOne(); } }
    var top, p := b % 128, Pow2(63);
    assert top * p == (top / 2) * UINT64 + (top % 2) * p by {
      assert top == (top / 2) * 2 + top % 2;
      assert ((top / 2) * 2) * p == (top / 2) * (2 * p);
      assert top * p == ((top / 2) * 2) * p + (top % 2) * p;
    }
    MulLe(top % 2, 1, p);
    RemOfSum(top / 2, UINT64, (top % 2) * p);
    RemOfSum(top / 2, UINT64, acc + (top % 2) * p);
    GroupOr(acc, b, 63);
    OrDisjoint(acc, top % 2, 63);
  }

  lemma PowOne()
    ensures Pow2(1) == 2
  {
  }

  lemma RemOfSum(q: nat, d: nat, r: nat)
    requires 0 < d && r < d
    ensures Rem(q * d + r, d) == r && (q * d + r) % d == r
  {
    DivUnique(q * d + r, d, q, r);
  }

  lemma GroupOr(acc: nat, b: Byte, shift: nat)
    requires acc < UINT64
    ensures 0 <= (b % 128) * Pow2(shift)
    ensures PushGroup(acc, b, shift) == Or(acc, Rem((b % 128) * Pow2(shift), UINT64))
  {
    hide Pow2, Or;
    Powers();
    AndMask(b, 7);
    MulNat(b % 128, Pow2(shift));
  }

  lemma EarlyGroup(acc: nat, b: Byte, j: nat)
    requires j <= 8 && acc < Pow2(7 * j) && acc < UINT64
    ensures PushGroup(acc, b, 7 * j) == acc + (b % 128) * Pow2(7 * j) < Pow2(7 * (j + 1)) < UINT64
  {
    hide Pow2, PushGroup;
    Powers();
    var p, low := Pow2(7 * j), b % 128;
    assert Pow2(7 * (j + 1)) == 128 * p by { Pow2Adds(7, 7 * j); }
    Pow2Monotone(7 * (j + 1), 63);
    assert UINT64 == 2 * Pow2(63) by { Pow2Adds(1, 63); PowOne(); }
    MulLe(low, 127, p);
    GroupAdds(acc, b, 7 * j);
  }

  /** A longer chain is a byte that announces another one and a chain. */
  lemma ChainTail(data: Bytes, i: nat, n: nat)
    requires 1 < n && i + n <= |data| && Chained(data[i..i + n])
    ensures 128 <= data[i] && Chained(data[i + 1..i + 1 + (n - 1)])
    ensures Groups(data[i..i + n]) == data[i] % 128 + 128 * Groups(data[i + 1..i + 1 + (n - 1)])
  {
    var bs, tail := data[i..i + n], data[i + 1..i + 1 + (n - 1)];
    assert bs[0] == data[i] && bs[1..] == tail;
    forall k | 0 <= k < |tail| ensures tail[k] == bs[k + 1] {
    }
  }

  lemma GroupsAddUp(acc: nat, low: nat, rest: nat, p: nat)
    ensures (acc + low * p) + rest * (128 * p) == acc + (low + 128 * rest) * p
  {
    assert (128 * rest) * p == rest * (128 * p);
  }

  lemma OneGroup(data: Bytes, i: nat)
    requires i < |data|
    ensures Groups(data[i..i + 1]) == data[i] % 128
    ensures Chained(data[i..i + 1]) <==> data[i] < 128
  {
    assert data[i..i + 1] == [data[i]] && [data[i]][1..] == [];
  }

  /** Reading from any point of the loop adds up the groups, modulo 2^64. */
  lemma {:induction false} VarintFromMeans(data: Bytes, i: nat, j: nat, acc: nat, n: nat)
    requires 0 < n && j + n <= 10 && i + n <= |data| && Chained(data[i..i + n])
    requires acc < Pow2(7 * j) && acc < UINT64
    ensures VarintFrom(data, i, 7 * j, acc) == Ok(((acc + Groups(data[i..i + n]) * Pow2(7 * j)) % UINT64, i + n))
    decreases n
  {
    hide Pow2, PushGroup, Chained, Groups;
    if n == 1 {
      OneGroup(data, i);
      if j <= 8 {
        EarlyGroup(acc, data[i], j);
        SmallIsItself(acc + (data[i] % 128) * Pow2(7 * j));
      } else {
        LastGroup(acc, data[i]);
      }
    } else {
      EarlyGroup(acc, data[i], j);
      ChainTail(data, i, n);
      var p, low := Pow2(7 * j), data[i] % 128;
      VarintFromMeans(data, i + 1, j + 1, acc + low * p, n - 1);
      assert Pow2(7 * (j + 1)) == 128 * p by { Pow2Adds(7, 7 * j); Powers(); }
      GroupsAddUp(acc, low, Groups(data[i + 1..i + 1 + (n - 1)]), p);
    }
  }

  lemma SmallIsItself(n: nat)
    requires n < UINT64
    ensures n % UINT64 == n
  {
  }

  /** Ten bytes that all announce another one are too many; fewer that end the data are too few. */
  lemma {:induction false} VarintFromFails(data: Bytes, i: nat, j: nat, acc: nat)
    requires i <= |data| && j <= 10 && acc < UINT64
    requires forall k :: i <= k < |data| && k < i + 10 - j ==> 128 <= data[k]
    ensures VarintFrom(data, i, 7 * j, acc) == if i + 10 - j <= |data| then Err(IntOverflow) else Err(UnexpectedEof)
    decreases 10 - j
  {
    hide PushGroup;
    if j < 10 && i < |data| { VarintFromFails(data, i + 1, j + 1, PushGroup(acc, data[i], 7 * j)); }
  }

  /**
    What a varint is: a chain of at most ten bytes read as the number its groups make up modulo 2^64; any
    other bytes are an error, too many or too few.
   */
  lemma VarintMeans(data: Bytes, i: nat, n: nat)
    requires i <= |data|
    ensures 0 < n <= 10 && i + n <= |data| && Chained(data[i..i + n]) ==>
      Varint(data, i) == Ok((Groups(data[i..i + n]) % UINT64, i + n))
    ensures (forall k :: i <= k < |data| && k < i + 10 ==> 128 <= data[k]) ==>
      Varint(data, i) == if i + 10 <= |data| then Err(IntOverflow) else Err(UnexpectedEof)
  {
    hide VarintFrom, Chained;
    assert Pow2(7 * 0) == 1;
    if 0 < n <= 10 && i + n <= |data| && Chained(data[i..i + n]) { VarintFromMeans(data, i, 0, 0, n); }
    if forall k :: i <= k < |data| && k < i + 10 ==> 128 <= data[k] { VarintFromFails(data, i, 0, 0); }
  }

  /** A payload is taken exactly when its announced length lies within the data; no wrap-around lets another through. */
  lemma PayloadMeans(data: Bytes, i: nat)
    requires |data| < INT64
    ensures match Varint(data, i)
      case Err(e) => Payload(data, i) == Err(e)
      case Ok((n, start)) =>
        if start + n <= |data| then Payload(data, i) == Ok((data[start..start + n], start + n))
        else Payload(data, i) == if start + n < INT64 then Err(UnexpectedEof) else Err(InvalidLength)
  {
    hide Varint;
  }

  // ---- Items ------------------------------------------------------------------------------------------------

  /** A field number with content of one of the five kinds; a group holds items. */
  datatype Item =
    | Number(field: nat, value: nat)
    | Fixed64(field: nat, content: Bytes)
    | Text(field: nat, content: Bytes)
    | Group(field: nat, items: seq<Item>)
    | Fixed32(field: nat, content: Bytes)

  ghost predicate WellFormed(items: seq<Item>)
    decreases items
  {
    items != [] ==>
      && 1 <= items[0].field < INT32 && WellFormed(items[1..])
      && match items[0]
         case Number(_, value) => value < UINT64
         case Fixed64(_, content) => |content| == 8
         case Text(_, _) => true
         case Group(_, inner) => WellFormed(inner)
         case Fixed32(_, content) => |content| == 4
  }

  function TagBytes(field: nat, wireType: nat): Bytes {
    EncodeVarint(field * 8 + wireType)
  }

  /** Items one after the other, each its tag and its content; a group is closed by a tag of its own. */
  function ItemsBytes(items: seq<Item>): Bytes
    decreases items
  {
    if items == [] then [] else
      (match items[0]
       case Number(field, value) => TagBytes(field, 0) + EncodeVarint(value)
       case Fixed64(field, content) => TagBytes(field, 1) + content
       case Text(field, content) => TagBytes(field, 2) + Delimited(content)
       case Group(field, inner) => TagBytes(field, 3) + (ItemsBytes(inner) + TagBytes(field, 4))
       case Fixed32(field, content) => TagBytes(field, 5) + content)
      + ItemsBytes(items[1..])
  }

  /** Items can be taken one at a time. */
  lemma ItemsCons(items: seq<Item>)
    requires items != []
    ensures ItemsBytes(items) == ItemsBytes([items[0]]) + ItemsBytes(items[1..])
    ensures WellFormed(items) <==> WellFormed([items[0]]) && WellFormed(items[1..])
  {
    assert [items[0]][1..] == [];
    assert ItemsBytes([]) == [];
  }

  lemma {:induction false} ItemsConcat(a: seq<Item>, b: seq<Item>)
    ensures ItemsBytes(a + b) == ItemsBytes(a) + ItemsBytes(b)
    decreases |a|
  {
    if a == [] {
      assert a + b == b;
    } else {
      assert (a + b)[1..] == a[1..] + b;
      ItemsConcat(a[1..], b);
      hide ItemsBytes;
      ItemsCons(a + b);
      ItemsCons(a);
    }
  }

  lemma {:induction false} WellFormedAt(items: seq<Item>, k: nat)
    requires WellFormed(items) && k < |items|
    ensures WellFormed([items[k]])
    decreases |items|
  {
    ItemsCons(items);
    if k != 0 { WellFormedAt(items[1..], k - 1); }
  }

  /** The items before `k`, item `k`, and the items after it. */
  lemma ItemStandsAt(items: seq<Item>, k: nat)
    requires k < |items|
    ensures At(ItemsBytes(items), |ItemsBytes(items[..k])|, ItemsBytes([items[k]]))
    ensures |ItemsBytes(items[..k + 1])| == |ItemsBytes(items[..k])| + |ItemsBytes([items[k]])|
  {
    hide ItemsBytes;
    assert items == items[..k] + ([items[k]] + items[k + 1..]);
    assert items[..k + 1] == items[..k] + [items[k]];
    ItemsConcat(items[..k], [items[k]] + items[k + 1..]);
    ItemsConcat([items[k]], items[k + 1..]);
    ItemsConcat(items[..k], [items[k]]);
  }

  // ---- Reading a tag ------------------------------------------------------------------------------------------

  lemma TagReads(data: Bytes, i: nat, field: nat, wireType: nat)
    requires 1 <= field < INT32 && wireType < 8 && At(data, i, TagBytes(field, wireType))
    ensures Varint(data, i) == Ok((field * 8 + wireType, i + |TagBytes(field, wireType)|))
    ensures And(field * 8 + wireType, 0x7) == wireType
    ensures wireType != 4 ==> Tag(data, i) == Ok((field, wireType, i + |TagBytes(field, wireType)|))
  {
    hide Pow2, And, Varint;
    VarintRoundTrip(data, i, field * 8 + wireType);
    Powers();
    AndMask(field * 8 + wireType, 3);
  }

  function WireTypeOf(it: Item): nat {
    match it
    case Number(_, _) => 0
    case Fixed64(_, _) => 1
    case Text(_, _) => 2
    case Group(_, _) => 3
    case Fixed32(_, _) => 5
  }

  /** An item starts with its tag. */
  lemma ItemTag(data: Bytes, i: nat, it: Item)
    requires WellFormed([it]) && At(data, i, ItemsBytes([it]))
    ensures 1 <= it.field < INT32 && i < |data|
    ensures At(data, i, TagBytes(it.field, WireTypeOf(it)))
    ensures Tag(data, i) == Ok((it.field, WireTypeOf(it), i + |TagBytes(it.field, WireTypeOf(it))|))
  {
    hide Tag, EncodeVarint, ItemsBytes;
    match it {
      case Number(field, value) =>
        NumberBytes(field, value);
        AtConcat(data, i, TagBytes(field, 0), EncodeVarint(value));
      case Fixed64(field, content) =>
        FixedBytes(field, content);
        AtConcat(data, i, TagBytes(field, 1), content);
      case Text(field, content) =>
        TextBytes(field, content);
        AtConcat(data, i, TagBytes(field, 2), Delimited(content));
      case Group(field, inner) =>
        GroupBytes(field, inner);
        AtConcat(data, i, TagBytes(field, 3), ItemsBytes(inner) + TagBytes(field, 4));
      case Fixed32(field, content) =>
        FixedBytes(field, content);
        AtConcat(data, i, TagBytes(field, 5), content);
    }
    TagReads(data, i, it.field, WireTypeOf(it));
  }

  /**
    What a tag is: the low three bits are the kind, the next 32 the number. The number zero, negative numbers
    and the end of a group are refused.
   */
  lemma TagMeans(data: Bytes, i: nat)
    ensures match Varint(data, i)
      case Err(e) => Tag(data, i) == Err(e)
      case Ok((w, next)) =>
        var kind, field := w % 8, w / 8 % 0x1_0000_0000;
        Tag(data, i) ==
          if kind == 4 then Err(EndGroup)
          else if field == 0 || 0x8000_0000 <= field then Err(IllegalTag)
          else Ok((field, kind, next))
  {
    hide Varint, And, Pow2;
    Powers();
    if Varint(data, i).Ok? { AndMask(Varint(data, i).value.0, 3); }
  }

  // ---- Skipping -------------------------------------------------------------------------------------------------

  /** Skipping a varint ends where reading it does. */
  lemma {:induction false} SkipVarintEnds(data: Bytes, i: nat, shift: nat, acc: nat)
    requires acc < UINT64
    ensures match VarintFrom(data, i, shift, acc)
      case Ok((_, next)) => SkipVarint(data, i, shift) == Ok(next)
      case Err(e) => SkipVarint(data, i, shift) == Err(e)
    decreases |data| - i
  {
    hide PushGroup;
    if shift < 64 && i < |data| && 128 <= data[i] {
      SkipVarintEnds(data, i + 1, shift + 7, PushGroup(acc, data[i], shift));
    }
  }

  /** A single item is its tag and its content. */
  lemma NumberBytes(field: nat, value: nat)
    ensures ItemsBytes([Number(field, value)]) == TagBytes(field, 0) + EncodeVarint(value)
  {
    assert [Number(field, value)][1..] == [] && ItemsBytes([]) == [];
  }

  lemma TextBytes(field: nat, content: Bytes)
    ensures ItemsBytes([Text(field, content)]) == TagBytes(field, 2) + Delimited(content)
  {
    assert [Text(field, content)][1..] == [] && ItemsBytes([]) == [];
  }

  lemma FixedBytes(field: nat, content: Bytes)
    ensures ItemsBytes([Fixed64(field, content)]) == TagBytes(field, 1) + content
    ensures ItemsBytes([Fixed32(field, content)]) == TagBytes(field, 5) + content
  {
    assert [Fixed64(field, content)][1..] == [] && [Fixed32(field, content)][1..] == [] && ItemsBytes([]) == [];
  }

  lemma GroupBytes(field: nat, inner: seq<Item>)
    ensures ItemsBytes([Group(field, inner)]) == TagBytes(field, 3) + (ItemsBytes(inner) + TagBytes(field, 4))
  {
    assert [Group(field, inner)][1..] == [] && ItemsBytes([]) == [];
  }

  lemma SkipNumber(data: Bytes, i: nat, depth: nat, field: nat, value: nat)
    requires |data| < INT64 && 1 <= field < INT32 && value < UINT64
    requires At(data, i, TagBytes(field, 0) + EncodeVarint(value))
    ensures var end := i + |TagBytes(field, 0)| + |EncodeVarint(value)|;
      SkipFrom(data, i, depth) == if depth == 0 then Ok(end) else SkipFrom(data, end, depth)
  {
    hide Varint, And, EncodeVarint, TagBytes, SkipVarint;
    AtConcat(data, i, TagBytes(field, 0), EncodeVarint(value));
    TagReads(data, i, field, 0);
    VarintRoundTrip(data, i + |TagBytes(field, 0)|, value);
    SkipVarintIs(data, i + |TagBytes(field, 0)|);
  }

  lemma SkipFixed(data: Bytes, i: nat, depth: nat, field: nat, wireType: nat, content: Bytes)
    requires |data| < INT64 && 1 <= field < INT32 && At(data, i, TagBytes(field, wireType) + content)
    requires (wireType == 1 && |content| == 8) || (wireType == 5 && |content| == 4)
    ensures var end := i + |TagBytes(field, wireType)| + |content|;
      SkipFrom(data, i, depth) == if depth == 0 then Ok(end) else SkipFrom(data, end, depth)
  {
    hide Varint, And, EncodeVarint, TagBytes;
    AtConcat(data, i, TagBytes(field, wireType), content);
    TagReads(data, i, field, wireType);
  }

  lemma SkipText(data: Bytes, i: nat, depth: nat, field: nat, content: Bytes)
    requires |data| < INT64 && 1 <= field < INT32 && At(data, i, TagBytes(field, 2) + Delimited(content))
    ensures var end := i + |TagBytes(field, 2)| + |Delimited(content)|;
      SkipFrom(data, i, depth) == if depth == 0 then Ok(end) else SkipFrom(data, end, depth)
  {
    hide Varint, And, EncodeVarint, TagBytes;
    AtConcat(data, i, TagBytes(field, 2), Delimited(content));
    TagReads(data, i, field, 2);
    var next := i + |TagBytes(field, 2)|;
    AtConcat(data, next, EncodeVarint(|content|), content);
    VarintRoundTrip(data, next, |content|);
  }

  /** The end of an item that is no group, or the way on to it while groups are open. */
  lemma SkipFlat(data: Bytes, i: nat, depth: nat, it: Item)
    requires |data| < INT64 && WellFormed([it]) && !it.Group? && At(data, i, ItemsBytes([it]))
    ensures var end := i + |ItemsBytes([it])|;
      SkipFrom(data, i, depth) == if depth == 0 then Ok(end) else SkipFrom(data, end, depth)
  {
    hide SkipFrom, ItemsBytes, TagBytes, EncodeVarint, At;
    match it
    case Number(field, value) => NumberBytes(field, value); SkipNumber(data, i, depth, field, value);
    case Fixed64(field, content) => FixedBytes(field, content); SkipFixed(data, i, depth, field, 1, content);
    case Text(field, content) => TextBytes(field, content); SkipText(data, i, depth, field, content);
    case Fixed32(field, content) => FixedBytes(field, content); SkipFixed(data, i, depth, field, 5, content);
  }

  lemma SkipVarintIs(data: Bytes, i: nat)
    ensures match Varint(data, i)
      case Ok((_, next)) => SkipVarint(data, i, 0) == Ok(next)
      case Err(e) => SkipVarint(data, i, 0) == Err(e)
  {
    SkipVarintEnds(data, i, 0, 0);
  }

  lemma GroupOpens(data: Bytes, i: nat, depth: nat, field: nat)
    requires |data| < INT64 && 1 <= field < INT32 && At(data, i, TagBytes(field, 3))
    ensures SkipFrom(data, i, depth) == SkipFrom(data, i + |TagBytes(field, 3)|, depth + 1)
  {
    hide Varint, And, EncodeVarint;
    TagReads(data, i, field, 3);
  }

  lemma GroupCloses(data: Bytes, i: nat, depth: nat, field: nat)
    requires |data| < INT64 && 1 <= field < INT32 && At(data, i, TagBytes(field, 4)) && 0 < depth
    ensures var end := i + |TagBytes(field, 4)|;
      SkipFrom(data, i, depth) == if depth == 1 then Ok(end) else SkipFrom(data, end, depth - 1)
  {
    hide Varint, And, EncodeVarint;
    TagReads(data, i, field, 4);
  }

  /** Where the parts of a group stand. */
  lemma GroupLayout(data: Bytes, i: nat, field: nat, inner: seq<Item>)
    requires At(data, i, ItemsBytes([Group(field, inner)]))
    ensures var open, body, close := TagBytes(field, 3), ItemsBytes(inner), TagBytes(field, 4);
      && At(data, i, open) && At(data, i + |open|, body) && At(data, i + |open| + |body|, close)
      && |ItemsBytes([Group(field, inner)])| == |open| + |body| + |close|
  {
    hide ItemsBytes, TagBytes;
    var open, body, close := TagBytes(field, 3), ItemsBytes(inner), TagBytes(field, 4);
    GroupBytes(field, inner);
    AtConcat(data, i, open, body + close);
    AtConcat(data, i + |open|, body, close);
  }

  lemma GroupIsWellFormed(field: nat, inner: seq<Item>)
    requires WellFormed([Group(field, inner)])
    ensures 1 <= field < INT32 && WellFormed(inner)
  {
  }

  lemma NoItems()
    ensures ItemsBytes([]) == []
  {
  }

  /** While a group is open, items are passed one after the other, groups within groups included. */
  lemma {:induction false} SkipItems(data: Bytes, i: nat, depth: nat, items: seq<Item>)
    requires |data| < INT64 && WellFormed(items) && At(data, i, ItemsBytes(items)) && 0 < depth
    ensures SkipFrom(data, i, depth) == SkipFrom(data, i + |ItemsBytes(items)|, depth)
    decreases items
  {
    hide SkipFrom, ItemsBytes, TagBytes, WellFormed;
    if items == [] {
      NoItems();
    } else {
      var it := items[0];
      var end := i + |ItemsBytes([it])|;
      ItemsCons(items);
      AtConcat(data, i, ItemsBytes([it]), ItemsBytes(items[1..]));
      if it.Group? {
        GroupLayout(data, i, it.field, it.items);
        GroupIsWellFormed(it.field, it.items);
        var next := i + |TagBytes(it.field, 3)|;
        GroupOpens(data, i, depth, it.field);
        SkipItems(data, next, depth + 1, it.items);
        GroupCloses(data, next + |ItemsBytes(it.items)|, depth + 1, it.field);
      } else {
        SkipFlat(data, i, depth, it);
      }
      SkipItems(data, end, depth, items[1..]);
    }
  }

  /** Skipping a well-formed item, of whatever kind, ends exactly after it. */
  lemma SkipEnds(data: Bytes, i: nat, it: Item)
    requires |data| < INT64 && WellFormed([it]) && At(data, i, ItemsBytes([it]))
    ensures SkipFrom(data, i, 0) == Ok(i + |ItemsBytes([it])|)
  {
    hide SkipFrom, ItemsBytes, TagBytes, WellFormed;
    if it.Group? {
      GroupLayout(data, i, it.field, it.items);
      GroupIsWellFormed(it.field, it.items);
      var next := i + |TagBytes(it.field, 3)|;
      GroupOpens(data, i, 0, it.field);
      SkipItems(data, next, 1, it.items);
      GroupCloses(data, next + |ItemsBytes(it.items)|, 1, it.field);
    } else {
      SkipFlat(data, i, 0, it);
    }
  }

  /** What cannot be skipped: the end of a group that is not open, and the two kinds that do not exist. */
  lemma SkipRefuses(data: Bytes, i: nat, depth: nat)
    requires |data| < INT64 && i < |data| && Varint(data, i).Ok?
    ensures var kind := Varint(data, i).value.0 % 8;
      && (kind == 4 && depth == 0 ==> SkipFrom(data, i, depth) == Err(UnexpectedEndOfGroup))
      && (kind == 6 || kind == 7 ==> SkipFrom(data, i, depth) == Err(IllegalWireType))
  {
    hide Varint, And, Pow2;
    Powers();
    AndMask(Varint(data, i).value.0, 3);
  }

  /** The same as the record loops see it. */
  lemma SkipFieldEnds(data: Bytes, i: nat, it: Item)
    requires |data| < INT64 && WellFormed([it]) && At(data, i, ItemsBytes([it])) && i < |data|
    ensures SkipField(data, i) == Ok(i + |ItemsBytes([it])|)
  {
    hide SkipFrom, ItemsBytes;
    var x := ItemsBytes([it]);
    assert data[i..][0..|x|] == data[i..i + |x|];
    SkipEnds(data[i..], 0, it);
  }

  /** Every item takes up space. */
  lemma ItemIsLong(it: Item)
    ensures 0 < |ItemsBytes([it])|
  {
  }
}
