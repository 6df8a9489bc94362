/**
  The Protocol Buffers wire format as the generated code reads and writes it: base-128 varints, tags,
  length-delimited fields and the skipping of unknown fields. `int` is 64 bits wide.
 */
module Wire {
  import opened Arithmetic
  import opened Basics
  import opened Bits

  type Byte = n: int | 0 <= n < 256
  type Bytes = seq<Byte>

  const INT64: nat := 0x8000_0000_0000_0000
  const UINT32: nat := 0x1_0000_0000
  const INT32: nat := 0x8000_0000

  datatype Error =
    | IntOverflow
    | UnexpectedEof
    | InvalidLength
    | EndGroup
    | IllegalTag
    | WrongWireType
    | UnexpectedEndOfGroup
    | IllegalWireType
    | InvalidInteger

  datatype Result<+T> = Ok(value: T) | Err(error: Error) {
    predicate IsFailure() {
      Err?
    }

    function PropagateFailure<U>(): Result<U>
      requires Err?
    {
      Err(error)
    }

    function Extract(): T
      requires Ok?
    {
      value
    }
  }

  /** Two's complement reading of a 64-bit and of a 32-bit pattern, and wrapping signed addition. */
  function ToInt64(u: nat): int
    requires u < UINT64
  {
    if u < INT64 then u else u - UINT64
  }

  function ToInt32(u: nat): int {
    var low := u % UINT32;
    if low < INT32 then low else low - UINT32
  }

  function WrapAdd(a: nat, b: nat): int
    requires a < INT64 && b < INT64
  {
    ToInt64(a + b)
  }

  // ---- Varints --------------------------------------------------------------------------------------

  function EncodeVarint(v: nat): (bs: Bytes)
    ensures 0 < |bs|
  {
    if v < 128 then [v] else [v % 128 + 128] + EncodeVarint(v / 128)
  }

  /** The length the generated code reserves. */
  function Sov(x: nat): nat {
    (Len(Or(x, 1)) + 6) / 7
  }

  /** The reserved length is the written length. */
  lemma {:induction false} SovIsLength(v: nat)
    ensures Sov(v) == |EncodeVarint(v)|
  {
    LenOrOne(v);
    if v < 128 {
      SmallLen(v);
    } else {
      Powers();
      LenShift(v, 7);
      SovIsLength(v / 128);
      LenOrOne(v / 128);
    }
  }

  lemma SmallLen(v: nat)
    requires v < 128
    ensures v != 0 ==> 1 <= Len(v) <= 7
  {
    LenAtMost(v, 7);
  }

  lemma {:induction false} LenAtMost(v: nat, k: nat)
    requires v < Pow2(k)
    ensures Len(v) <= k
  {
    if v != 0 { LenAtMost(v / 2, k - 1); }
  }

  /** One more 7-bit group, as the reading loop adds it. */
  function PushGroup(acc: nat, b: Byte, shift: nat): (r: nat)
    requires acc < UINT64
    ensures r < UINT64
  {
    MulNat(And(b, 0x7F), Pow2(shift));
    var group := Rem(And(b, 0x7F) * Pow2(shift), UINT64);
    Powers();
    OrBound(acc, group, 64);
    Or(acc, group)
  }

  /** Read a varint at `i`, `shift` bits having been read into `acc`; gives the value and the next index. */
  function VarintFrom(data: Bytes, i: nat, shift: nat, acc: nat): (r: Result<(nat, nat)>)
    requires acc < UINT64
    ensures r.Ok? ==> i < r.value.1 <= |data| && r.value.0 < UINT64
    decreases |data| - i
  {
    if shift >= 64 then Err(IntOverflow)
    else if i >= |data| then Err(UnexpectedEof)
    else
      var acc' := PushGroup(acc, data[i], shift);
      if data[i] < 0x80 then Ok((acc', i + 1)) else VarintFrom(data, i + 1, shift + 7, acc')
  }

  function Varint(data: Bytes, i: nat): (r: Result<(nat, nat)>)
    ensures r.Ok? ==> i < r.value.1 <= |data| && r.value.0 < UINT64
  {
    VarintFrom(data, i, 0, 0)
  }

  /** `x` stands at index `i` of `data`. */
  predicate At(data: Bytes, i: nat, x: Bytes) {
    i + |x| <= |data| && data[i..i + |x|] == x
  }

  lemma AtConcat(data: Bytes, i: nat, x: Bytes, y: Bytes)
    ensures At(data, i, x + y) <==> At(data, i, x) && At(data, i + |x|, y)
  {
    if At(data, i, x + y) {
      assert data[i..i + |x|] == (x + y)[..|x|];
      assert data[i + |x|..i + |x| + |y|] == (x + y)[|x|..];
    }
    if At(data, i, x) && At(data, i + |x|, y) {
      assert data[i..i + |x + y|] == data[i..i + |x|] + data[i + |x|..i + |x| + |y|];
    }
  }

  lemma GroupAdds(acc: nat, b: Byte, shift: nat)
    requires acc < Pow2(shift) && acc < UINT64 && (b % 128) * Pow2(shift) < UINT64
    ensures PushGroup(acc, b, shift) == acc + (b % 128) * Pow2(shift)
  {
    hide Pow2, And, Or;
    Powers();
    AndMask(b, 7);
    MulNat(b % 128, Pow2(shift));
    RemSmall((b % 128) * Pow2(shift), UINT64);
    OrDisjoint(acc, b % 128, shift);
  }

  lemma RemSmall(n: nat, d: nat)
    requires n < d
    ensures Rem(n, d) == n
  {
  }

  /** Reading undoes writing, from any point of the loop. */
  lemma {:induction false} VarintFromDecodes(data: Bytes, i: nat, shift: nat, acc: nat, v: nat)
    requires At(data, i, EncodeVarint(v)) && acc < Pow2(shift) && acc < UINT64
    requires v * Pow2(shift) < UINT64 && (v == 0 ==> shift == 0)
    ensures VarintFrom(data, i, shift, acc) == Ok((acc + v * Pow2(shift), i + |EncodeVarint(v)|))
    decreases v
  {
    hide PushGroup, Pow2;
    ShiftBelow64(v, shift);
    var first := EncodeVarint(v)[0];
    assert data[i] == first;
    var p, low, high := Pow2(shift), v % 128, v / 128;
    assert v * p == low * p + high * (128 * p) by {
      assert v == high * 128 + low;
      assert (high * 128) * p == high * (128 * p);
      assert v * p == (high * 128) * p + low * p;
    }
    MulNat(high, 128 * p);
    assert first % 128 == low;
    GroupAdds(acc, first, shift);
    if 128 <= v {
      assert Pow2(shift + 7) == 128 * p by { Pow2Adds(shift, 7); Powers(); }
      AtConcat(data, i, [first], EncodeVarint(high));
      assert EncodeVarint(v) == [first] + EncodeVarint(high);
      assert low * p <= 127 * p by { MulLe(low, 127, p); }
      VarintFromDecodes(data, i + 1, shift + 7, acc + low * p, high);
    }
  }

  lemma ShiftBelow64(v: nat, shift: nat)
    requires v * Pow2(shift) < UINT64 && (v == 0 ==> shift == 0)
    ensures shift < 64
  {
    hide Pow2;
    if 64 <= shift {
      Powers();
      Pow2Adds(64, shift - 64);
      MulLe(1, Pow2(shift - 64), UINT64);
      MulLe(1, v, Pow2(shift));
    }
  }

  /** Every 64-bit number survives being written and read back. */
  lemma VarintRoundTrip(data: Bytes, i: nat, v: nat)
    requires v < UINT64 && At(data, i, EncodeVarint(v))
    ensures Varint(data, i) == Ok((v, i + |EncodeVarint(v)|))
  {
    assert Pow2(0) == 1;
    VarintFromDecodes(data, i, 0, 0, v);
  }

  lemma ContinuationByte(v: nat)
    ensures Or(And(v, 0x7F), 0x80) == v % 128 + 128
    ensures EncodeVarint(v) == if v < 128 then [v] else [v % 128 + 128] + EncodeVarint(v / 128)
  {
    hide And, Or, Pow2;
    Powers();
    AndMask(v, 7);
    OrDisjoint(v % 128, 1, 7);
  }

  /** Write a varint so that it ends just before `offset`. */
  method EncodeVarintAt(dAtA: array<Byte>, offset: nat, value: nat) returns (base: nat)
    requires value < UINT64 && Sov(value) <= offset <= dAtA.Length
    modifies dAtA
    ensures base == offset - Sov(value)
    ensures dAtA[..base] == old(dAtA[..base]) && dAtA[base..offset] == EncodeVarint(value)
      && dAtA[offset..] == old(dAtA[offset..])
  {
    hide And, Or, Sov, EncodeVarint;
    SovIsLength(value);
    base := offset - Sov(value);
    var i, v := base, value;
    while v >= 0x80
      invariant base <= i && i + |EncodeVarint(v)| == offset
      invariant dAtA[base..i] + EncodeVarint(v) == EncodeVarint(value)
      invariant dAtA[..base] == old(dAtA[..base]) && dAtA[offset..] == old(dAtA[offset..])
    {
      ContinuationByte(v);
      ghost var done := dAtA[base..i];
      dAtA[i] := Or(And(v, 0x7F), 0x80);
      assert dAtA[base..i + 1] == done + [v % 128 + 128];
      v := v / 128;
      i := i + 1;
    }
    ContinuationByte(v);
    ghost var done := dAtA[base..i];
    dAtA[i] := v;
    assert dAtA[base..offset] == done + [v];
  }

  /** Read a varint with the shift-and-or loop of the generated code. */
  method ReadVarint(data: Bytes, start: nat) returns (r: Result<(nat, nat)>)
    ensures r == Varint(data, start)
  {
    hide PushGroup;
    var i: nat, shift: nat, value: nat := start, 0, 0;
    while true
      invariant value < UINT64
      invariant Varint(data, start) == VarintFrom(data, i, shift, value)
      decreases |data| - i
    {
      if shift >= 64 { return Err(IntOverflow); }
      if i >= |data| { return Err(UnexpectedEof); }
      var b := data[i];
      i := i + 1;
      value := PushGroup(value, b, shift);
      if b < 0x80 { return Ok((value, i)); }
      shift := shift + 7;
    }
  }

  // ---- Fields ------------------------------------------------------------------------------------------

  /** A tag at `i`: field number, wire type, next index. */
  function Tag(data: Bytes, i: nat): (r: Result<(int, nat, nat)>)
    ensures r.Ok? ==> i < r.value.2 <= |data|
  {
    var (wire, next) :- Varint(data, i);
    var wireType := And(wire, 0x7);
    if wireType == 4 then Err(EndGroup)
    else if ToInt32(wire / 8) <= 0 then Err(IllegalTag)
    else Ok((ToInt32(wire / 8), wireType, next))
  }

  /** A length-delimited payload at `i`, and the index after it. */
  function Payload(data: Bytes, i: nat): (r: Result<(Bytes, nat)>)
    requires |data| < INT64
    ensures r.Ok? ==> i < r.value.1 <= |data|
  {
    var (length, start) :- Varint(data, i);
    if ToInt64(length) < 0 then Err(InvalidLength) else
      var post := WrapAdd(start, ToInt64(length));
      if post < 0 then Err(InvalidLength)
      else if post > |data| then Err(UnexpectedEof)
      else Ok((data[start..post], post))
  }

  function Delimited(s: Bytes): Bytes {
    EncodeVarint(|s|) + s
  }

  lemma PayloadRoundTrip(data: Bytes, i: nat, s: Bytes)
    requires |data| < INT64 && At(data, i, Delimited(s))
    ensures Payload(data, i) == Ok((s, i + |Delimited(s)|))
  {
    AtConcat(data, i, EncodeVarint(|s|), s);
    VarintRoundTrip(data, i, |s|);
  }

  /** From index `i` on the buffer holds `tail`; before it, it is still as it was. */
  ghost predicate Written(dAtA: array<Byte>, before: Bytes, i: nat, tail: Bytes)
    reads dAtA
  {
    i <= dAtA.Length == |before| && dAtA[..i] == before[..i] && dAtA[i..] == tail
  }

  lemma NothingWritten(dAtA: array<Byte>)
    ensures Written(dAtA, dAtA[..], dAtA.Length, [])
  {
  }

  lemma AllWritten(dAtA: array<Byte>, before: Bytes, i: nat, tail: Bytes)
    requires Written(dAtA, before, i, tail)
    ensures i <= dAtA.Length == |before| && |tail| == dAtA.Length - i && dAtA[..] == before[..i] + tail
  {
    assert dAtA[..] == dAtA[..i] + dAtA[i..];
  }

  /** Write a length-delimited field so that it ends just before `end`. */
  method WriteDelimited(dAtA: array<Byte>, end: nat, tag: Byte, s: Bytes) returns (i: nat)
    requires |s| < INT64 && 1 + |s| + Sov(|s|) <= end <= dAtA.Length
    modifies dAtA
    ensures i == end - (1 + |s| + Sov(|s|))
    ensures dAtA[i..] == [tag] + Delimited(s) + old(dAtA[end..]) && dAtA[..i] == old(dAtA[..i])
  {
    hide Sov, EncodeVarint;
    SovIsLength(|s|);
    i := end - |s|;
    forall k | 0 <= k < |s| { dAtA[i + k] := s[k]; }
    assert dAtA[i..end] == s && dAtA[end..] == old(dAtA[end..]);
    ghost var tail := dAtA[i..];
    assert tail == s + old(dAtA[end..]);
    var payload := i;
    i := WriteVarint(dAtA, payload, tag, |s|);
    assert dAtA[..i] == old(dAtA[..i]);
  }

  /** Write a tagged varint so that it ends just before `end`. */
  method WriteVarint(dAtA: array<Byte>, end: nat, tag: Byte, v: nat) returns (i: nat)
    requires v < UINT64 && 1 + Sov(v) <= end <= dAtA.Length
    modifies dAtA
    ensures i == end - (1 + Sov(v))
    ensures dAtA[i..] == [tag] + EncodeVarint(v) + old(dAtA[end..]) && dAtA[..i] == old(dAtA[..i])
  {
    hide Sov, EncodeVarint;
    i := EncodeVarintAt(dAtA, end, v);
    assert dAtA[i..] == dAtA[i..end] + dAtA[end..];
    ghost var front, rest := dAtA[..i], dAtA[i..];
    i := i - 1;
    dAtA[i] := tag;
    assert dAtA[i..] == [tag] + rest && dAtA[..i] == front[..i];
    assert old(dAtA[..i + 1])[..i] == old(dAtA[..i]);
  }

  method ReadTag(data: Bytes, i: nat) returns (r: Result<(int, nat, nat)>)
    ensures r == Tag(data, i)
  {
    var read := ReadVarint(data, i);
    if read.Err? { return Err(read.error); }
    var field, wireType := ToInt32(read.value.0 / 8), And(read.value.0, 0x7);
    if wireType == 4 { return Err(EndGroup); }
    if field <= 0 { return Err(IllegalTag); }
    return Ok((field, wireType, read.value.1));
  }

  method ReadPayload(data: Bytes, i: nat) returns (r: Result<(Bytes, nat)>)
    requires |data| < INT64
    ensures r == Payload(data, i)
  {
    hide Varint;
    var read := ReadVarint(data, i);
    if read.Err? { return Err(read.error); }
    var length := ToInt64(read.value.0);
    if length < 0 { return Err(InvalidLength); }
    var post := WrapAdd(read.value.1, length);
    if post < 0 { return Err(InvalidLength); }
    if post > |data| { return Err(UnexpectedEof); }
    return Ok((data[read.value.1..post], post));
  }

  /** The tags in use are single bytes, read back as field number and wire type. */
  lemma TagRoundTrip(data: Bytes, i: nat, field: nat, wireType: nat)
    requires 1 <= field <= 15 && wireType < 8 && wireType != 4
    requires At(data, i, [field * 8 + wireType])
    ensures Tag(data, i) == Ok((field, wireType, i + 1))
  {
    hide Pow2, And, Varint;
    var tag := field * 8 + wireType;
    assert EncodeVarint(tag) == [tag];
    VarintRoundTrip(data, i, tag);
    Powers();
    AndMask(tag, 3);
  }

  // ---- Unknown fields -------------------------------------------------------------------------------------

  function SkipVarint(data: Bytes, i: nat, shift: nat): (r: Result<nat>)
    ensures r.Ok? ==> i < r.value <= |data|
    decreases |data| - i
  {
    if shift >= 64 then Err(IntOverflow)
    else if i >= |data| then Err(UnexpectedEof)
    else if data[i] < 0x80 then Ok(i + 1)
    else SkipVarint(data, i + 1, shift + 7)
  }

  /** Past the content of a field of the given wire type; the index may wrap around to below zero. */
  function SkipContent(data: Bytes, i: nat, wireType: nat): (r: Result<int>)
    requires |data| < INT64 && i <= |data|
    ensures r.Ok? ==> r.value < 0 || i <= r.value < INT64
  {
    match wireType
    case 0 => SkipVarint(data, i, 0)
    case 1 => Ok(WrapAdd(i, 8))
    case 2 =>
      var (length, next) :- Varint(data, i);
      if ToInt64(length) < 0 then Err(InvalidLength) else Ok(WrapAdd(next, ToInt64(length)))
    case 3 => Ok(i)
    case 4 => Ok(i)
    case 5 => Ok(WrapAdd(i, 4))
    case _ => Err(IllegalWireType)
  }

  /** The end of the field that starts at `i`, `depth` groups being open; it may lie past the data. */
  function SkipFrom(data: Bytes, i: nat, depth: nat): (r: Result<nat>)
    requires |data| < INT64
    ensures r.Ok? ==> i < r.value < INT64
    decreases |data| - i
  {
    if i >= |data| then Err(UnexpectedEof) else
      var (wire, next) :- Varint(data, i);
      var wireType := And(wire, 0x7);
      if wireType == 4 && depth == 0 then Err(UnexpectedEndOfGroup) else
        var after :- SkipContent(data, next, wireType);
        var depth' := if wireType == 3 then depth + 1 else if wireType == 4 then depth - 1 else depth;
        if after < 0 then Err(InvalidLength)
        else if depth' == 0 then Ok(after)
        else SkipFrom(data, after, depth')
  }

  /** Skip an unknown field, nested groups included, by the index-and-depth loop; it stops on every input. */
  method Skip(data: Bytes) returns (r: Result<nat>)
    requires |data| < INT64
    ensures r == SkipFrom(data, 0, 0)
    ensures r.Ok? ==> 0 < r.value
  {
    var i: nat, depth: nat := 0, 0;
    while i < |data|
      invariant SkipFrom(data, i, depth) == SkipFrom(data, 0, 0)
      decreases |data| - i
    {
      var tag := ReadVarint(data, i);
      if tag.Err? { return Err(tag.error); }
      var wireType := And(tag.value.0, 0x7);
      if wireType == 4 && depth == 0 { return Err(UnexpectedEndOfGroup); }
      var after := SkipContent(data, tag.value.1, wireType);
      if after.Err? { return Err(after.error); }
      if wireType == 3 { depth := depth + 1; }
      if wireType == 4 { depth := depth - 1; }
      if after.value < 0 { return Err(InvalidLength); }
      i := after.value;
      if depth == 0 { return Ok(i); }
    }
    return Err(UnexpectedEof);
  }

  /** The index after the unknown field at `i`, as the record loops compute it. */
  function SkipField(data: Bytes, i: nat): (r: Result<nat>)
    requires |data| < INT64 && i < |data|
    ensures r.Ok? ==> i < r.value <= |data|
  {
    var n :- SkipFrom(data[i..], 0, 0);
    if WrapAdd(i, n) < 0 then Err(InvalidLength)
    else if WrapAdd(i, n) > |data| then Err(UnexpectedEof)
    else Ok(i + n)
  }

  method SkipUnknown(data: Bytes, i: nat) returns (r: Result<nat>)
    requires |data| < INT64 && i < |data|
    ensures r == SkipField(data, i)
  {
    hide SkipFrom;
    var n := Skip(data[i..]);
    if n.Err? { return Err(n.error); }
    if WrapAdd(i, n.value) < 0 { return Err(InvalidLength); }
    if WrapAdd(i, n.value) > |data| { return Err(UnexpectedEof); }
    return Ok(i + n.value);
  }
}
