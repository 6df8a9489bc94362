/** Decimal numerals and the denominations built from them. */
module Text {
  import opened Basics

  /** The decimal digits of `n`, most significant first; "0" for zero. */
  function Digits(n: nat): (ds: seq<nat>)
    ensures 0 < |ds| && forall i :: 0 <= i < |ds| ==> ds[i] < 10
  {
    if n < 10 then [n] else Digits(n / 10) + [n % 10]
  }

  function Value(ds: seq<nat>): (n: nat) {
    if ds == [] then 0 else Value(ds[..|ds| - 1]) * 10 + ds[|ds| - 1]
  }

  lemma {:induction false} ValueOfDigits(n: nat)
    ensures Value(Digits(n)) == n
  {
    if n < 10 {
      assert [n][..0] == [];
    } else {
      ValueOfDigits(n / 10);
      assert (Digits(n / 10) + [n % 10])[..|Digits(n / 10)|] == Digits(n / 10);
    }
  }

  lemma DigitsInjective(m: nat, n: nat)
    ensures Digits(m) == Digits(n) ==> m == n
  {
    ValueOfDigits(m);
    ValueOfDigits(n);
  }

  function DigitChar(d: nat): (c: char)
    requires d < 10
  {
    (d + 48) as char
  }

  /** Numeral of `n` as characters. */
  function Numeral(n: nat): (s: string) {
    var ds := Digits(n);
    seq(|ds|, i requires 0 <= i < |ds| => DigitChar(ds[i]))
  }

  predicate IsNumeral(s: string) {
    s != [] && forall i :: 0 <= i < |s| ==> '0' <= s[i] <= '9'
  }

  function NumeralDigits(s: string): (ds: seq<nat>)
    requires IsNumeral(s)
  {
    seq(|s|, i requires 0 <= i < |s| => s[i] as nat - 48)
  }

  /** Base-10 parsing into 64 bits: empty, non-digit and too large inputs are errors. */
  function ParseUint(s: string): (r: Option<nat>)
    ensures r.Some? ==> r.value < UINT64
  {
    if !IsNumeral(s) || Value(NumeralDigits(s)) >= UINT64 then None
    else Some(Value(NumeralDigits(s)))
  }

  lemma NumeralParses(n: nat)
    ensures IsNumeral(Numeral(n)) && NumeralDigits(Numeral(n)) == Digits(n)
    ensures ParseUint(Numeral(n)) == if n < UINT64 then Some(n) else None
  {
    assert NumeralDigits(Numeral(n)) == Digits(n);
    ValueOfDigits(n);
  }

  /** Cut `s` at every occurrence of `c`. */
  function Split(s: string, c: char): (parts: seq<string>) {
    if c !in s then [s] else
      var i := FirstIndex(s, c);
      [s[..i]] + Split(s[i + 1..], c)
  }

  function FirstIndex(s: string, c: char): (i: nat)
    requires c in s
    ensures i < |s| && s[i] == c && c !in s[..i]
  {
    if s[0] == c then 0 else
      var i := 1 + FirstIndex(s[1..], c);
      assert s[..i] == [s[0]] + s[1..][..i - 1];
      i
  }

  const LPT_PREFIX := "lpt"

  predicate HasLptPrefix(denom: string) {
    |denom| >= 3 && denom[..3] == LPT_PREFIX
  }

  function LptDenom(sequence: nat): (denom: string)
    ensures HasLptPrefix(denom)
  {
    "lpt-" + Numeral(sequence)
  }

  function ParseLptDenom(denom: string): (r: Option<nat>) {
    var parts := Split(denom, '-');
    if |parts| != 2 then None else ParseUint(parts[1])
  }

  /** A pool denomination parses back to the sequence number it was made from, for all 64-bit numbers. */
  lemma LptDenomRoundTrip(sequence: nat)
    ensures ParseLptDenom(LptDenom(sequence)) == if sequence < UINT64 then Some(sequence) else None
  {
    var s, n := LptDenom(sequence), Numeral(sequence);
    NumeralParses(sequence);
    assert s[3] == '-' && s[..3] == "lpt" && s[4..] == n;
    assert FirstIndex(s, '-') == 3;
    assert Split(n, '-') == [n];
    assert Split(s, '-') == ["lpt"] + Split(n, '-');
  }

  lemma LptDenomInjective(m: nat, n: nat)
    requires LptDenom(m) == LptDenom(n)
    ensures m == n
  {
    assert Numeral(m) == LptDenom(m)[4..];
    assert Numeral(n) == LptDenom(n)[4..];
    NumeralParses(m);
    NumeralParses(n);
    DigitsInjective(m, n);
  }

  function PoolId(counterparty: string): (id: string)
    ensures 5 <= |id| && id[5..] == counterparty
  {
    "pool-" + counterparty
  }
}
