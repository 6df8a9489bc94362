/**
  The bank the modules move coins through: balances per denomination and account, the supply of each
  denomination, and the accounts that exist. The bank itself is not part of the repository; only the
  effects its callers rely on are stated.
 */
module Bank {

  type Denom = string

  /** Escrow addresses are derived from a pool denomination by hashing, taken here to be injective. */
  datatype Addr = User(name: string) | Module(name: string) | Escrow(lptDenom: Denom)

  datatype Coin = Coin(denom: Denom, amount: nat)

  datatype Error =
    | InsufficientFunds
    | InvalidCoins
    | InvalidRequest
    | InvalidDenom
    | EqualDenom
    | NotContainStandardDenom
    | ReservePoolNotExists
    | ConstraintNotMet
    | MaxedStandardDenom
    | Unauthorized
    | IntOverflow
    | DivisionByZero

  datatype Result<+T> = Ok(value: T) | Err(error: Error) {
    predicate IsFailure() {
      Err?
    }

    function PropagateFailure<U>(): Result<U>
      requires Err?
    {
      Err(error)
    }

    function Extract(): T
      requires Ok?
    {
      value
    }
  }

  datatype Ledger = Ledger(balances: map<Denom, map<Addr, nat>>, supply: map<Denom, nat>, accounts: set<Addr>)

  function Holdings(b: Ledger, d: Denom): (m: map<Addr, nat>) {
    if d in b.balances then b.balances[d] else map[]
  }

  function Get(m: map<Addr, nat>, a: Addr): nat {
    if a in m then m[a] else 0
  }

  function Bal(b: Ledger, a: Addr, d: Denom): nat {
    Get(Holdings(b, d), a)
  }

  function Sup(b: Ledger, d: Denom): nat {
    if d in b.supply then b.supply[d] else 0
  }

  function SetBal(b: Ledger, a: Addr, d: Denom, n: nat): (r: Ledger)
    ensures Bal(r, a, d) == n
    ensures forall a', d' {:trigger Bal(r, a', d')} :: (a', d') != (a, d) ==> Bal(r, a', d') == Bal(b, a', d')
    ensures r.supply == b.supply && r.accounts == b.accounts
  {
    b.(balances := b.balances[d := Holdings(b, d)[a := n]])
  }

  /** How a move of `n` of `d` from `src` to `dst` shows in the balance of `a` in `d'`. */
  function Moved(a: Addr, d': Denom, src: Addr, dst: Addr, d: Denom, n: int): int {
    if d' != d then 0 else (if a == dst then n else 0) - (if a == src then n else 0)
  }

  /** Move a coin; the receiving account comes into existence. */
  function Send(b: Ledger, src: Addr, dst: Addr, c: Coin): (r: Result<Ledger>)
    ensures r.Ok? <==> c.amount <= Bal(b, src, c.denom)
    ensures r.Err? ==> r.error == InsufficientFunds
    ensures r.Ok? ==> forall a, d {:trigger Bal(r.value, a, d)} ::
      Bal(r.value, a, d) == Bal(b, a, d) + Moved(a, d, src, dst, c.denom, c.amount)
    ensures r.Ok? ==> r.value.supply == b.supply && r.value.accounts == b.accounts + {dst}
    ensures r.Ok? ==> forall d {:trigger Sup(r.value, d)} :: Sup(r.value, d) == Sup(b, d)
  {
    if Bal(b, src, c.denom) < c.amount then Err(InsufficientFunds) else
      var taken := SetBal(b, src, c.denom, Bal(b, src, c.denom) - c.amount);
      var given := SetBal(taken, dst, c.denom, Bal(taken, dst, c.denom) + c.amount);
      Ok(given.(accounts := given.accounts + {dst}))
  }

  /** Create coins in an account. */
  function Mint(b: Ledger, a: Addr, c: Coin): (r: Ledger)
    ensures forall a', d' {:trigger Bal(r, a', d')} ::
      Bal(r, a', d') == Bal(b, a', d') + (if (a', d') == (a, c.denom) then c.amount else 0)
    ensures forall d {:trigger Sup(r, d)} :: Sup(r, d) == Sup(b, d) + (if d == c.denom then c.amount else 0)
    ensures r.accounts == b.accounts
  {
    SetBal(b, a, c.denom, Bal(b, a, c.denom) + c.amount).(supply := b.supply[c.denom := Sup(b, c.denom) + c.amount])
  }

  /** Destroy coins held by an account. */
  function Burn(b: Ledger, a: Addr, c: Coin): (r: Result<Ledger>)
    ensures r.Ok? ==> c.amount <= Bal(b, a, c.denom) && c.amount <= Sup(b, c.denom)
    ensures r.Err? ==> r.error == InsufficientFunds
    ensures r.Ok? ==> forall a', d' {:trigger Bal(r.value, a', d')} ::
      Bal(r.value, a', d') == Bal(b, a', d') - (if (a', d') == (a, c.denom) then c.amount else 0)
    ensures r.Ok? ==> forall d {:trigger Sup(r.value, d)} ::
      Sup(r.value, d) == Sup(b, d) - (if d == c.denom then c.amount else 0)
    ensures r.Ok? ==> r.value.accounts == b.accounts
  {
    if Bal(b, a, c.denom) < c.amount || Sup(b, c.denom) < c.amount then Err(InsufficientFunds) else
      Ok(SetBal(b, a, c.denom, Bal(b, a, c.denom) - c.amount).(
        supply := b.supply[c.denom := Sup(b, c.denom) - c.amount]))
  }

  // ---- Conservation: the balances of a denomination add up to its supply ----------------------------

  ghost function Total(m: map<Addr, nat>): nat {
    if m == map[] then 0 else
      var a :| a in m;
      m[a] + Total(m - {a})
  }

  lemma {:induction false} TotalPick(m: map<Addr, nat>, a: Addr)
    requires a in m
    ensures Total(m) == m[a] + Total(m - {a})
    decreases |m|
  {
    var c :| c in m && Total(m) == m[c] + Total(m - {c});
    if c != a {
      var rest := m - {c};
      TotalPick(rest, a);
      assert rest - {a} == (m - {a}) - {c};
      TotalPick(m - {a}, c);
    }
  }

  lemma TotalUpdate(m: map<Addr, nat>, a: Addr, n: nat)
    ensures Total(m[a := n]) == Total(m) - Get(m, a) + n
  {
    TotalPick(m[a := n], a);
    assert m[a := n] - {a} == m - {a};
    if a in m {
      TotalPick(m, a);
    } else {
      assert m - {a} == m;
    }
  }

  lemma {:induction false} TotalBounds(m: map<Addr, nat>, a: Addr)
    ensures Get(m, a) <= Total(m)
  {
    if a in m { TotalPick(m, a); }
  }

  ghost predicate Conserved(b: Ledger) {
    forall d :: Total(Holdings(b, d)) == Sup(b, d)
  }

  lemma SetBalTotals(b: Ledger, a: Addr, d: Denom, n: nat)
    ensures forall d' :: Total(Holdings(SetBal(b, a, d, n), d'))
                      == Total(Holdings(b, d')) + (if d' == d then n - Bal(b, a, d) else 0)
  {
    TotalUpdate(Holdings(b, d), a, n);
    forall d'
      ensures Holdings(SetBal(b, a, d, n), d') == if d' == d then Holdings(b, d)[a := n] else Holdings(b, d')
    {
    }
  }

  lemma SendConserves(b: Ledger, src: Addr, dst: Addr, c: Coin)
    requires Conserved(b) && Send(b, src, dst, c).Ok?
    ensures Conserved(Send(b, src, dst, c).value)
  {
    var taken := SetBal(b, src, c.denom, Bal(b, src, c.denom) - c.amount);
    SetBalTotals(b, src, c.denom, Bal(b, src, c.denom) - c.amount);
    SetBalTotals(taken, dst, c.denom, Bal(taken, dst, c.denom) + c.amount);
    var given := SetBal(taken, dst, c.denom, Bal(taken, dst, c.denom) + c.amount);
    var r := Send(b, src, dst, c).value;
    forall d ensures Total(Holdings(r, d)) == Sup(r, d) {
      assert Holdings(r, d) == Holdings(given, d);
      assert Total(Holdings(b, d)) == Sup(b, d);
    }
  }

  lemma MintConserves(b: Ledger, a: Addr, c: Coin)
    requires Conserved(b)
    ensures Conserved(Mint(b, a, c))
  {
    SetBalTotals(b, a, c.denom, Bal(b, a, c.denom) + c.amount);
    var r := Mint(b, a, c);
    forall d ensures Total(Holdings(r, d)) == Sup(r, d) {
      assert Holdings(r, d) == Holdings(SetBal(b, a, c.denom, Bal(b, a, c.denom) + c.amount), d);
      assert Total(Holdings(b, d)) == Sup(b, d);
    }
  }

  lemma BurnConserves(b: Ledger, a: Addr, c: Coin)
    requires Conserved(b) && Burn(b, a, c).Ok?
    ensures Conserved(Burn(b, a, c).value)
  {
    SetBalTotals(b, a, c.denom, Bal(b, a, c.denom) - c.amount);
    var r := Burn(b, a, c).value;
    forall d ensures Total(Holdings(r, d)) == Sup(r, d) {
      assert Holdings(r, d) == Holdings(SetBal(b, a, c.denom, Bal(b, a, c.denom) - c.amount), d);
      assert Total(Holdings(b, d)) == Sup(b, d);
    }
  }

  /** Under conservation a burn fails only for want of balance, never for want of supply. */
  lemma BurnNeedsOnlyBalance(b: Ledger, a: Addr, c: Coin)
    requires Conserved(b)
    ensures Burn(b, a, c).Ok? <==> c.amount <= Bal(b, a, c.denom)
    ensures Bal(b, a, c.denom) <= Sup(b, c.denom)
  {
    TotalBounds(Holdings(b, c.denom), a);
    assert Total(Holdings(b, c.denom)) == Sup(b, c.denom);
  }
}
