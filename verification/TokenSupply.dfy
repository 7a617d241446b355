/** Tokens are conserved. */
module TokenSupply {
  import opened Wrappers
  import opened Coins

  // ----- Sums -----

  ghost function Worth(t: T, coin: Coin): nat {
    if t.coin == coin then t.value else 0
  }

  /** The value of all coins of one type in a map. */
  ghost function Sum<K>(m: map<K, T>, coin: Coin): nat
    decreases m.Keys
  {
    if m == map[] then 0
    else
      var k :| k in m;
      Worth(m[k], coin) + Sum(m - {k}, coin)
  }

  lemma {:induction false} SumWithout<K>(m: map<K, T>, k: K, coin: Coin)
    requires k in m
    ensures Sum(m, coin) == Worth(m[k], coin) + Sum(m - {k}, coin)
    decreases m.Keys
  {
    var j :| j in m && Sum(m, coin) == Worth(m[j], coin) + Sum(m - {j}, coin);
    if j != k {
      SumWithout(m - {j}, k, coin);
      SumWithout(m - {k}, j, coin);
      assert m - {j} - {k} == m - {k} - {j};
    }
  }

  lemma SumWith<K>(m: map<K, T>, k: K, t: T, coin: Coin)
    ensures Sum(m[k := t], coin) + (if k in m then Worth(m[k], coin) else 0) == Sum(m, coin) + Worth(t, coin)
  {
    SumWithout(m[k := t], k, coin);
    assert m[k := t] - {k} == m - {k};
    if k in m {
      SumWithout(m, k, coin);
    } else {
      assert m - {k} == m;
    }
  }

  ghost function Total(s: State, coin: Coin): nat {
    Sum(s.balances, coin) + Sum(s.held, coin)
  }

  ghost function Supply(s: State, name: string): nat {
    if Plain(name) in s.infos && s.infos[Plain(name)].isToken then s.infos[Plain(name)].totalSupply else 0
  }

  /** For every token, the value of all its coins is the registered supply; there are none of
      a token that was not created. */
  ghost predicate Conserved(s: State) {
    forall name :: Total(s, Token(name)) == Supply(s, name)
  }

  // ----- Operations -----

  /** What scripts and other modules may call, on coins they hold. */
  datatype Call =
    | Zero(coin: Coin)
    | Withdraw(h: nat, amount: nat)
    | Deposit(h: nat, check: nat)
    | DestroyZero(h: nat)
    | RegisterCoin(account: Address, coin: Coin, denom: seq<byte>, decimals: nat)
    | CreateToken(account: Address, name: string, totalSupply: nat, decimals: nat, denom: seq<byte>)
    | Accept(account: Address, coin: Coin)
    | DepositTo(payee: Address, h: nat)
    | WithdrawFrom(account: Address, coin: Coin, amount: nat)
    | Pay(account: Address, payee: Address, coin: Coin, amount: nat)

  /** What the type system guarantees: coins exist and are of one type, numbers are unsigned
      and of 128 bits. */
  ghost predicate WellTyped(s: State, call: Call) {
    match call
    case Withdraw(h, amount) => h in s.held && amount < U128_RANGE
    case Deposit(h, check) => h in s.held && check in s.held && h != check && s.held[h].coin == s.held[check].coin
    case DestroyZero(h) => h in s.held
    case CreateToken(_, _, totalSupply, decimals, _) => totalSupply < U128_RANGE && decimals < 256
    case DepositTo(_, h) => h in s.held
    case WithdrawFrom(_, _, amount) => amount < U128_RANGE
    case Pay(_, _, _, amount) => amount < U128_RANGE
    case RegisterCoin(_, _, _, decimals) => decimals < 256
    case Zero(_) => true
    case Accept(_, _) => true
  }

  ghost function Perform(s: State, call: Call): Outcome {
    if !WellTyped(s, call) then Abort(IllTyped)
    else
      match call
      case Zero(coin) => Given(s, T(coin, 0))
      case Withdraw(h, amount) => Withdrawn(s, h, amount)
      case Deposit(h, check) => Deposited(s, h, check)
      case DestroyZero(h) => ZeroDestroyed(s, h)
      case RegisterCoin(account, coin, denom, decimals) => CoinRegistered(s, account, coin, denom, decimals)
      case CreateToken(account, name, totalSupply, decimals, denom) => TokenCreated(s, account, name, totalSupply, decimals, denom)
      case Accept(account, coin) => Accepted(s, account, coin)
      case DepositTo(payee, h) => DepositedTo(s, payee, h)
      case WithdrawFrom(account, coin, amount) => WithdrawnFrom(s, account, coin, amount)
      case Pay(account, payee, coin, amount) => Paid(s, account, payee, coin, amount)
  }

  /** What a call adds to the coins of a type: only the creation of its token adds any. */
  ghost function Minted(call: Call, coin: Coin): nat {
    if call.CreateToken? && coin == Token(call.name) then call.totalSupply else 0
  }

  lemma GivenAdds(s: State, t: T, coin: Coin)
    requires Valid(s) && t.value < U128_RANGE
    ensures Valid(Given(s, t).state) && Total(Given(s, t).state, coin) == Total(s, coin) + Worth(t, coin)
  {
    SumWith(s.held, s.next, t, coin);
  }

  lemma WithdrawnKeeps(s: State, h: nat, amount: nat, coin: Coin)
    requires Valid(s) && h in s.held && Withdrawn(s, h, amount).Done?
    ensures Valid(Withdrawn(s, h, amount).state) && Total(Withdrawn(s, h, amount).state, coin) == Total(s, coin)
  {
    var t := s.held[h];
    var less := s.held[h := T(t.coin, t.value - amount)];
    SumWith(s.held, h, T(t.coin, t.value - amount), coin);
    GivenAdds(s.(held := less), T(t.coin, amount), coin);
  }

  lemma DepositedKeeps(s: State, h: nat, check: nat, coin: Coin)
    requires Valid(s) && h in s.held && check in s.held && h != check && s.held[h].coin == s.held[check].coin
    requires Deposited(s, h, check).Done?
    ensures Valid(Deposited(s, h, check).state) && Total(Deposited(s, h, check).state, coin) == Total(s, coin)
  {
    SumWithout(s.held, check, coin);
    SumWith(s.held - {check}, h, T(s.held[h].coin, s.held[h].value + s.held[check].value), coin);
  }

  lemma ZeroDestroyedKeeps(s: State, h: nat, coin: Coin)
    requires Valid(s) && h in s.held && ZeroDestroyed(s, h).Done?
    ensures Valid(ZeroDestroyed(s, h).state) && Total(ZeroDestroyed(s, h).state, coin) == Total(s, coin)
  {
    SumWithout(s.held, h, coin);
  }

  lemma AcceptedKeeps(s: State, account: Address, c: Coin, coin: Coin)
    requires Valid(s) && Accepted(s, account, c).Done?
    ensures Valid(Accepted(s, account, c).state) && Total(Accepted(s, account, c).state, coin) == Total(s, coin)
  {
    SumWith(s.balances, (account, c), T(c, 0), coin);
  }

  lemma DepositedToKeeps(s: State, payee: Address, h: nat, coin: Coin)
    requires Valid(s) && h in s.held && DepositedTo(s, payee, h).Done?
    ensures Valid(DepositedTo(s, payee, h).state) && Total(DepositedTo(s, payee, h).state, coin) == Total(s, coin)
  {
    var t := s.held[h];
    SumWithout(s.held, h, coin);
    SumWith(s.balances, (payee, t.coin), T(t.coin, BalanceValue(s, payee, t.coin) + t.value), coin);
  }

  lemma BalanceIsValid(s: State, account: Address, c: Coin, t: T)
    requires Valid(s) && (account, c) in s.balances && t.coin == s.balances[(account, c)].coin
    requires t.value <= s.balances[(account, c)].value
    ensures Valid(s.(balances := s.balances[(account, c) := t])) && s.balances[(account, c)].value < U128_RANGE
  {
  }

  lemma WorthOfParts(t: T, amount: nat, coin: Coin)
    requires amount <= t.value
    ensures Worth(t, coin) == Worth(T(t.coin, t.value - amount), coin) + Worth(T(t.coin, amount), coin)
  {
  }

  lemma WithdrawnFromKeeps(s: State, account: Address, c: Coin, amount: nat, coin: Coin)
    requires Valid(s) && WithdrawnFrom(s, account, c, amount).Done?
    ensures Valid(WithdrawnFrom(s, account, c, amount).state)
    ensures Total(WithdrawnFrom(s, account, c, amount).state, coin) == Total(s, coin)
  {
    hide Valid, Sum, Worth;
    var t := s.balances[(account, c)];
    var less := T(t.coin, t.value - amount);
    BalanceIsValid(s, account, c, less);
    SumWith(s.balances, (account, c), less, coin);
    GivenAdds(s.(balances := s.balances[(account, c) := less]), T(t.coin, amount), coin);
    WorthOfParts(t, amount, coin);
  }

  lemma PaidKeeps(s: State, account: Address, payee: Address, c: Coin, amount: nat, coin: Coin)
    requires Valid(s) && Paid(s, account, payee, c, amount).Done?
    ensures Valid(Paid(s, account, payee, c, amount).state)
    ensures Total(Paid(s, account, payee, c, amount).state, coin) == Total(s, coin)
  {
    hide Total, Valid;
    WithdrawnFromKeeps(s, account, c, amount, coin);
    var w := WithdrawnFrom(s, account, c, amount);
    DepositedToKeeps(w.state, payee, w.coin, coin);
  }

  /** Every call keeps the value of all coins of every type, but for the creation of a token. */
  lemma CallKeepsTotals(s: State, call: Call, coin: Coin)
    requires Valid(s) && Perform(s, call).Done?
    ensures Valid(Perform(s, call).state) && Total(Perform(s, call).state, coin) == Total(s, coin) + Minted(call, coin)
  {
    hide Total, Withdrawn, Deposited, ZeroDestroyed, Accepted, DepositedTo, WithdrawnFrom, Paid;
    match call {
      case Zero(c) => GivenAdds(s, T(c, 0), coin);
      case Withdraw(h, amount) => WithdrawnKeeps(s, h, amount, coin);
      case Deposit(h, check) => DepositedKeeps(s, h, check, coin);
      case DestroyZero(h) => ZeroDestroyedKeeps(s, h, coin);
      case RegisterCoin(_, _, _, _) => InfosDoNotCount(s, Perform(s, call).state, coin);
      case CreateToken(_, name, totalSupply, _, _) =>
        var s' := s.(infos := Perform(s, call).state.infos);
        InfosDoNotCount(s, s', coin);
        GivenAdds(s', T(Token(name), totalSupply), coin);
      case Accept(account, c) => AcceptedKeeps(s, account, c, coin);
      case DepositTo(payee, h) => DepositedToKeeps(s, payee, h, coin);
      case WithdrawFrom(account, c, amount) => WithdrawnFromKeeps(s, account, c, amount, coin);
      case Pay(account, payee, c, amount) => PaidKeeps(s, account, payee, c, amount, coin);
    }
  }

  lemma InfosDoNotCount(s: State, s': State, coin: Coin)
    requires s'.balances == s.balances && s'.held == s.held
    ensures Total(s', coin) == Total(s, coin)
  {
  }

  // What a call does to the registered supplies.
  lemma CallAddsSupply(s: State, call: Call, name: string)
    requires Perform(s, call).Done?
    ensures Supply(Perform(s, call).state, name) == Supply(s, name) + Minted(call, Token(name))
  {
  }

  lemma CallConserves(s: State, call: Call)
    requires Valid(s) && Conserved(s) && Perform(s, call).Done?
    ensures Valid(Perform(s, call).state) && Conserved(Perform(s, call).state)
  {
    hide Perform, Total, Supply, Valid;
    CallKeepsTotals(s, call, Plain(""));
    forall name ensures Total(Perform(s, call).state, Token(name)) == Supply(Perform(s, call).state, name) {
      CallKeepsTotals(s, call, Token(name));
      CallAddsSupply(s, call, name);
    }
  }

  // ----- Every run -----

  /** The calls of a transaction so far; an abort ends it. */
  ghost function Calls(s: State, calls: seq<Call>): Outcome {
    if calls == [] then Done(s, 0)
    else
      match Calls(s, calls[..|calls| - 1])
      case Abort(e) => Abort(e)
      case Done(s', _) => Perform(s', calls[|calls| - 1])
  }

  /** Transactions one after the other; one that aborts has no effect. */
  ghost function Transactions(s: State, txs: seq<seq<Call>>): State {
    if txs == [] then s
    else
      var before := Transactions(s, txs[..|txs| - 1]);
      match Calls(before, txs[|txs| - 1])
      case Abort(_) => before
      case Done(after, _) => after
  }

  lemma {:induction false} CallsConserve(s: State, calls: seq<Call>)
    requires Valid(s) && Conserved(s)
    ensures Calls(s, calls).Done? ==> Valid(Calls(s, calls).state) && Conserved(Calls(s, calls).state)
  {
    hide Valid, Conserved, Perform;
    if calls != [] {
      CallsConserve(s, calls[..|calls| - 1]);
      var r := Calls(s, calls[..|calls| - 1]);
      if r.Done? && Perform(r.state, calls[|calls| - 1]).Done? {
        CallConserves(r.state, calls[|calls| - 1]);
      }
    }
  }

  lemma {:induction false} TransactionsConserve(s: State, txs: seq<seq<Call>>)
    requires Valid(s) && Conserved(s)
    ensures Valid(Transactions(s, txs)) && Conserved(Transactions(s, txs))
  {
    hide Valid, Conserved, Calls;
    if txs != [] {
      TransactionsConserve(s, txs[..|txs| - 1]);
      CallsConserve(Transactions(s, txs[..|txs| - 1]), txs[|txs| - 1]);
    }
  }

  /** In every reachable state, between and inside of transactions, the value of all coins of
      a token is its registered supply. */
  lemma TokensAreConserved(s: State, txs: seq<seq<Call>>, calls: seq<Call>)
    requires Valid(s) && Conserved(s)
    ensures var now := Calls(Transactions(s, txs), calls); now.Done? ==> Valid(now.state) && Conserved(now.state)
  {
    TransactionsConserve(s, txs);
    CallsConserve(Transactions(s, txs), calls);
  }

  /** Before any token is created there are none. */
  lemma GenesisIsConserved(s: State)
    requires forall c :: c in s.infos ==> !s.infos[c].isToken
    requires forall k :: k in s.balances && s.balances[k].coin.Token? ==> s.balances[k].value == 0
    requires forall h :: h in s.held && s.held[h].coin.Token? ==> s.held[h].value == 0
    ensures Conserved(s)
  {
    forall name ensures Total(s, Token(name)) == 0 {
      NothingToSum(s.balances, Token(name));
      NothingToSum(s.held, Token(name));
    }
  }

  lemma {:induction false} NothingToSum<K>(m: map<K, T>, coin: Coin)
    requires forall k :: k in m ==> Worth(m[k], coin) == 0
    ensures Sum(m, coin) == 0
    decreases m.Keys
  {
    if m != map[] {
      var k :| k in m && Sum(m, coin) == Worth(m[k], coin) + Sum(m - {k}, coin);
      NothingToSum(m - {k}, coin);
    }
  }

  // ----- Single operations -----

  /** A split leaves the rest in the coin and puts the amount into a new one; both are of the
      same type, and no other coin changes. It aborts exactly when there is too little. */
  lemma SplitIsExact(s: State, h: nat, amount: nat)
    requires Valid(s) && h in s.held
    ensures var r := Withdrawn(s, h, amount);
            if s.held[h].value < amount then r == Abort(Code(104))
            else
              r.Done? && r.coin !in s.held && r.state.held.Keys == s.held.Keys + {r.coin}
              && r.state.held[r.coin] == T(s.held[h].coin, amount)
              && r.state.held[h] == T(s.held[h].coin, s.held[h].value - amount)
              && (forall other :: other in s.held && other != h ==> r.state.held[other] == s.held[other])
              && r.state.balances == s.balances && r.state.infos == s.infos && r.state.accounts == s.accounts
  {
  }

  /** A join puts the sum into the first coin and takes the second away. */
  lemma JoinIsExact(s: State, h: nat, check: nat)
    requires Valid(s) && h in s.held && check in s.held && h != check && s.held[h].coin == s.held[check].coin
    ensures var r, sum := Deposited(s, h, check), s.held[h].value + s.held[check].value;
            if sum >= 0x1_00000000_00000000_00000000_00000000 then r == Abort(Overflow)
            else
              r.Done? && r.coin == h && r.state.held.Keys == s.held.Keys - {check}
              && r.state.held[h] == T(s.held[h].coin, sum)
              && (forall other :: other in s.held && other != h && other != check ==> r.state.held[other] == s.held[other])
              && r.state.balances == s.balances && r.state.infos == s.infos && r.state.accounts == s.accounts
  {
  }

  /** Joining the parts of a split gives back what there was. */
  lemma SplitThenJoin(s: State, h: nat, amount: nat)
    requires Valid(s) && h in s.held && amount <= s.held[h].value
    ensures var r := Withdrawn(s, h, amount);
            r.Done? && h != r.coin && h in r.state.held && r.coin in r.state.held
            && var j := Deposited(r.state, h, r.coin);
               j.Done? && j.state.held == s.held && j.state.balances == s.balances && j.state.infos == s.infos
  {
    SplitIsExact(s, h, amount);
    var r := Withdrawn(s, h, amount);
    SplitIsValid(s, h, amount);
    JoinIsExact(r.state, h, r.coin);
    hide Withdrawn, Deposited;
    assert s.held[h] == T(s.held[h].coin, s.held[h].value);
  }

  lemma SplitIsValid(s: State, h: nat, amount: nat)
    requires Valid(s) && h in s.held && amount <= s.held[h].value
    ensures Valid(Withdrawn(s, h, amount).state)
  {
  }

  /** Why the other operations abort, in the order of their checks. */
  lemma AbortsExactly(s: State, account: Address, payee: Address, coin: Coin, name: string, h: nat, n: nat, denom: seq<byte>,
                      totalSupply: nat)
    requires Valid(s) && h in s.held
    ensures ZeroDestroyed(s, h) == if s.held[h].value > 0 then Abort(Code(105)) else Done(s.(held := s.held - {h}), h)
    ensures var r := CoinRegistered(s, account, coin, denom, n);
            if account != 1 then r == Abort(Code(101)) else if coin in s.infos then r == Abort(ResourceExists) else r.Done?
    ensures var r := TokenCreated(s, account, name, totalSupply, n, denom);
            if Plain(name) in s.infos then r == Abort(Code(102)) else if n > 18 then r == Abort(Code(103))
            else r.Done? && r.coin !in s.held && r.state.held == s.held[r.coin := T(Token(name), totalSupply)]
    ensures Accepted(s, account, coin) ==
            if (account, coin) in s.balances then Abort(ResourceExists)
            else Done(s.(balances := s.balances[(account, coin) := T(coin, 0)]), 0)
    ensures var r, t := DepositedTo(s, payee, h), s.held[h];
            if t.value == 0 then r == Abort(Code(7)) else if t.coin !in s.infos then r == Abort(MissingResource)
            else if BalanceValue(s, payee, t.coin) + t.value >= 0x1_00000000_00000000_00000000_00000000 then r == Abort(Overflow)
            else r.Done? && BalanceValue(r.state, payee, t.coin) == BalanceValue(s, payee, t.coin) + t.value
                 && r.state.held == s.held - {h}
    ensures var r := WithdrawnFrom(s, account, coin, n);
            if (account, coin) !in s.balances then r == Abort(MissingResource)
            else if s.balances[(account, coin)].value < n then r == Abort(Code(104))
            else r.Done? && r.coin !in s.held && r.state.held == s.held[r.coin := T(coin, n)]
                 && BalanceValue(r.state, account, coin) == BalanceValue(s, account, coin) - n
  {
  }

  // ----- The registry -----

  /** The call makes this info for the coin type: a coin that is no token is registered by the
      core address 0x1, and a token has at most 18 decimals and belongs to its creator. */
  ghost predicate Registers(call: Call, coin: Coin, info: Info) {
    (call.RegisterCoin? && call.account == 1 && call.coin == coin && info == Info(call.denom, call.decimals, false, 1, 0))
    || (call.CreateToken? && coin == Plain(call.name) && call.decimals <= 18
        && info == Info(call.denom, call.decimals, true, call.account, call.totalSupply))
  }

  ghost predicate RegisteredBy(calls: seq<Call>, coin: Coin, info: Info) {
    exists i :: 0 <= i < |calls| && Registers(calls[i], coin, info)
  }

  lemma CallRegisters(s: State, call: Call, coin: Coin)
    requires Perform(s, call).Done?
    ensures var infos := Perform(s, call).state.infos;
            (coin in s.infos ==> coin in infos && infos[coin] == s.infos[coin])
            && (coin in infos && coin !in s.infos ==> Registers(call, coin, infos[coin]))
  {
  }

  lemma {:induction false} CallsRegister(s: State, calls: seq<Call>, coin: Coin)
    requires Calls(s, calls).Done?
    ensures var infos := Calls(s, calls).state.infos;
            (coin in s.infos ==> coin in infos && infos[coin] == s.infos[coin])
            && (coin in infos && coin !in s.infos ==> RegisteredBy(calls, coin, infos[coin]))
    decreases |calls|
  {
    hide Perform, Registers;
    if calls != [] {
      var front, last := calls[..|calls| - 1], calls[|calls| - 1];
      CallsRegister(s, front, coin);
      var before := Calls(s, front).state;
      CallRegisters(before, last, coin);
      if coin in before.infos && coin !in s.infos {
        var i :| 0 <= i < |front| && Registers(front[i], coin, before.infos[coin]);
        assert calls[i] == front[i];
      }
    }
  }

  /** In every state that transactions reach from an empty registry, each info was made by a
      call of a transaction that did not abort, and is as that call made it: no info is ever
      replaced, and none comes from a call that its checks forbid. */
  lemma {:induction false} InfosHaveOrigin(s: State, txs: seq<seq<Call>>, coin: Coin)
    ensures var infos := Transactions(s, txs).infos;
            (coin in s.infos ==> coin in infos && infos[coin] == s.infos[coin])
            && (coin in infos && coin !in s.infos ==>
                  exists i :: 0 <= i < |txs| && RegisteredBy(txs[i], coin, infos[coin])
                              && Calls(Transactions(s, txs[..i]), txs[i]).Done?)
    decreases |txs|
  {
    hide Calls, RegisteredBy;
    if txs != [] {
      var n := |txs| - 1;
      InfosHaveOrigin(s, txs[..n], coin);
      var before := Transactions(s, txs[..n]);
      if Calls(before, txs[n]).Done? {
        CallsRegister(before, txs[n], coin);
      }
      if coin in before.infos && coin !in s.infos {
        var i :| 0 <= i < n && RegisteredBy(txs[..n][i], coin, before.infos[coin])
          && Calls(Transactions(s, txs[..n][..i]), txs[..n][i]).Done?;
        assert txs[i] == txs[..n][i] && txs[..i] == txs[..n][..i];
      }
    }
  }

  // ----- No overflow -----

  lemma {:induction false} SumCovers<K>(m: map<K, T>, k: K)
    requires k in m
    ensures m[k].value <= Sum(m, m[k].coin)
  {
    SumWithout(m, k, m[k].coin);
  }

  /** Two token coins can always be joined: their sum is at most the supply. */
  lemma TokensCanBeJoined(s: State, h: nat, check: nat)
    requires Valid(s) && Conserved(s) && h in s.held && check in s.held && h != check
    requires s.held[h].coin == s.held[check].coin && s.held[h].coin.Token?
    ensures Deposited(s, h, check).Done?
  {
    var c := s.held[h].coin;
    SumWithout(s.held, check, c);
    SumCovers(s.held - {check}, h);
    assert Total(s, c) == Supply(s, c.name);
  }

  /** A token coin can be deposited if, and only if, it is not empty and the core address has
      registered the token type itself; the balance never overflows. */
  lemma TokensCanBeDeposited(s: State, payee: Address, h: nat)
    requires Valid(s) && Conserved(s) && h in s.held && s.held[h].coin.Token?
    ensures DepositedTo(s, payee, h).Done? <==> s.held[h].value > 0 && s.held[h].coin in s.infos
    ensures DepositedTo(s, payee, h) != Abort(Overflow)
  {
    var c := s.held[h].coin;
    SumCovers(s.held, h);
    if (payee, c) in s.balances {
      SumCovers(s.balances, (payee, c));
    }
    assert Total(s, c) == Supply(s, c.name);
  }

  /** A token that was just created cannot be deposited: its info is stored under the declared
      type, while a deposit reads that of the token type. */
  lemma NewTokenIsStuck(s: State, account: Address, payee: Address, name: string, totalSupply: nat, decimals: nat,
                        denom: seq<byte>)
    requires Token(name) !in s.infos && totalSupply > 0
    requires TokenCreated(s, account, name, totalSupply, decimals, denom).Done?
    ensures var r := TokenCreated(s, account, name, totalSupply, decimals, denom);
            DepositedTo(r.state, payee, r.coin) == Abort(MissingResource)
  {
  }

  // ----- Payments -----

  /** A payment moves the amount, and a payment to oneself changes no balance; the payee gets
      an account and a balance if there was none, and nothing else changes. */
  lemma PaymentMoves(s: State, account: Address, payee: Address, coin: Coin, amount: nat, who: Address, c: Coin)
    requires Valid(s) && Paid(s, account, payee, coin, amount).Done?
    ensures var s' := Paid(s, account, payee, coin, amount).state;
            BalanceValue(s', who, c) ==
            BalanceValue(s, who, c) - (if (who, c) == (account, coin) then amount else 0)
                                    + (if (who, c) == (payee, coin) then amount else 0)
    ensures var s' := Paid(s, account, payee, coin, amount).state; s'.held == s.held && s'.infos == s.infos
    ensures var s' := Paid(s, account, payee, coin, amount).state;
            s'.accounts == s.accounts + {payee} && s'.balances.Keys == s.balances.Keys + {(payee, coin)}
            && forall key :: key in s.balances ==> s'.balances[key].coin == s.balances[key].coin
  {
  }

  /** When a payment of a token succeeds: the amount is there and not zero, and the token type
      is registered. */
  lemma TokensCanBePaid(s: State, account: Address, payee: Address, coin: Coin, amount: nat)
    requires Valid(s) && Conserved(s) && coin.Token?
    ensures Paid(s, account, payee, coin, amount).Done? <==>
            0 < amount && (account, coin) in s.balances && amount <= s.balances[(account, coin)].value && coin in s.infos
  {
    var w := WithdrawnFrom(s, account, coin, amount);
    if w.Done? {
      var call := WithdrawFrom(account, coin, amount);
      if amount < U128_RANGE {
        CallConserves(s, call);
        TokensCanBeDeposited(w.state, payee, w.coin);
      }
    }
  }
}
