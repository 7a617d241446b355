/** Coins, tokens and balances (resources/assets/stdlib/dfinance.move, account.move): global
    storage and the coins that are held outside of it. */
module Coins {
  import opened Wrappers

  type Address = nat

  const CORE: Address := 1
  const U128_RANGE: nat := 0x1_00000000_00000000_00000000_00000000
  const DECIMALS_MAX := 18

  const ERR_ZERO_DEPOSIT := 7
  const ERR_NOT_CORE_ADDRESS := 101
  const ERR_NOT_REGISTERED := 102
  const ERR_INVALID_NUMBER_OF_DECIMALS := 103
  const ERR_AMOUNT_TOO_SMALL := 104
  const ERR_NON_ZERO_DEPOSIT := 105

  /** The type argument of a coin: a declared type, or `Token` of one. */
  datatype Coin = Plain(name: string) | Token(name: string)

  /** The resource `T<Coin>`. */
  datatype T = T(coin: Coin, value: nat)

  datatype Info = Info(denom: seq<byte>, decimals: nat, isToken: bool, owner: Address, totalSupply: nat)

  /** Why execution aborts: a code of the modules, an addition beyond 128 bits, or the global
      storage. */
  datatype Error = Code(code: nat) | Overflow | MissingResource | ResourceExists | IllTyped

  /** Infos are stored at the core address; a coin outside of the balances has a handle. */
  datatype State = State(infos: map<Coin, Info>, balances: map<(Address, Coin), T>, accounts: set<Address>,
                         held: map<nat, T>, next: nat)

  datatype Outcome = Done(state: State, coin: nat) | Abort(error: Error)

  /** Values fit in 128 bits, handles are new, and a balance holds its own coin. */
  ghost predicate Valid(s: State) {
    (forall h :: h in s.held ==> h < s.next && s.held[h].value < U128_RANGE)
    && (forall k :: k in s.balances ==> s.balances[k].coin == k.1 && s.balances[k].value < U128_RANGE)
    && (forall c :: c in s.infos ==> s.infos[c].totalSupply < U128_RANGE)
  }

  // ----- Dfinance -----

  ghost function Given(s: State, t: T): Outcome {
    Done(s.(held := s.held[s.next := t], next := s.next + 1), s.next)
  }

  ghost function Withdrawn(s: State, h: nat, amount: nat): Outcome
    requires h in s.held
  {
    var t := s.held[h];
    if t.value < amount then Abort(Code(ERR_AMOUNT_TOO_SMALL))
    else Given(s.(held := s.held[h := T(t.coin, t.value - amount)]), T(t.coin, amount))
  }

  ghost function Deposited(s: State, h: nat, check: nat): Outcome
    requires h in s.held && check in s.held && h != check
  {
    var sum := s.held[h].value + s.held[check].value;
    if sum >= U128_RANGE then Abort(Overflow)
    else Done(s.(held := (s.held - {check})[h := T(s.held[h].coin, sum)]), h)
  }

  ghost function ZeroDestroyed(s: State, h: nat): Outcome
    requires h in s.held
  {
    if s.held[h].value != 0 then Abort(Code(ERR_NON_ZERO_DEPOSIT)) else Done(s.(held := s.held - {h}), h)
  }

  ghost function CoinRegistered(s: State, account: Address, coin: Coin, denom: seq<byte>, decimals: nat): Outcome {
    if account != CORE then Abort(Code(ERR_NOT_CORE_ADDRESS))
    else if coin in s.infos then Abort(ResourceExists)
    else Done(s.(infos := s.infos[coin := Info(denom, decimals, false, CORE, 0)]), 0)
  }

  /** The info is stored for the declared type, the coin is one of its token type. */
  ghost function TokenCreated(s: State, account: Address, name: string, totalSupply: nat, decimals: nat, denom: seq<byte>): Outcome {
    if Plain(name) in s.infos then Abort(Code(ERR_NOT_REGISTERED))
    else if decimals > DECIMALS_MAX then Abort(Code(ERR_INVALID_NUMBER_OF_DECIMALS))
    else Given(s.(infos := s.infos[Plain(name) := Info(denom, decimals, true, account, totalSupply)]), T(Token(name), totalSupply))
  }

  // ----- Account -----

  ghost function Accepted(s: State, account: Address, coin: Coin): Outcome {
    if (account, coin) in s.balances then Abort(ResourceExists)
    else Done(s.(balances := s.balances[(account, coin) := T(coin, 0)]), 0)
  }

  ghost function BalanceValue(s: State, account: Address, coin: Coin): nat {
    if (account, coin) in s.balances then s.balances[(account, coin)].value else 0
  }

  /** The payee gets a balance and an account where there is none. */
  ghost function DepositedTo(s: State, payee: Address, h: nat): Outcome
    requires h in s.held
  {
    var t := s.held[h];
    if t.value == 0 then Abort(Code(ERR_ZERO_DEPOSIT))
    else if t.coin !in s.infos then Abort(MissingResource)
    else
      var sum := BalanceValue(s, payee, t.coin) + t.value;
      if sum >= U128_RANGE then Abort(Overflow)
      else Done(s.(balances := s.balances[(payee, t.coin) := T(t.coin, sum)], accounts := s.accounts + {payee},
                   held := s.held - {h}), 0)
  }

  ghost function WithdrawnFrom(s: State, account: Address, coin: Coin, amount: nat): Outcome {
    if (account, coin) !in s.balances then Abort(MissingResource)
    else
      var t := s.balances[(account, coin)];
      if t.value < amount then Abort(Code(ERR_AMOUNT_TOO_SMALL))
      else Given(s.(balances := s.balances[(account, coin) := T(t.coin, t.value - amount)]), T(t.coin, amount))
  }

  ghost function Paid(s: State, account: Address, payee: Address, coin: Coin, amount: nat): Outcome {
    match WithdrawnFrom(s, account, coin, amount)
    case Abort(e) => Abort(e)
    case Done(s', h) => DepositedTo(s', payee, h)
  }

  // ----- The modules -----

  /** Global storage and held coins. An abort leaves the state behind that the virtual machine
      then discards. */
  class Ledger {
    var infos: map<Coin, Info>
    var balances: map<(Address, Coin), T>
    var accounts: set<Address>
    var held: map<nat, T>
    var next: nat

    ghost function Now(): State
      reads this
    {
      State(infos, balances, accounts, held, next)
    }

    constructor (s: State)
      ensures Now() == s
    {
      infos, balances, accounts, held, next := s.infos, s.balances, s.accounts, s.held, s.next;
    }

    /** What an operation did, against its specification. */
    ghost predicate Did(outcome: Outcome, abort: Option<Error>, coin: nat)
      reads this
    {
      outcome == match abort case None => Done(Now(), coin) case Some(e) => Abort(e)
    }

    method Give(t: T) returns (coin: nat)
      modifies this
      ensures Done(Now(), coin) == Given(old(Now()), t)
    {
      coin := next;
      held := held[next := t];
      next := next + 1;
    }

    method Zero(coin: Coin) returns (t: nat)
      modifies this
      ensures Done(Now(), t) == Given(old(Now()), T(coin, 0))
    {
      t := Give(T(coin, 0));
    }

    method Withdraw(coin: nat, amount: nat) returns (abort: Option<Error>, other: nat)
      requires coin in held
      modifies this
      ensures Did(Withdrawn(old(Now()), coin, amount), abort, other)
    {
      if held[coin].value < amount {
        return Some(Code(ERR_AMOUNT_TOO_SMALL)), 0;
      }
      held := held[coin := held[coin].(value := held[coin].value - amount)];
      other := Give(T(held[coin].coin, amount));
      abort := None;
    }

    method Split(coin: nat, amount: nat) returns (abort: Option<Error>, rest: nat, other: nat)
      requires coin in held
      modifies this
      ensures rest == coin && Did(Withdrawn(old(Now()), coin, amount), abort, other)
    {
      abort, other := Withdraw(coin, amount);
      rest := coin;
    }

    method Deposit(coin: nat, check: nat) returns (abort: Option<Error>)
      requires coin in held && check in held && coin != check && held[coin].coin == held[check].coin
      modifies this
      ensures Did(Deposited(old(Now()), coin, check), abort, coin)
    {
      var value := held[check].value;
      if held[coin].value + value >= U128_RANGE {
        return Some(Overflow);
      }
      held := held - {check};
      held := held[coin := held[coin].(value := held[coin].value + value)];
      abort := None;
    }

    method Join(coin1: nat, coin2: nat) returns (abort: Option<Error>, coin: nat)
      requires coin1 in held && coin2 in held && coin1 != coin2 && held[coin1].coin == held[coin2].coin
      modifies this
      ensures coin == coin1 && Did(Deposited(old(Now()), coin1, coin2), abort, coin)
    {
      abort := Deposit(coin1, coin2);
      coin := coin1;
    }

    method DestroyZero(coin: nat) returns (abort: Option<Error>)
      requires coin in held
      modifies this
      ensures Did(ZeroDestroyed(old(Now()), coin), abort, coin)
    {
      if held[coin].value != 0 {
        return Some(Code(ERR_NON_ZERO_DEPOSIT));
      }
      held := held - {coin};
      abort := None;
    }

    method RegisterCoin(account: Address, coin: Coin, denom: seq<byte>, decimals: nat) returns (abort: Option<Error>)
      modifies this
      ensures Did(CoinRegistered(old(Now()), account, coin, denom, decimals), abort, 0)
    {
      if account != CORE {
        return Some(Code(ERR_NOT_CORE_ADDRESS));
      }
      if coin in infos {
        return Some(ResourceExists);
      }
      infos := infos[coin := Info(denom, decimals, false, CORE, 0)];
      abort := None;
    }

    method CreateToken(account: Address, name: string, totalSupply: nat, decimals: nat, denom: seq<byte>)
      returns (abort: Option<Error>, coin: nat)
      modifies this
      ensures Did(TokenCreated(old(Now()), account, name, totalSupply, decimals, denom), abort, coin)
    {
      if Plain(name) in infos {
        return Some(Code(ERR_NOT_REGISTERED)), 0;
      }
      if decimals > DECIMALS_MAX {
        return Some(Code(ERR_INVALID_NUMBER_OF_DECIMALS)), 0;
      }
      infos := infos[Plain(name) := Info(denom, decimals, true, account, totalSupply)];
      coin := Give(T(Token(name), totalSupply));
      abort := None;
    }

    method Accept(account: Address, coin: Coin) returns (abort: Option<Error>)
      modifies this
      ensures Did(Accepted(old(Now()), account, coin), abort, 0)
    {
      if (account, coin) in balances {
        return Some(ResourceExists);
      }
      CreateBalance(account, coin);
      abort := None;
    }

    method CreateBalance(addr: Address, coin: Coin)
      requires (addr, coin) !in balances
      modifies this`balances
      ensures balances == old(balances)[(addr, coin) := T(coin, 0)]
    {
      balances := balances[(addr, coin) := T(coin, 0)];
    }

    method DepositWithMetadata(payee: Address, toDeposit: nat) returns (abort: Option<Error>)
      requires toDeposit in held && Valid(Now())
      modifies this
      ensures Did(DepositedTo(old(Now()), payee, toDeposit), abort, 0)
    {
      var t := held[toDeposit];
      if t.value == 0 {
        return Some(Code(ERR_ZERO_DEPOSIT));
      }
      if t.coin !in infos {
        return Some(MissingResource);
      }
      if (payee, t.coin) !in balances {
        CreateBalance(payee, t.coin);
      }
      if payee !in accounts {
        accounts := accounts + {payee};
      }
      var balance := balances[(payee, t.coin)];
      if balance.value + t.value >= U128_RANGE {
        return Some(Overflow);
      }
      held := held - {toDeposit};
      balances := balances[(payee, t.coin) := balance.(value := balance.value + t.value)];
      abort := None;
    }

    method WithdrawFromSender(account: Address, coin: Coin, amount: nat) returns (abort: Option<Error>, t: nat)
      modifies this
      ensures Did(WithdrawnFrom(old(Now()), account, coin, amount), abort, t)
    {
      if (account, coin) !in balances {
        return Some(MissingResource), 0;
      }
      var balance := balances[(account, coin)];
      if balance.value < amount {
        return Some(Code(ERR_AMOUNT_TOO_SMALL)), 0;
      }
      balances := balances[(account, coin) := balance.(value := balance.value - amount)];
      t := Give(T(balance.coin, amount));
      abort := None;
    }

    method PayFromSender(account: Address, payee: Address, coin: Coin, amount: nat) returns (abort: Option<Error>)
      requires Valid(Now())
      modifies this
      ensures Did(Paid(old(Now()), account, payee, coin, amount), abort, 0)
    {
      var t;
      abort, t := WithdrawFromSender(account, coin, amount);
      if abort.Some? {
        return;
      }
      abort := DepositWithMetadata(payee, t);
    }
  }
}
