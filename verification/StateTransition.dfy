/** Applying one message: the checks, buying gas, execution, the refund and the payments.

    Execution itself is a parameter: it takes the accounts and an amount of gas, and gives
    back the accounts, the gas that is left and whether it failed.
 */
module StateTransitionModel {
  import opened Common
  import opened Bytes
  import opened Ledger
  import opened IntrinsicGas
  import opened Fees

  const REFUND_QUOTIENT: nat := 2
  const REFUND_QUOTIENT_EIP3529: nat := 5

  datatype TxError =
    | NonceTooHigh | NonceTooLow | NonceMax | SenderNoEOA | TipAboveFeeCap | FeeCapTooLow
    | InsufficientFunds | GasLimitReached | GasUintOverflow | IntrinsicGasTooLow

  datatype Result = Ok(used: nat, failed: bool) | Err(error: TxError)

  /** The accounts; `code` says which have code, `refund` is the refund counter, `destroyed` are
      the accounts marked as self-destructed since the transaction began. */
  datatype World = World(balances: seq<nat>, nonces: seq<nat>, code: seq<bool>, refund: nat, destroyed: set<nat>)

  datatype Run = Run(world: World, gas: nat, failed: bool)

  type Evm = (World, nat) -> Run

  ghost predicate Fitting(w: World, n: nat) {
    && |w.balances| == n && |w.nonces| == n && |w.code| == n
    && (forall a | 0 <= a < n :: w.balances[a] < TWO256) && (forall a | 0 <= a < n :: w.nonces[a] < TWO64)
  }

  /** Execution never returns more gas than it was given, and keeps accounts well formed. */
  ghost predicate Sound(evm: Evm, n: nat) {
    forall w, g :: Fitting(w, n) ==> evm(w, g).gas <= g && Fitting(evm(w, g).world, n)
  }

  ghost predicate InRange(env: Env, msg: Message, n: nat) {
    && msg.from < n && env.coinbase < n && (env.collector.Some? ==> env.collector.value < n)
    && Words(env, msg) && msg.gasPrice < TWO256 && |msg.data| < TWO64
  }

  // ---------- what the code decides, as functions ----------

  ghost function NonceRefusal(msg: Message, w: World): Option<TxError>
    requires msg.from < |w.nonces| && msg.from < |w.code|
  {
    if w.nonces[msg.from] < msg.nonce then Some(NonceTooHigh)
    else if w.nonces[msg.from] > msg.nonce then Some(NonceTooLow)
    else if w.nonces[msg.from] == TWO64 - 1 then Some(NonceMax)
    else if w.code[msg.from] then Some(SenderNoEOA)
    else None
  }

  ghost function FeeRefusal(env: Env, msg: Message): Option<TxError> {
    if env.baseFee.None? then None
    else if msg.feeCap < msg.tip then Some(TipAboveFeeCap)
    else if msg.feeCap < env.baseFee.value then Some(FeeCapTooLow)
    else None
  }

  ghost function FundsRefusal(msg: Message, w: World, pool: nat): Option<TxError>
    requires msg.from < |w.balances|
  {
    if msg.gas * msg.gasPrice >= TWO256 || msg.gas * msg.feeCap + msg.value >= TWO256
       || w.balances[msg.from] < msg.gas * msg.feeCap + msg.value then Some(InsufficientFunds)
    else if pool < msg.gas then Some(GasLimitReached)
    else None
  }

  ghost function GasRefusal(env: Env, msg: Message): Option<TxError> {
    if BaseCost(msg.data, msg.to.None?, env.fork) >= TWO64 then Some(GasUintOverflow)
    else if msg.gas < Intrinsic(env, msg) then Some(IntrinsicGasTooLow)
    else None
  }

  ghost function Intrinsic(env: Env, msg: Message): nat {
    Cost(msg.data, msg.accessList, msg.to.None?, env.fork) % TWO64
  }

  /** The checks that come before anything is changed, in their order. */
  ghost function EarlyRefusal(env: Env, msg: Message, w: World, pool: nat): Option<TxError>
    requires msg.from < |w.balances| && msg.from < |w.nonces| && msg.from < |w.code|
  {
    Or(Or(NonceRefusal(msg, w), FeeRefusal(env, msg)), FundsRefusal(msg, w, pool))
  }

  /** The accounts when execution starts. */
  ghost function Started(msg: Message, w: World): World
    requires msg.from < |w.balances| && msg.from < |w.nonces|
  {
    var charged := w.(balances := Charged(msg, w.balances));
    if msg.to.None? then charged
    else charged.(nonces := w.nonces[msg.from := (w.nonces[msg.from] + 1) % TWO64])
  }

  ghost function Executed(env: Env, msg: Message, w: World, evm: Evm): Run
    requires msg.from < |w.balances| && msg.from < |w.nonces| && GasRefusal(env, msg).None?
  {
    evm(Started(msg, w), msg.gas - Intrinsic(env, msg))
  }

  ghost function Quotient(env: Env): nat {
    if env.baseFee.Some? then REFUND_QUOTIENT_EIP3529 else REFUND_QUOTIENT
  }

  /** The refund counter, capped at a fraction of the gas used so far. */
  ghost function Capped(before: nat, quotient: nat, counter: nat): (r: nat)
    requires quotient > 0
    ensures r <= counter && r * quotient <= before && r <= before
    ensures forall x: nat | x <= counter && x * quotient <= before :: x <= r
  {
    Fraction(before, quotient);
    if before / quotient > counter then MulMono(counter, before / quotient, quotient); counter else before / quotient
  }

  lemma Fraction(n: nat, q: nat)
    requires q > 0
    ensures n / q <= n && n / q * q <= n
    ensures forall x: nat | x * q <= n :: x <= n / q
  {
    assert n == n / q * q + n % q;
    MulMono(1, q, n / q);
    forall x: nat | x * q <= n ensures x <= n / q {
      QuotientBelow(n, q, x);
    }
  }

  ghost function Refund(env: Env, msg: Message, run: Run): nat
    requires run.gas <= msg.gas
  {
    Capped(msg.gas - run.gas, Quotient(env), run.world.refund)
  }

  ghost function Used(env: Env, msg: Message, run: Run): (r: nat)
    requires run.gas <= msg.gas
    ensures r <= msg.gas - run.gas
  {
    msg.gas - run.gas - Refund(env, msg, run)
  }

  ghost function Settled(env: Env, msg: Message, run: Run): World
    requires run.gas <= msg.gas && InRange(env, msg, |run.world.balances|)
  {
    run.world.(balances := Paid(env, msg, run.world.balances, Used(env, msg, run)))
  }

  /** A transaction that was not refused and what it used. */
  ghost predicate Ran(env: Env, msg: Message, w: World, evm: Evm, used: nat, failed: bool) {
    && msg.from < |w.balances| && msg.from < |w.nonces| && GasRefusal(env, msg).None?
    && var run := Executed(env, msg, w, evm);
    && run.gas <= msg.gas && InRange(env, msg, |run.world.balances|)
    && used == Used(env, msg, run) && failed == run.failed
  }

  /** Execution, and then the payments. */
  ghost predicate Done(env: Env, msg: Message, w: World, evm: Evm, used: nat, failed: bool, w': World) {
    Ran(env, msg, w, evm, used, failed) && w' == Settled(env, msg, Executed(env, msg, w, evm))
  }

  /** The accounts at the end of a transaction: those it destroyed are gone, whatever they hold by
      then, and the refund counter starts again. */
  ghost function Finalized(w: World): World {
    World(Cleared(w.balances, w.destroyed), Cleared(w.nonces, w.destroyed), Kept(w.code, w.destroyed), 0, {})
  }

  ghost function Kept(code: seq<bool>, ids: set<nat>): (r: seq<bool>)
    ensures |r| == |code|
  {
    seq(|code|, i requires 0 <= i < |code| => code[i] && i !in ids)
  }

  /** What the end of a transaction does to each account. */
  lemma FinalizedAt(w: World, n: nat, a: nat)
    requires Fitting(w, n) && a < n
    ensures var f := Finalized(w);
      && |f.balances| == n && |f.nonces| == n && |f.code| == n && f.refund == 0 && f.destroyed == {}
      && (if a in w.destroyed then f.balances[a] == 0 && f.nonces[a] == 0 && !f.code[a]
          else f.balances[a] == w.balances[a] && f.nonces[a] == w.nonces[a] && f.code[a] == w.code[a])
  {
  }

  lemma FinalizedFits(w: World, n: nat)
    requires Fitting(w, n)
    ensures Fitting(Finalized(w), n)
  {
  }

  lemma CreditFits(w: World, n: nat, a: nat, v: nat)
    requires Fitting(w, n) && a < n
    ensures Fitting(w.(balances := Credit(w.balances, a, v)), n)
  {
  }

  lemma FeesFit(w: World, n: nat, env: Env, msg: Message, used: nat)
    requires Fitting(w, n) && InRange(env, msg, n)
    ensures Fitting(w.(balances := FeesPaid(env, msg, w.balances, used)), n)
  {
    hide Fitting, Credit;
    var v := Mul256(used, EffectiveTip(env, msg));
    CreditFits(w, n, env.coinbase, v);
    if env.baseFee.Some? && env.collector.Some? {
      CreditFits(w.(balances := Credit(w.balances, env.coinbase, v)), n, env.collector.value, Mul256(used, env.baseFee.value));
    }
  }

  lemma StartedFits(msg: Message, w: World, n: nat)
    requires Fitting(w, n) && msg.from < n
    ensures Fitting(Started(msg, w), n) && Fitting(w.(balances := Charged(msg, w.balances)), n)
  {
  }

  lemma ExecutedFits(env: Env, msg: Message, w: World, evm: Evm, n: nat)
    requires Fitting(w, n) && msg.from < n && Sound(evm, n) && GasRefusal(env, msg).None?
    ensures Fitting(Executed(env, msg, w, evm).world, n)
    ensures Executed(env, msg, w, evm).gas <= msg.gas - Intrinsic(env, msg)
  {
    hide Cost, BaseCost;
    StartedFits(msg, w, n);
  }

  // ---------- what is refused, and why ----------

  /** What each error says of the message and the accounts. */
  ghost predicate Violates(e: TxError, env: Env, msg: Message, w: World, pool: nat)
    requires msg.from < |w.balances| && msg.from < |w.nonces| && msg.from < |w.code|
  {
    match e
    case NonceTooHigh => msg.nonce > w.nonces[msg.from]
    case NonceTooLow => msg.nonce < w.nonces[msg.from]
    case NonceMax => w.nonces[msg.from] == 0xffff_ffff_ffff_ffff
    case SenderNoEOA => w.code[msg.from]
    case TipAboveFeeCap => env.baseFee.Some? && msg.tip > msg.feeCap
    case FeeCapTooLow => env.baseFee.Some? && env.baseFee.value > msg.feeCap
    case InsufficientFunds =>
      || msg.gas * msg.gasPrice >= TWO256 || msg.gas * msg.feeCap + msg.value >= TWO256
      || msg.gas * msg.feeCap + msg.value > w.balances[msg.from]
    case GasLimitReached => msg.gas > pool
    case GasUintOverflow => BaseCost(msg.data, msg.to.None?, env.fork) >= TWO64
    case IntrinsicGasTooLow => Cost(msg.data, msg.accessList, msg.to.None?, env.fork) % TWO64 > msg.gas
  }

  /** The order in which the errors are looked for. */
  ghost function Rank(e: TxError): nat {
    match e
    case NonceTooHigh => 0
    case NonceTooLow => 1
    case NonceMax => 2
    case SenderNoEOA => 3
    case TipAboveFeeCap => 4
    case FeeCapTooLow => 5
    case InsufficientFunds => 6
    case GasLimitReached => 7
    case GasUintOverflow => 8
    case IntrinsicGasTooLow => 9
  }

  ghost predicate FirstViolated(e: TxError, env: Env, msg: Message, w: World, pool: nat)
    requires msg.from < |w.balances| && msg.from < |w.nonces| && msg.from < |w.code|
  {
    Violates(e, env, msg, w, pool) && forall d | Rank(d) < Rank(e) :: !Violates(d, env, msg, w, pool)
  }

  ghost function Refusal(env: Env, msg: Message, w: World, pool: nat): Option<TxError>
    requires msg.from < |w.balances| && msg.from < |w.nonces| && msg.from < |w.code|
  {
    Or(EarlyRefusal(env, msg, w, pool), GasRefusal(env, msg))
  }

  /** Nothing before the error found is violated. */
  lemma RefusedFirst(env: Env, msg: Message, w: World, pool: nat)
    requires msg.from < |w.balances| && msg.from < |w.nonces| && msg.from < |w.code|
    ensures match Refusal(env, msg, w, pool)
      case None => forall d :: !Violates(d, env, msg, w, pool)
      case Some(e) => FirstViolated(e, env, msg, w, pool)
  {
    hide Cost, BaseCost;
    var r := Refusal(env, msg, w, pool);
    forall d | r.None? || Rank(d) < Rank(r.value) ensures !Violates(d, env, msg, w, pool) {
      match d
      case _ =>
    }
  }

  /** A message is accepted exactly if none of the ten conditions is violated, and otherwise refused with
      the first one that is. */
  lemma RefusedExactly(env: Env, msg: Message, w: World, pool: nat, e: TxError)
    requires msg.from < |w.balances| && msg.from < |w.nonces| && msg.from < |w.code|
    ensures Refusal(env, msg, w, pool).None? <==> forall d :: !Violates(d, env, msg, w, pool)
    ensures Refusal(env, msg, w, pool) == Some(e) <==> FirstViolated(e, env, msg, w, pool)
  {
    hide Violates, Refusal;
    RefusedFirst(env, msg, w, pool);
    var r := Refusal(env, msg, w, pool);
    if FirstViolated(e, env, msg, w, pool) {
      assert r.Some? && Rank(r.value) == Rank(e);
      OneRank(r.value, e);
    }
  }

  lemma OneRank(d: TxError, e: TxError)
    ensures Rank(d) == Rank(e) <==> d == e
  {
  }

  // ---------- the nonce ----------

  /** An accepted message has the nonce of its sender, an account without code.  Execution starts with
      that nonce used up, and with all others as they were; a creation uses it up itself. */
  lemma NonceUsed(env: Env, msg: Message, w: World, pool: nat, n: nat)
    requires Fitting(w, n) && msg.from < n && EarlyRefusal(env, msg, w, pool).None?
    ensures w.nonces[msg.from] == msg.nonce < TWO64 - 1 && !w.code[msg.from]
    ensures |Started(msg, w).nonces| == n
    ensures Started(msg, w).nonces[msg.from] == if msg.to.Some? then msg.nonce + 1 else msg.nonce
    ensures forall a | 0 <= a < n && a != msg.from :: Started(msg, w).nonces[a] == w.nonces[a]
    ensures Started(msg, w).code == w.code
  {
    hide Charged;
    TurnOnce(w.nonces[msg.from] + 1, TWO64);
  }

  /** Execution lowers no nonce, and a creation uses up the sender's. */
  ghost predicate KeepsNonces(msg: Message, w: World, run: Run)
    requires msg.from < |w.balances| && msg.from < |w.nonces|
  {
    && |run.world.nonces| == |w.nonces|
    && (forall a | 0 <= a < |w.nonces| :: run.world.nonces[a] >= Started(msg, w).nonces[a])
    && (msg.to.None? ==> run.world.nonces[msg.from] > w.nonces[msg.from])
  }

  /** The same message is refused afterwards, in any block and with any pool. */
  lemma SameMessageRefused(env: Env, msg: Message, w: World, pool: nat, evm: Evm, used: nat, failed: bool, w': World, n: nat,
                           env': Env, pool': nat)
    requires Fitting(w, n) && Sound(evm, n) && InRange(env, msg, n)
    requires EarlyRefusal(env, msg, w, pool).None? && Done(env, msg, w, evm, used, failed, w')
    requires KeepsNonces(msg, w, Executed(env, msg, w, evm))
    ensures msg.from < |w'.balances| && msg.from < |w'.nonces| && msg.from < |w'.code|
    ensures EarlyRefusal(env', msg, w', pool') == Some(NonceTooLow)
  {
    hide Charged, Paid, FeeRefusal, FundsRefusal, Cost, BaseCost, Used;
    NonceUsed(env, msg, w, pool, n);
    ExecutedFits(env, msg, w, evm, n);
  }

  // ---------- what every transaction keeps ----------

  /** What execution itself adds to the supply. */
  ghost function Delta(msg: Message, w: World, run: Run): int
    requires msg.from < |w.balances| && msg.from < |w.nonces|
  {
    Total(run.world.balances) - Total(Started(msg, w).balances)
  }

  lemma EarlyMeansAccepted(env: Env, msg: Message, w: World, pool: nat)
    requires msg.from < |w.balances| && msg.from < |w.nonces| && msg.from < |w.code|
    requires EarlyRefusal(env, msg, w, pool).None?
    ensures Accepted(env, msg, w.balances) && pool >= msg.gas
  {
  }

  /** The supply changes by what execution changes, less the burned base fee: exactly unless one
      unit of gas is bought, used, and priced by a sum that left 256 bits. */
  lemma SupplyLaw(env: Env, msg: Message, w: World, pool: nat, evm: Evm, used: nat, failed: bool, w': World, n: nat)
    requires Fitting(w, n) && InRange(env, msg, n) && Built(env, msg) && Sound(evm, n)
    requires EarlyRefusal(env, msg, w, pool).None? && Done(env, msg, w, evm, used, failed, w')
    requires Total(w.balances) + Delta(msg, w, Executed(env, msg, w, evm)) < TWO256
    ensures Total(w'.balances) == Total(w.balances) + Delta(msg, w, Executed(env, msg, w, evm)) - Burned(env, used)
            <==> !(msg.gas == 1 && used == 1 && PriceWraps(env, msg))
  {
    hide Total, Paid, Charged, Built, Words, EarlyRefusal, Cost, BaseCost, Capped;
    EarlyMeansAccepted(env, msg, w, pool);
    StartedFits(msg, w, n);
    var run := Executed(env, msg, w, evm);
    assert Fitting(run.world, n);
    FeesConserved(env, msg, w.balances, run.world.balances, used);
  }

  /** No transaction of reasonable size is the exception: it buys at least 21000 units. */
  lemma EnoughGas(env: Env, msg: Message)
    requires GasRefusal(env, msg).None? && Cost(msg.data, msg.accessList, msg.to.None?, env.fork) < TWO64
    ensures msg.gas >= TX_GAS
  {
    CostAtLeast(msg.data, msg.accessList, msg.to.None?, env.fork);
  }

  // ---------- the exception, at an input ----------

  const HALF256: nat := 0x8000_0000_0000_0000_0000_0000_0000_0000_0000_0000_0000_0000_0000_0000_0000_0000
  const WRAPPING_KEYS: nat := 1699042217315353426

  /** An access list so long that its cost makes the whole cost wrap to zero. */
  ghost function WrappingList(): seq<AccessTuple> {
    [AccessTuple(0, seq(WRAPPING_KEYS, i => 0))]
  }

  /** One unit of gas, offered at half the range of a word. */
  ghost function WrappingTx(): Tx {
    Tx(0, Some(1), Flat(HALF256), 1, 0, 0, [], WrappingList())
  }

  const WRAPPING_ENV := Env(Some(HALF256), 0, Some(1), Schedule(true, true, true))
  const WRAPPING_WORLD := World([HALF256, 0], [0, 0], [false, false], 0, {})

  /** Execution that uses all its gas and changes nothing. */
  function Idle(w: World, gas: nat): Run {
    Run(w, 0, false)
  }

  lemma WrappingCost()
    ensures Cost([], WrappingList(), false, WRAPPING_ENV.fork) == 175 * TWO64
  {
    var list := WrappingList();
    assert list[..0] == [] && KeyCount(list[..0]) == 0;
    assert KeyCount(list) == WRAPPING_KEYS;
  }

  lemma WrappingTotals()
    ensures Total(WRAPPING_WORLD.balances) == HALF256 && Total([HALF256, HALF256]) == 2 * HALF256
  {
    assert [HALF256, 0][..1] == [HALF256] && [HALF256, HALF256][..1] == [HALF256] && [HALF256][..0] == [];
    assert Total([HALF256]) == HALF256;
  }

  lemma WrappingPaid()
    ensures var msg := AsMessage(WrappingTx(), WRAPPING_ENV.baseFee);
      && msg.from == 0 && msg.gas == 1 && msg.gasPrice == 0 && PriceWraps(WRAPPING_ENV, msg)
      && Charged(msg, WRAPPING_WORLD.balances) == WRAPPING_WORLD.balances
      && Paid(WRAPPING_ENV, msg, WRAPPING_WORLD.balances, 1) == [HALF256, HALF256]
  {
    hide WrappingList;
  }

  lemma WrappingAccepted()
    ensures var env, msg, w := WRAPPING_ENV, AsMessage(WrappingTx(), WRAPPING_ENV.baseFee), WRAPPING_WORLD;
      Fitting(w, 2) && InRange(env, msg, 2) && EarlyRefusal(env, msg, w, 1).None? && GasRefusal(env, msg).None?
      && Intrinsic(env, msg) == 0
  {
    WrappingCost();
    hide WrappingList;
  }

  /** A transaction with such a list is accepted with one unit of gas, at a price of zero, and the
      collector is paid a base fee that nobody paid in. */
  lemma ExceptionOccurs()
    ensures
      var env, msg, w := WRAPPING_ENV, AsMessage(WrappingTx(), WRAPPING_ENV.baseFee), WRAPPING_WORLD;
      && Fitting(w, 2) && InRange(env, msg, 2) && Sound(Idle, 2) && EarlyRefusal(env, msg, w, 1).None?
      && PriceWraps(env, msg) && Total(Idle(Started(msg, w), 1).world.balances) == Total(w.balances) == HALF256
      && exists w' :: Done(env, msg, w, Idle, 1, false, w') && w'.balances == [HALF256, HALF256]
                      && Total(w'.balances) == 2 * HALF256
  {
    hide AsMessage, EarlyRefusal, GasRefusal, Intrinsic, Paid, Charged, InRange;
    WrappingPaid();
    WrappingAccepted();
    WrappingTotals();
    var env, msg, w := WRAPPING_ENV, AsMessage(WrappingTx(), WRAPPING_ENV.baseFee), WRAPPING_WORLD;
    var run := Executed(env, msg, w, Idle);
    var w' := Settled(env, msg, run);
    assert Done(env, msg, w, Idle, 1, false, w');
  }

  /** The refund is all that was counted, up to a fifth of the gas used before it, half of it before London. */
  lemma RefundShare(env: Env, msg: Message, run: Run)
    requires run.gas <= msg.gas
    ensures Refund(env, msg, run) * (if env.baseFee.Some? then 5 else 2) <= msg.gas - run.gas
    ensures Used(env, msg, run) + Refund(env, msg, run) == msg.gas - run.gas
    ensures Used(env, msg, run) * 2 >= msg.gas - run.gas
  {
    hide Capped;
  }

  /** No greater refund keeps to that. */
  lemma RefundGreatest(env: Env, msg: Message, run: Run, x: nat)
    requires run.gas <= msg.gas && x <= run.world.refund
    requires x * (if env.baseFee.Some? then 5 else 2) <= msg.gas - run.gas
    ensures x <= Refund(env, msg, run)
  {
    hide Capped;
    assert x * Quotient(env) <= msg.gas - run.gas;
  }

  /** Before any refund, a transaction uses at least its intrinsic gas; execution gets no more than the rest. */
  lemma IntrinsicSpent(env: Env, msg: Message, w: World, evm: Evm, used: nat, failed: bool, n: nat)
    requires Fitting(w, n) && msg.from < n && Sound(evm, n) && Ran(env, msg, w, evm, used, failed)
    ensures used + Refund(env, msg, Executed(env, msg, w, evm)) >= Intrinsic(env, msg)
  {
    hide Cost, BaseCost, Capped;
    ExecutedFits(env, msg, w, evm, n);
  }

  /** Buying gas takes its full price from the sender, and nothing from anyone else. */
  lemma ChargedAt(env: Env, msg: Message, b: seq<nat>, a: nat)
    requires Accepted(env, msg, b) && Words(env, msg) && Built(env, msg) && Balances(b, env, msg) && a < |b|
    ensures Charged(msg, b)[a] == b[a] - If(a == msg.from, msg.gas * msg.gasPrice)
  {
    hide Total, Built, Mul256, Charged;
    ChargedAs(msg, b);
    PriceWithinCap(env, msg);
    MulMono(msg.gasPrice, msg.feeCap, msg.gas);
    assert msg.gas * msg.gasPrice == msg.gasPrice * msg.gas && msg.gas * msg.feeCap == msg.feeCap * msg.gas;
    DebitTotal(b, msg.from, msg.gas * msg.gasPrice);
  }

  lemma InBounds(w: World, n: nat, a: nat)
    requires Fitting(w, n) && a < n
    ensures a < |w.balances| && a < |w.nonces| && a < |w.code| && w.balances[a] < TWO256 && w.nonces[a] < TWO64
  {
  }

  lemma SizeFits(w: World, n: nat)
    requires Fitting(w, n)
    ensures |w.balances| == n
  {
  }

  lemma ChargedAs(msg: Message, b: seq<nat>)
    requires msg.from < |b|
    ensures msg.gas * msg.gasPrice < TWO256 ==> Charged(msg, b) == Debit(b, msg.from, msg.gas * msg.gasPrice)
  {
    hide Debit, Mul256;
    if msg.gas * msg.gasPrice < TWO256 { SmallProduct(msg.gas, msg.gasPrice); }
  }

  // ---------- the code ----------

  /** The gas left in a block. */
  class GasPool {
    var gas: nat

    constructor ()
      ensures gas == 0
    {
      gas := 0;
    }

    /** Panics when the pool would leave 64 bits; that no caller does this is the precondition. */
    method AddGas(amount: nat)
      requires gas + amount < TWO64
      modifies this
      ensures gas == old(gas) + amount
    {
      gas := gas + amount;
    }

    method SubGas(amount: nat) returns (ok: bool)
      modifies this
      ensures ok <==> old(gas) >= amount
      ensures gas == if ok then old(gas) - amount else old(gas)
    {
      if gas < amount { return false; }
      gas := gas - amount;
      return true;
    }
  }

  class IntraBlockState {
    var world: World

    constructor (world: World)
      ensures this.world == world
    {
      this.world := world;
    }

    method AddBalance(a: nat, v: nat)
      requires a < |world.balances|
      modifies this
      ensures world == old(world).(balances := Credit(old(world).balances, a, v))
    {
      world := world.(balances := world.balances[a := (world.balances[a] + v) % TWO256]);
    }

    method SubBalance(a: nat, v: nat)
      requires a < |world.balances|
      modifies this
      ensures world == old(world).(balances := Debit(old(world).balances, a, v))
    {
      world := world.(balances := world.balances[a := (world.balances[a] - v) % TWO256]);
    }

    /** `FinalizeTx`, with `updateAccount` for each account. */
    method FinalizeTx()
      requires |world.balances| == |world.nonces| == |world.code|
      modifies this
      ensures world == Finalized(old(world))
    {
      ghost var w, done := world, Finalized(world);
      var b, n, c := world.balances, world.nonces, world.code;
      for a := 0 to |b|
        invariant |b| == |w.balances| && |n| == |w.nonces| && |c| == |w.code|
        invariant forall i | 0 <= i < a :: b[i] == done.balances[i] && n[i] == done.nonces[i] && c[i] == done.code[i]
        invariant forall i | a <= i < |b| :: b[i] == w.balances[i] && n[i] == w.nonces[i] && c[i] == w.code[i]
      {
        if a in world.destroyed {
          b, n, c := b[a := 0], n[a := 0], c[a := false];
        }
      }
      world := World(b, n, c, 0, {});
    }
  }

  method CapRefund(before: nat, quotient: nat, counter: nat) returns (refund: nat)
    requires quotient > 0
    ensures refund == Capped(before, quotient, counter)
  {
    refund := before / quotient;
    if refund > counter { refund := counter; }
  }

  class StateTransition {
    const gp: GasPool
    const state: IntraBlockState
    const env: Env
    const msg: Message
    var gas: nat
    var initialGas: nat

    constructor (env: Env, msg: Message, gp: GasPool, state: IntraBlockState)
      ensures this.env == env && this.msg == msg && this.gp == gp && this.state == state && gas == 0
    {
      this.env, this.msg, this.gp, this.state, gas, initialGas := env, msg, gp, state, 0, 0;
    }

    ghost predicate Ready(n: nat)
      reads state
    {
      Fitting(state.world, n) && InRange(env, msg, n)
    }

    method BuyGas(ghost n: nat) returns (err: Option<TxError>)
      requires Ready(n) && gas == 0
      modifies this, gp, state
      ensures err == FundsRefusal(msg, old(state.world), old(gp.gas))
      ensures err.None? ==>
        && gas == msg.gas && initialGas == msg.gas && gp.gas == old(gp.gas) - msg.gas
        && state.world == old(state.world).(balances := Charged(msg, old(state.world).balances))
      ensures err.Some? ==> state.world == old(state.world) && gp.gas == old(gp.gas) && gas == old(gas)
    {
      hide Charged, Debit, Fitting;
      InBounds(state.world, n, msg.from);
      ChargedAs(msg, state.world.balances);
      var mgval := msg.gas * msg.gasPrice;
      if mgval >= TWO256 { return Some(InsufficientFunds); }
      var balanceCheck := msg.gas * msg.feeCap;
      if balanceCheck >= TWO256 { return Some(InsufficientFunds); }
      balanceCheck := balanceCheck + msg.value;
      if balanceCheck >= TWO256 { return Some(InsufficientFunds); }
      if state.world.balances[msg.from] < balanceCheck { return Some(InsufficientFunds); }
      var ok := gp.SubGas(msg.gas);
      if !ok { return Some(GasLimitReached); }
      gas := (gas + msg.gas) % TWO64;
      initialGas := msg.gas;
      state.SubBalance(msg.from, mgval);
      return None;
    }

    method PreCheck(ghost n: nat) returns (err: Option<TxError>)
      requires Ready(n) && gas == 0
      modifies this, gp, state
      ensures err == EarlyRefusal(env, msg, old(state.world), old(gp.gas))
      ensures err.None? ==>
        && gas == msg.gas && initialGas == msg.gas && gp.gas == old(gp.gas) - msg.gas
        && state.world == old(state.world).(balances := Charged(msg, old(state.world).balances))
      ensures err.Some? ==> state.world == old(state.world) && gp.gas == old(gp.gas)
    {
      hide FundsRefusal, Charged;
      var nonce := state.world.nonces[msg.from];
      if nonce < msg.nonce {
        return Some(NonceTooHigh);
      } else if nonce > msg.nonce {
        return Some(NonceTooLow);
      } else if (nonce + 1) % TWO64 < nonce {
        return Some(NonceMax);
      }
      if state.world.code[msg.from] { return Some(SenderNoEOA); }
      if env.baseFee.Some? {
        if msg.feeCap < msg.tip { return Some(TipAboveFeeCap); }
        if msg.feeCap < env.baseFee.value { return Some(FeeCapTooLow); }
      }
      err := BuyGas(n);
    }

    method RefundGas(quotient: nat)
      requires quotient > 0 && gas <= initialGas == msg.gas < TWO64 && msg.from < |state.world.balances|
      requires gp.gas + msg.gas < TWO64
      modifies this, gp, state
      ensures
        && gas == old(gas) + Capped(msg.gas - old(gas), quotient, old(state.world).refund)
        && gas <= initialGas && gp.gas == old(gp.gas) + gas
        && state.world == old(state.world).(balances := Credit(old(state.world).balances, msg.from, Mul256(gas, msg.gasPrice)))
      ensures initialGas == old(initialGas)
    {
      hide Credit, Mul256, Capped;
      var refund := CapRefund(initialGas - gas, quotient, state.world.refund);
      gas := gas + refund;
      state.AddBalance(msg.from, Mul256(gas, msg.gasPrice));
      gp.AddGas(gas);
    }

    /** The fees to the producer and to the collector. */
    method PayFees(used: nat)
      requires InRange(env, msg, |state.world.balances|)
      modifies state
      ensures state.world == old(state.world).(balances := Fees.FeesPaid(env, msg, old(state.world).balances, used))
    {
      hide Credit, Mul256;
      var tip := msg.gasPrice;
      if env.baseFee.Some? {
        if msg.feeCap > env.baseFee.value {
          tip := Min256(msg.tip, msg.feeCap - env.baseFee.value);
        } else {
          tip := 0;
        }
      }
      state.AddBalance(env.coinbase, Mul256(used, tip));
      if env.baseFee.Some? && env.collector.Some? {
        state.AddBalance(env.collector.value, Mul256(used, env.baseFee.value));
      }
    }

    /** What comes after execution: the refund, and then the fees on the gas used. */
    method Settle(run: Run, ghost n: nat) returns (used: nat)
      requires Ready(n) && state.world == run.world && gas == run.gas <= initialGas == msg.gas && gp.gas + msg.gas < TWO64
      modifies this, gp, state
      ensures InRange(env, msg, |run.world.balances|) && state.world == Settled(env, msg, run)
      ensures used == Used(env, msg, run) && gp.gas == old(gp.gas) + msg.gas - used && Fitting(state.world, n)
    {
      hide Fitting, Credit, Mul256, FeesPaid, Capped;
      InBounds(run.world, n, msg.from);
      SizeFits(run.world, n);
      CreditFits(run.world, n, msg.from, Mul256(msg.gas - Used(env, msg, run), msg.gasPrice));
      RefundGas(if env.baseFee.Some? then REFUND_QUOTIENT_EIP3529 else REFUND_QUOTIENT);
      used := initialGas - gas;
      FeesFit(state.world, n, env, msg, used);
      SizeFits(state.world, n);
      PayFees(used);
    }

    /** `TransitionDb` with refunds and without bailout. */
    method TransitionDb(evm: Evm, ghost n: nat) returns (r: Result)
      requires Ready(n) && gas == 0 && gp.gas < TWO64 && Sound(evm, n)
      modifies this, gp, state
      ensures r.Err? <==> Or(EarlyRefusal(env, msg, old(state.world), old(gp.gas)), GasRefusal(env, msg)).Some?
      ensures r.Err? ==> Or(EarlyRefusal(env, msg, old(state.world), old(gp.gas)), GasRefusal(env, msg)) == Some(r.error)
      ensures EarlyRefusal(env, msg, old(state.world), old(gp.gas)).Some? ==>
        state.world == old(state.world) && gp.gas == old(gp.gas)
      ensures r.Err? && EarlyRefusal(env, msg, old(state.world), old(gp.gas)).None? ==>
        && state.world == old(state.world).(balances := Charged(msg, old(state.world).balances))
        && gp.gas == old(gp.gas) - msg.gas
      ensures r.Ok? ==> Done(env, msg, old(state.world), evm, r.used, r.failed, state.world)
      ensures r.Ok? ==> gp.gas == old(gp.gas) - r.used && r.used <= msg.gas && Fitting(state.world, n)
    {
      hide Fitting, EarlyRefusal, Charged, Settled, Used, Cost, BaseCost;
      ghost var w0 := state.world;
      InBounds(w0, n, msg.from);
      StartedFits(msg, w0, n);
      var err := PreCheck(n);
      if err.Some? { return Err(err.value); }
      var ok, cost := IntrinsicGas.IntrinsicGas(msg.data, msg.accessList, msg.to.None?, env.fork);
      if !ok { return Err(GasUintOverflow); }
      if gas < cost { return Err(IntrinsicGasTooLow); }
      gas := gas - cost;
      if msg.to.Some? {
        state.world := state.world.(nonces := state.world.nonces[msg.from := (state.world.nonces[msg.from] + 1) % TWO64]);
      }
      assert state.world == Started(msg, w0);
      var run := evm(state.world, gas);
      InBounds(run.world, n, msg.from);
      SizeFits(run.world, n);
      state.world, gas := run.world, run.gas;
      var used := Settle(run, n);
      return Ok(used, run.failed);
    }
  }
}
