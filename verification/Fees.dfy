/** What a transaction pays: the price agreed before execution and the payments after it,
    in wrapping 256-bit arithmetic.
 */
module Fees {
  import opened Common
  import opened Bytes
  import opened Ledger
  import opened IntrinsicGas

  /** The prices of a transaction: one for the older types, two for dynamic-fee ones. */
  datatype Pricing = Flat(price: nat) | Dynamic(tip: nat, cap: nat)

  datatype Tx = Tx(from: nat, to: Option<nat>, pricing: Pricing, gas: nat, value: nat, nonce: nat,
                   data: seq<byte>, accessList: seq<AccessTuple>)

  datatype Message = Message(from: nat, to: Option<nat>, gasPrice: nat, feeCap: nat, tip: nat, gas: nat, value: nat,
                             nonce: nat, data: seq<byte>, accessList: seq<AccessTuple>)

  /** The block: the base fee is absent before London, the collector is optional after it. */
  datatype Env = Env(baseFee: Option<nat>, coinbase: nat, collector: Option<nat>, fork: Schedule)

  function TipOf(p: Pricing): nat {
    match p case Flat(price) => price case Dynamic(tip, _) => tip
  }

  function CapOf(p: Pricing): nat {
    match p case Flat(price) => price case Dynamic(_, cap) => cap
  }

  function Add256(a: nat, b: nat): nat { (a + b) % TWO256 }

  function Mul256(a: nat, b: nat): nat { a * b % TWO256 }

  function Min256(a: nat, b: nat): nat { if a > b then b else a }

  function AsMessage(tx: Tx, baseFee: Option<nat>): Message {
    var tip, cap := TipOf(tx.pricing), CapOf(tx.pricing);
    var price := if baseFee.None? then cap
                 else if Add256(tip, baseFee.value) > cap then cap else Add256(tip, baseFee.value);
    Message(tx.from, tx.to, price, cap, tip, tx.gas, tx.value, tx.nonce, tx.data, tx.accessList)
  }

  /** A message says what its transaction says; without a base fee the price is the cap. */
  lemma MessageCarries(tx: Tx, baseFee: Option<nat>)
    ensures var m := AsMessage(tx, baseFee);
      && m.from == tx.from && m.to == tx.to && m.gas == tx.gas && m.value == tx.value && m.nonce == tx.nonce
      && m.data == tx.data && m.accessList == tx.accessList && m.gasPrice <= m.feeCap
      && (baseFee.None? ==> m.gasPrice == m.feeCap)
      && (match tx.pricing
          case Flat(price) => m.tip == m.feeCap == price
          case Dynamic(tip, cap) => m.tip == tip && m.feeCap == cap)
  {
  }

  /** What the block producer gets per unit of gas. */
  function EffectiveTip(env: Env, msg: Message): nat {
    match env.baseFee
    case None => msg.gasPrice
    case Some(base) => if msg.feeCap > base then Min256(msg.tip, msg.feeCap - base) else 0
  }

  /** The balances after the unused gas is paid back and the fees are paid out. */
  function Paid(env: Env, msg: Message, b: seq<nat>, used: nat): (r: seq<nat>)
    requires msg.from < |b| && env.coinbase < |b| && (env.collector.Some? ==> env.collector.value < |b|) && used <= msg.gas
    ensures |r| == |b|
  {
    FeesPaid(env, msg, Credit(b, msg.from, Mul256(msg.gas - used, msg.gasPrice)), used)
  }

  /** The balances after the producer and the collector got their parts. */
  function FeesPaid(env: Env, msg: Message, b: seq<nat>, used: nat): (r: seq<nat>)
    requires env.coinbase < |b| && (env.collector.Some? ==> env.collector.value < |b|)
    ensures |r| == |b|
  {
    var tipped := Credit(b, env.coinbase, Mul256(used, EffectiveTip(env, msg)));
    if env.baseFee.Some? && env.collector.Some?
    then Credit(tipped, env.collector.value, Mul256(used, env.baseFee.value)) else tipped
  }

  // ---------- what is accepted ----------

  /** The sender can pay, and the caps are in order. */
  ghost predicate Accepted(env: Env, msg: Message, b: seq<nat>) {
    && msg.from < |b| && msg.gas * msg.gasPrice < TWO256
    && msg.gas * msg.feeCap + msg.value < TWO256 && msg.gas * msg.feeCap + msg.value <= b[msg.from]
    && (env.baseFee.Some? ==> msg.tip <= msg.feeCap && env.baseFee.value <= msg.feeCap)
  }

  ghost predicate Words(env: Env, msg: Message) {
    && msg.tip < TWO256 && msg.feeCap < TWO256 && msg.gas < TWO64 && msg.value < TWO256
    && (env.baseFee.Some? ==> env.baseFee.value < TWO256)
  }

  /** The message was built from a transaction of this block. */
  ghost predicate Built(env: Env, msg: Message) {
    exists tx :: msg == AsMessage(tx, env.baseFee)
  }

  /** Adding tip and base fee leaves 256 bits. */
  ghost predicate PriceWraps(env: Env, msg: Message) {
    env.baseFee.Some? && msg.tip + env.baseFee.value >= TWO256
  }

  /** The part of the fee that goes to nobody. */
  ghost function Burned(env: Env, used: nat): nat {
    if env.baseFee.Some? && env.collector.None? then used * env.baseFee.value else 0
  }

  /** The part of the fee that goes to the collector. */
  ghost function Collected(env: Env, used: nat): nat {
    if env.baseFee.Some? && env.collector.Some? then used * env.baseFee.value else 0
  }

  // ---------- the laws ----------

  /** Two units of gas are enough for the price not to wrap. */
  lemma PriceFits(env: Env, msg: Message, b: seq<nat>)
    requires Accepted(env, msg, b) && msg.gas >= 2
    ensures !PriceWraps(env, msg)
  {
    MulMono(2, msg.gas, msg.feeCap);
  }

  /** The price is what the producer gets and what is taken out of circulation. */
  lemma PriceSplits(env: Env, msg: Message, b: seq<nat>)
    requires Accepted(env, msg, b) && Words(env, msg) && Built(env, msg) && !PriceWraps(env, msg)
    ensures msg.gasPrice == EffectiveTip(env, msg) + if env.baseFee.Some? then env.baseFee.value else 0
    ensures msg.gasPrice <= msg.feeCap
  {
    if env.baseFee.Some? { TurnOnce(msg.tip + env.baseFee.value, TWO256); }
  }

  lemma Distribute(g: nat, used: nat, tip: nat, base: nat)
    requires used <= g
    ensures (g - used) * (tip + base) + used * tip + used * base == g * (tip + base)
  {
    assert (g - used) * (tip + base) == g * (tip + base) - used * (tip + base);
  }

  /** What is paid out after execution is what was paid in before, except for what is burned. */
  lemma PaymentsAddUp(env: Env, msg: Message, b: seq<nat>, used: nat)
    requires Accepted(env, msg, b) && Words(env, msg) && Built(env, msg) && !PriceWraps(env, msg) && used <= msg.gas
    ensures (msg.gas - used) * msg.gasPrice + used * EffectiveTip(env, msg) + Collected(env, used) + Burned(env, used)
            == msg.gas * msg.gasPrice
  {
    PriceSplits(env, msg, b);
    Distribute(msg.gas, used, EffectiveTip(env, msg), if env.baseFee.Some? then env.baseFee.value else 0);
  }

  lemma SmallProduct(a: nat, b: nat)
    requires a * b < TWO256
    ensures Mul256(a, b) == a * b
  {
    TurnOnce(a * b, TWO256);
  }

  lemma TwoCredits(b: seq<nat>, x: nat, v: nat, y: nat, w: nat)
    requires x < |b| && y < |b| && Total(b) + v + w < TWO256
    ensures Total(Credit(Credit(b, x, v), y, w)) == Total(b) + v + w
  {
    hide Total, Credit;
    CreditTotal(b, x, v);
    CreditTotal(Credit(b, x, v), y, w);
  }

  /** Credits that fit add up. */
  lemma PaidTotal(env: Env, msg: Message, b: seq<nat>, used: nat)
    requires msg.from < |b| && env.coinbase < |b| && (env.collector.Some? ==> env.collector.value < |b|) && used <= msg.gas
    requires Total(b) + (msg.gas - used) * msg.gasPrice + used * EffectiveTip(env, msg) + Collected(env, used) < TWO256
    ensures Total(Paid(env, msg, b, used)) ==
            Total(b) + (msg.gas - used) * msg.gasPrice + used * EffectiveTip(env, msg) + Collected(env, used)
  {
    hide Total, Credit, EffectiveTip, Mul256;
    var back, tip := Mul256(msg.gas - used, msg.gasPrice), Mul256(used, EffectiveTip(env, msg));
    SmallProduct(msg.gas - used, msg.gasPrice);
    SmallProduct(used, EffectiveTip(env, msg));
    TwoCredits(b, msg.from, back, env.coinbase, tip);
    if env.baseFee.Some? && env.collector.Some? {
      SmallProduct(used, env.baseFee.value);
      CreditTotal(Credit(Credit(b, msg.from, back), env.coinbase, tip), env.collector.value, Mul256(used, env.baseFee.value));
    }
  }

  /** The price is the tip on top of the base fee, but at most the cap; the producer gets no more
      than the tip offered. */
  lemma PriceIsEffective(env: Env, msg: Message, b: seq<nat>)
    requires Accepted(env, msg, b) && Words(env, msg) && Built(env, msg) && !PriceWraps(env, msg) && env.baseFee.Some?
    ensures msg.gasPrice == Min256(msg.tip + env.baseFee.value, msg.feeCap)
    ensures EffectiveTip(env, msg) == Min256(msg.tip, msg.feeCap - env.baseFee.value)
  {
    TurnOnce(msg.tip + env.baseFee.value, TWO256);
  }

  function If(c: bool, v: int): int {
    if c then v else 0
  }

  /** Who gets what: every account, whichever of the three roles it has. */
  lemma Payouts(env: Env, msg: Message, b: seq<nat>, used: nat, a: nat)
    requires msg.from < |b| && env.coinbase < |b| && (env.collector.Some? ==> env.collector.value < |b|) && used <= msg.gas
    requires Total(b) + (msg.gas - used) * msg.gasPrice + used * EffectiveTip(env, msg) + Collected(env, used) < TWO256
    requires a < |b|
    ensures Paid(env, msg, b, used)[a] == b[a]
              + If(a == msg.from, (msg.gas - used) * msg.gasPrice)
              + If(a == env.coinbase, used * EffectiveTip(env, msg))
              + If(env.collector == Some(a), Collected(env, used))
  {
    hide Total, Credit, EffectiveTip, Mul256;
    var back, tip := Mul256(msg.gas - used, msg.gasPrice), Mul256(used, EffectiveTip(env, msg));
    SmallProduct(msg.gas - used, msg.gasPrice);
    SmallProduct(used, EffectiveTip(env, msg));
    var returned := Credit(b, msg.from, back);
    var tipped := Credit(returned, env.coinbase, tip);
    CreditAt(b, msg.from, back, a);
    CreditAt(returned, env.coinbase, tip, a);
    if env.baseFee.Some? && env.collector.Some? {
      SmallProduct(used, env.baseFee.value);
      CreditAt(tipped, env.collector.value, Mul256(used, env.baseFee.value), a);
    }
  }

  lemma CreditAt(b: seq<nat>, x: nat, v: nat, a: nat)
    requires x < |b| && a < |b| && Total(b) + v < TWO256
    ensures Credit(b, x, v)[a] == b[a] + If(a == x, v) && Total(Credit(b, x, v)) == Total(b) + v
  {
    hide Total;
    CreditTotal(b, x, v);
  }

  ghost predicate Balances(b: seq<nat>, env: Env, msg: Message) {
    && (forall a | 0 <= a < |b| :: b[a] < TWO256)
    && msg.from < |b| && env.coinbase < |b| && (env.collector.Some? ==> env.collector.value < |b|)
  }

  /** The balances when execution starts: all the gas is paid for. */
  function Charged(msg: Message, b: seq<nat>): (r: seq<nat>)
    requires msg.from < |b|
    ensures |r| == |b|
  {
    Debit(b, msg.from, Mul256(msg.gas, msg.gasPrice))
  }

  lemma PriceWithinCap(env: Env, msg: Message)
    requires Words(env, msg) && Built(env, msg)
    ensures msg.gasPrice <= msg.feeCap
  {
  }

  lemma ChargedTotal(env: Env, msg: Message, b: seq<nat>)
    requires Accepted(env, msg, b) && Words(env, msg) && Built(env, msg) && Balances(b, env, msg)
    ensures Total(Charged(msg, b)) == Total(b) - msg.gas * msg.gasPrice && Charged(msg, b)[msg.from] >= msg.value
  {
    hide Total, Debit, Built, Mul256;
    PriceWithinCap(env, msg);
    SmallProduct(msg.gas, msg.gasPrice);
    MulMono(msg.gasPrice, msg.feeCap, msg.gas);
    assert msg.gas * msg.gasPrice == msg.gasPrice * msg.gas && msg.gas * msg.feeCap == msg.feeCap * msg.gas;
    DebitTotal(b, msg.from, msg.gas * msg.gasPrice);
  }

  /** With a price that wrapped, one unit of gas pays the producer what nobody paid in. */
  lemma WrappedPriceFails(env: Env, msg: Message, b0: seq<nat>, b1: seq<nat>)
    requires Accepted(env, msg, b0) && Words(env, msg) && Built(env, msg) && PriceWraps(env, msg) && msg.gas == 1
    requires Balances(b1, env, msg)
    ensures Total(Paid(env, msg, b1, 1)) != Total(b1) + msg.gasPrice - Burned(env, 1)
  {
    hide Total, Credit;
    var tip := EffectiveTip(env, msg);
    assert tip == msg.feeCap - env.baseFee.value;
    assert msg.gasPrice == msg.tip + env.baseFee.value - TWO256;
    var returned := Credit(b1, msg.from, 0);
    CreditWords(b1, msg.from, 0);
    CreditTurns(returned, env.coinbase, tip);
    CreditWords(returned, env.coinbase, tip);
    var tipped := Credit(returned, env.coinbase, tip);
    CreditZero(b1, msg.from);
    if env.collector.Some? {
      CreditTurns(tipped, env.collector.value, env.baseFee.value);
    }
  }

  lemma CreditZero(b: seq<nat>, a: nat)
    requires a < |b| && b[a] < TWO256
    ensures Credit(b, a, 0) == b
  {
  }

  lemma CreditWords(b: seq<nat>, a: nat, v: nat)
    requires a < |b| && forall k | 0 <= k < |b| :: b[k] < TWO256
    ensures forall k | 0 <= k < |b| :: Credit(b, a, v)[k] < TWO256
  {
  }

  /** Fees are conserved: the supply changes by what execution itself changes, less the burned
      base fee.  This holds exactly unless one unit of gas is bought, used, and priced by a sum
      that left 256 bits. */
  lemma FeesConserved(env: Env, msg: Message, b0: seq<nat>, b1: seq<nat>, used: nat)
    requires Accepted(env, msg, b0) && Words(env, msg) && Built(env, msg)
    requires Balances(b0, env, msg) && Balances(b1, env, msg) && |b1| == |b0| && used <= msg.gas
    requires Total(b0) + Total(b1) - Total(Charged(msg, b0)) < TWO256
    ensures Total(Paid(env, msg, b1, used)) == Total(b0) + Total(b1) - Total(Charged(msg, b0)) - Burned(env, used)
            <==> !(msg.gas == 1 && used == 1 && PriceWraps(env, msg))
  {
    hide Total, Paid, EffectiveTip, Charged;
    ChargedTotal(env, msg, b0);
    if !PriceWraps(env, msg) {
      PaymentsAddUp(env, msg, b0, used);
      PaidTotal(env, msg, b1, used);
    } else if used == 0 {
      assert used * EffectiveTip(env, msg) == 0 && Collected(env, used) == 0;
      PaidTotal(env, msg, b1, used);
    } else {
      if msg.gas >= 2 { PriceFits(env, msg, b0); }
      WrappedPriceFails(env, msg, b0, b1);
    }
  }
}
