/** Processing a block: its transactions in turn, on one gas pool and one gas counter. */
module StateProcessorModel {
  import opened Common
  import opened Ledger
  import opened IntrinsicGas
  import opened Fees
  import opened StateTransitionModel

  datatype Block = Block(env: Env, gasLimit: nat, gasUsed: nat, txs: seq<Tx>)

  datatype Receipt = Receipt(gasUsed: nat, cumulative: nat, failed: bool)

  datatype Outcome =
    | Processed(receipts: seq<Receipt>, used: nat)
    | TxRefused(index: nat, error: TxError)
    | GasMismatch(used: nat)

  function MessageOf(b: Block, i: nat): Message
    requires i < |b.txs|
  {
    AsMessage(b.txs[i], b.env.baseFee)
  }

  ghost function SumGas(receipts: seq<Receipt>): nat {
    if receipts == [] then 0 else SumGas(receipts[..|receipts| - 1]) + receipts[|receipts| - 1].gasUsed
  }

  /** Each receipt carries the gas used by the block up to its transaction. */
  ghost predicate Cumulative(receipts: seq<Receipt>) {
    forall i | 0 <= i < |receipts| :: receipts[i].cumulative == SumGas(receipts[..i + 1])
  }

  ghost predicate Acceptable(b: Block, evm: nat -> Evm, n: nat) {
    && b.gasLimit < TWO64
    && forall i | 0 <= i < |b.txs| :: InRange(b.env, MessageOf(b, i), n) && Sound(evm(i), n)
  }

  /** Transaction `i` was applied to `w` with the rest of the block's gas, and `w'` is what is left
      once the accounts that it destroyed are removed. */
  ghost predicate Applied(b: Block, evm: nat -> Evm, i: nat, w: World, before: nat, r: Receipt, w': World) {
    && i < |b.txs| && before <= b.gasLimit
    && (var msg := MessageOf(b, i);
        && msg.from < |w.balances| && msg.from < |w.nonces| && msg.from < |w.code|
        && EarlyRefusal(b.env, msg, w, b.gasLimit - before).None?
        && Ran(b.env, msg, w, evm(i), r.gasUsed, r.failed)
        && w' == Finalized(Settled(b.env, msg, Executed(b.env, msg, w, evm(i)))))
  }

  /** The states that the transactions went through. */
  ghost predicate Trace(b: Block, evm: nat -> Evm, worlds: seq<World>, receipts: seq<Receipt>, n: nat) {
    && |worlds| == |receipts| + 1 && |receipts| <= |b.txs|
    && (forall i | 0 <= i < |worlds| :: Fitting(worlds[i], n))
    && forall i | 0 <= i < |receipts| :: Applied(b, evm, i, worlds[i], SumGas(receipts[..i]), receipts[i], worlds[i + 1])
  }

  lemma TraceStart(b: Block, evm: nat -> Evm, w: World, n: nat)
    requires Fitting(w, n)
    ensures Trace(b, evm, [w], [], n) && Cumulative([])
  {
  }

  lemma SumStep(receipts: seq<Receipt>, r: Receipt)
    requires Cumulative(receipts) && r.cumulative == SumGas(receipts) + r.gasUsed
    ensures SumGas(receipts + [r]) == SumGas(receipts) + r.gasUsed && Cumulative(receipts + [r])
  {
    hide SumGas;
    var rs := receipts + [r];
    SumLast(receipts, r);
    forall i | 0 <= i < |rs| ensures rs[i].cumulative == SumGas(rs[..i + 1]) {
      if i < |receipts| { assert rs[..i + 1] == receipts[..i + 1]; } else { assert rs[..i + 1] == rs; }
    }
  }

  lemma SumLast(receipts: seq<Receipt>, r: Receipt)
    ensures SumGas(receipts + [r]) == SumGas(receipts) + r.gasUsed
  {
    var rs := receipts + [r];
    assert rs[..|rs| - 1] == receipts;
  }

  lemma TraceStep(b: Block, evm: nat -> Evm, worlds: seq<World>, receipts: seq<Receipt>, n: nat, w: World, r: Receipt)
    requires Trace(b, evm, worlds, receipts, n) && |receipts| < |b.txs| && Fitting(w, n)
    requires Applied(b, evm, |receipts|, worlds[|receipts|], SumGas(receipts), r, w)
    ensures Trace(b, evm, worlds + [w], receipts + [r], n)
  {
    hide Applied, Fitting, SumGas;
    var rs, ws := receipts + [r], worlds + [w];
    forall i | 0 <= i < |rs| ensures Applied(b, evm, i, ws[i], SumGas(rs[..i]), rs[i], ws[i + 1]) {
      if i < |receipts| { assert rs[..i] == receipts[..i]; } else { assert rs[..i] == receipts; }
    }
  }

  lemma SameLengths(w: World, n: nat)
    requires Fitting(w, n)
    ensures |w.balances| == |w.nonces| == |w.code|
  {
  }

  /** `applyTransaction`: the message, and then the removal of the accounts that it destroyed. */
  method ApplyTransaction(b: Block, i: nat, evm: Evm, gp: GasPool, state: IntraBlockState, used: nat, ghost n: nat)
    returns (r: Result, receipt: Receipt, used': nat)
    requires i < |b.txs| && InRange(b.env, MessageOf(b, i), n) && Sound(evm, n) && Fitting(state.world, n)
    requires gp.gas + used == b.gasLimit < TWO64
    modifies gp, state
    ensures r.Err? ==>
      Or(EarlyRefusal(b.env, MessageOf(b, i), old(state.world), old(gp.gas)), GasRefusal(b.env, MessageOf(b, i))) == Some(r.error)
    ensures r.Ok? ==>
      && EarlyRefusal(b.env, MessageOf(b, i), old(state.world), old(gp.gas)).None?
      && Ran(b.env, MessageOf(b, i), old(state.world), evm, r.used, r.failed)
      && state.world == Finalized(Settled(b.env, MessageOf(b, i), Executed(b.env, MessageOf(b, i), old(state.world), evm)))
      && Fitting(state.world, n) && receipt == Receipt(r.used, used', r.failed)
      && used' == used + r.used && gp.gas + used' == b.gasLimit
  {
    hide Fitting, InRange, Sound, EarlyRefusal, GasRefusal, Ran, Settled, Executed, Finalized;
    var st := new StateTransition(b.env, MessageOf(b, i), gp, state);
    r := st.TransitionDb(evm, n);
    receipt, used' := Receipt(0, 0, false), used;
    if r.Ok? {
      FinalizedFits(state.world, n);
      SameLengths(state.world, n);
      state.FinalizeTx();
      used' := (used + r.used) % TWO64;
      receipt := Receipt(r.used, used', r.failed);
    }
  }

  /** Any refused transaction refuses the block; otherwise the pool and the counter together are
      the block's gas limit throughout, and neither leaves 64 bits. */
  method Process(b: Block, evm: nat -> Evm, state: IntraBlockState, ghost n: nat)
    returns (o: Outcome, ghost worlds: seq<World>, ghost receipts: seq<Receipt>)
    requires Acceptable(b, evm, n) && Fitting(state.world, n)
    modifies state
    ensures Trace(b, evm, worlds, receipts, n) && worlds[0] == old(state.world)
    ensures Cumulative(receipts) && SumGas(receipts) <= b.gasLimit
    ensures o.Processed? ==> o.receipts == receipts && o.used == SumGas(receipts) == b.gasUsed
    ensures o.Processed? ==> |receipts| == |b.txs| && state.world == worlds[|receipts|]
    ensures o.TxRefused? ==> o.index == |receipts| < |b.txs| && Refused(b, o.index, worlds[o.index], SumGas(receipts), o.error)
    ensures o.GasMismatch? ==> |receipts| == |b.txs| && o.used == SumGas(receipts) != b.gasUsed
  {
    hide Fitting, InRange, Sound, EarlyRefusal, GasRefusal, Ran, Settled, Executed, Finalized, Trace, Cumulative;
    var gp := new GasPool();
    gp.AddGas(b.gasLimit);
    var used, out := 0, [];
    worlds := [state.world];
    TraceStart(b, evm, state.world, n);
    for i := 0 to |b.txs|
      invariant Fitting(state.world, n) && Trace(b, evm, worlds, out, n) && Cumulative(out)
      invariant |out| == i && |worlds| == i + 1 && worlds[0] == old(state.world) && worlds[i] == state.world
      invariant used == SumGas(out) && gp.gas + used == b.gasLimit
    {
      var w := state.world;
      InBounds(w, n, MessageOf(b, i).from) by { Sender(b.env, MessageOf(b, i), n); }
      var r, receipt, used' := ApplyTransaction(b, i, evm(i), gp, state, used, n);
      if r.Err? { return TxRefused(i, r.error), worlds, out; }
      assert Applied(b, evm, i, w, used, receipt, state.world);
      TraceStep(b, evm, worlds, out, n, state.world, receipt);
      SumStep(out, receipt);
      worlds := worlds + [state.world];
      out := out + [receipt];
      used := used';
    }
    receipts := out;
    if used != b.gasUsed { return GasMismatch(used), worlds, receipts; }
    return Processed(out, used), worlds, receipts;
  }

  lemma Sender(env: Env, msg: Message, n: nat)
    requires InRange(env, msg, n)
    ensures msg.from < n
  {
  }

  ghost predicate Refused(b: Block, i: nat, w: World, before: nat, e: TxError) {
    && i < |b.txs| && before <= b.gasLimit
    && (var msg := MessageOf(b, i);
        && msg.from < |w.balances| && msg.from < |w.nonces| && msg.from < |w.code|
        && Or(EarlyRefusal(b.env, msg, w, b.gasLimit - before), GasRefusal(b.env, msg)) == Some(e))
  }

  // ---------- the supply over a block ----------

  /** Execution may destroy supply, but never creates any. */
  ghost predicate NeverMints(evm: nat -> Evm, n: nat) {
    forall i, w, g :: Fitting(w, n) ==> Total(evm(i)(w, g).world.balances) <= Total(w.balances)
  }

  /** No access list is so long that its cost leaves 64 bits. */
  ghost predicate Ordinary(b: Block) {
    forall i | 0 <= i < |b.txs| :: Cost(b.txs[i].data, b.txs[i].accessList, b.txs[i].to.None?, b.env.fork) < TWO64
  }

  /** What execution adds to the supply in the first `k` transactions. */
  ghost function Deltas(b: Block, evm: nat -> Evm, worlds: seq<World>, receipts: seq<Receipt>, n: nat, k: nat): int
    requires Trace(b, evm, worlds, receipts, n) && k <= |receipts|
  {
    if k == 0 then 0 else
      assert Applied(b, evm, k - 1, worlds[k - 1], SumGas(receipts[..k - 1]), receipts[k - 1], worlds[k]);
      Deltas(b, evm, worlds, receipts, n, k - 1)
      + Delta(MessageOf(b, k - 1), worlds[k - 1], Executed(b.env, MessageOf(b, k - 1), worlds[k - 1], evm(k - 1)))
  }

  /** The accounts of transaction `i` when all is paid, before any is removed. */
  ghost function SettledAt(b: Block, evm: nat -> Evm, i: nat, w: World): World
    requires i < |b.txs| && exists used, failed :: Ran(b.env, MessageOf(b, i), w, evm(i), used, failed)
  {
    Settled(b.env, MessageOf(b, i), Executed(b.env, MessageOf(b, i), w, evm(i)))
  }

  /** What the destroyed accounts of transaction `i` hold by then, which goes with them. */
  ghost function Loss(b: Block, evm: nat -> Evm, i: nat, w: World): nat
    requires i < |b.txs| && exists used, failed :: Ran(b.env, MessageOf(b, i), w, evm(i), used, failed)
  {
    HeldBy(SettledAt(b, evm, i, w).balances, SettledAt(b, evm, i, w).destroyed)
  }

  lemma RanAt(b: Block, evm: nat -> Evm, worlds: seq<World>, receipts: seq<Receipt>, n: nat, i: nat)
    requires Trace(b, evm, worlds, receipts, n) && i < |receipts|
    ensures i < |b.txs| && i < |worlds|
    ensures Ran(b.env, MessageOf(b, i), worlds[i], evm(i), receipts[i].gasUsed, receipts[i].failed)
  {
    hide Ran, Fitting, EarlyRefusal;
    assert Applied(b, evm, i, worlds[i], SumGas(receipts[..i]), receipts[i], worlds[i + 1]);
  }

  /** What was destroyed in the first `k` transactions. */
  ghost function Losses(b: Block, evm: nat -> Evm, worlds: seq<World>, receipts: seq<Receipt>, n: nat, k: nat): nat
    requires Trace(b, evm, worlds, receipts, n) && k <= |receipts|
  {
    if k == 0 then 0 else
      RanAt(b, evm, worlds, receipts, n, k - 1);
      Losses(b, evm, worlds, receipts, n, k - 1) + Loss(b, evm, k - 1, worlds[k - 1])
  }

  lemma BurnedSum(env: Env, x: nat, y: nat)
    ensures Burned(env, x + y) == Burned(env, x) + Burned(env, y)
  {
  }

  /** No account that the transaction destroys has anything when execution ends, and none is paid
      anything afterwards: neither as its sender, nor as the producer, nor as the collector. */
  ghost predicate Spares(env: Env, msg: Message, run: Run, used: nat) {
    forall a | a in run.world.destroyed && a < |run.world.balances| ::
      && run.world.balances[a] == 0
      && (a == msg.from ==> (msg.gas - used) * msg.gasPrice == 0)
      && (a == env.coinbase ==> used * EffectiveTip(env, msg) == 0)
      && (env.collector == Some(a) ==> Collected(env, used) == 0)
  }

  ghost predicate SparesAt(b: Block, evm: nat -> Evm, worlds: seq<World>, receipts: seq<Receipt>, i: nat) {
    && i < |b.txs| && i < |worlds| && i < |receipts|
    && Ran(b.env, MessageOf(b, i), worlds[i], evm(i), receipts[i].gasUsed, receipts[i].failed)
    && Spares(b.env, MessageOf(b, i), Executed(b.env, MessageOf(b, i), worlds[i], evm(i)), receipts[i].gasUsed)
  }

  /** The payments after execution fit, because they were paid in before. */
  lemma PaymentsFit(b: Block, evm: nat -> Evm, i: nat, w: World, before: nat, r: Receipt, w': World, n: nat)
    requires Acceptable(b, evm, n) && Ordinary(b) && NeverMints(evm, n) && Fitting(w, n) && Total(w.balances) < TWO256
    requires Applied(b, evm, i, w, before, r, w')
    ensures var msg := MessageOf(b, i);
      Total(Executed(b.env, msg, w, evm(i)).world.balances) + (msg.gas - r.gasUsed) * msg.gasPrice
        + r.gasUsed * EffectiveTip(b.env, msg) + Collected(b.env, r.gasUsed) < TWO256
  {
    hide Total, Settled, Fitting, EarlyRefusal, Cost, Burned, Collected, EffectiveTip, Charged, Finalized;
    var msg := MessageOf(b, i);
    assert InRange(b.env, msg, n) && Sound(evm(i), n) && Built(b.env, msg);
    EnoughGas(b.env, msg);
    EarlyMeansAccepted(b.env, msg, w, b.gasLimit - before);
    StartedFits(msg, w, n);
    StartedBalances(b.env, msg, w, n);
    PriceFits(b.env, msg, w.balances);
    PaymentsAddUp(b.env, msg, w.balances, r.gasUsed);
    ChargedTotal(b.env, msg, w.balances);
  }

  lemma StartedBalances(env: Env, msg: Message, w: World, n: nat)
    requires Fitting(w, n) && InRange(env, msg, n)
    ensures Balances(w.balances, env, msg) && Started(msg, w).balances == Charged(msg, w.balances)
  {
    hide Charged;
  }

  /** What account `a` is paid after execution, and when that is nothing. */
  lemma PaidNothing(env: Env, msg: Message, b: seq<nat>, used: nat, a: nat)
    requires msg.from < |b| && env.coinbase < |b| && (env.collector.Some? ==> env.collector.value < |b|) && used <= msg.gas
    requires Total(b) + (msg.gas - used) * msg.gasPrice + used * EffectiveTip(env, msg) + Collected(env, used) < TWO256
    requires a < |b|
    ensures Paid(env, msg, b, used)[a] == 0 <==>
      && b[a] == 0
      && (a == msg.from ==> (msg.gas - used) * msg.gasPrice == 0)
      && (a == env.coinbase ==> used * EffectiveTip(env, msg) == 0)
      && (env.collector == Some(a) ==> Collected(env, used) == 0)
  {
    hide Total, Paid, EffectiveTip, Collected;
    Payouts(env, msg, b, used, a);
    var back: nat, tip: nat := (msg.gas - used) * msg.gasPrice, used * EffectiveTip(env, msg);
    assert Paid(env, msg, b, used)[a] ==
           b[a] + If(a == msg.from, back) + If(a == env.coinbase, tip) + If(env.collector == Some(a), Collected(env, used));
  }

  /** The destroyed accounts hold nothing when all is paid exactly when they are spared. */
  lemma SparedHoldNothing(env: Env, msg: Message, run: Run, used: nat)
    requires run.gas <= msg.gas && InRange(env, msg, |run.world.balances|) && used == Used(env, msg, run)
    requires Total(run.world.balances) + (msg.gas - used) * msg.gasPrice + used * EffectiveTip(env, msg)
             + Collected(env, used) < TWO256
    ensures HeldBy(Settled(env, msg, run).balances, run.world.destroyed) == 0 <==> Spares(env, msg, run, used)
  {
    hide Total, HeldBy, Paid, EffectiveTip, Collected, Used;
    var bal := run.world.balances;
    HeldByNothing(Paid(env, msg, bal, used), run.world.destroyed);
    forall a | a in run.world.destroyed && a < |bal|
      ensures Paid(env, msg, bal, used)[a] == 0 <==>
        && bal[a] == 0
        && (a == msg.from ==> (msg.gas - used) * msg.gasPrice == 0)
        && (a == env.coinbase ==> used * EffectiveTip(env, msg) == 0)
        && (env.collector == Some(a) ==> Collected(env, used) == 0)
    {
      PaidNothing(env, msg, bal, used, a);
    }
  }

  /** A transaction destroys no value exactly when it spares what it removes. */
  lemma NoLoss(b: Block, evm: nat -> Evm, i: nat, w: World, before: nat, r: Receipt, w': World, n: nat)
    requires Acceptable(b, evm, n) && Ordinary(b) && NeverMints(evm, n) && Fitting(w, n) && Total(w.balances) < TWO256
    requires Applied(b, evm, i, w, before, r, w')
    ensures Loss(b, evm, i, w) == 0 <==> Spares(b.env, MessageOf(b, i), Executed(b.env, MessageOf(b, i), w, evm(i)), r.gasUsed)
  {
    hide Total, HeldBy, Fitting, EarlyRefusal, Paid, EffectiveTip, Collected, Finalized, Acceptable, Executed, InRange, Used,
         Spares, Ordinary, NeverMints, AsMessage;
    PaymentsFit(b, evm, i, w, before, r, w', n);
    SparedHoldNothing(b.env, MessageOf(b, i), Executed(b.env, MessageOf(b, i), w, evm(i)), r.gasUsed);
  }

  /** One transaction of the block. */
  lemma StepSupply(b: Block, evm: nat -> Evm, i: nat, w: World, before: nat, r: Receipt, w': World, n: nat)
    requires Acceptable(b, evm, n) && Ordinary(b) && NeverMints(evm, n) && Fitting(w, n) && Total(w.balances) < TWO256
    requires Applied(b, evm, i, w, before, r, w')
    ensures Total(w'.balances) == Total(w.balances)
              + Delta(MessageOf(b, i), w, Executed(b.env, MessageOf(b, i), w, evm(i))) - Burned(b.env, r.gasUsed)
              - Loss(b, evm, i, w)
    ensures Total(w'.balances) <= Total(w.balances)
  {
    hide Total, HeldBy, Settled, Used, Charged, Fitting, InRange, EarlyRefusal, Cost, Burned;
    var msg := MessageOf(b, i);
    assert Cost(b.txs[i].data, b.txs[i].accessList, b.txs[i].to.None?, b.env.fork) < TWO64;
    assert InRange(b.env, msg, n) && Sound(evm(i), n);
    EnoughGas(b.env, msg);
    StartedFits(msg, w, n) by { Sender(b.env, msg, n); }
    assert Built(b.env, msg);
    var settled := SettledAt(b, evm, i, w);
    SupplyLaw(b.env, msg, w, b.gasLimit - before, evm(i), r.gasUsed, r.failed, settled, n);
    ClearedTotal(settled.balances, settled.destroyed);
  }

  /** Over a whole block the supply changes by what execution changes, less the base fee on
      all the gas used when there is no collector, and less what is destroyed with accounts. */
  lemma {:induction false} BlockSupply(b: Block, evm: nat -> Evm, worlds: seq<World>, receipts: seq<Receipt>, n: nat, k: nat)
    requires Acceptable(b, evm, n) && Trace(b, evm, worlds, receipts, n) && Ordinary(b) && NeverMints(evm, n)
    requires Total(worlds[0].balances) < TWO256 && k <= |receipts|
    ensures Total(worlds[k].balances) == Total(worlds[0].balances) + Deltas(b, evm, worlds, receipts, n, k)
                                         - Burned(b.env, SumGas(receipts[..k])) - Losses(b, evm, worlds, receipts, n, k)
    ensures Total(worlds[k].balances) <= Total(worlds[0].balances)
  {
    hide Total, Acceptable, Ordinary, NeverMints, Burned, Trace, SumGas, Deltas, Losses, Loss, Delta, Applied, Fitting;
    if k == 0 {
      NothingYet(b, evm, worlds, receipts, n);
    } else {
      BlockSupply(b, evm, worlds, receipts, n, k - 1);
      TraceAt(b, evm, worlds, receipts, n, k - 1);
      StepSupply(b, evm, k - 1, worlds[k - 1], SumGas(receipts[..k - 1]), receipts[k - 1], worlds[k], n);
      BurnedSum(b.env, SumGas(receipts[..k - 1]), receipts[k - 1].gasUsed);
      assert receipts[..k] == receipts[..k - 1] + [receipts[k - 1]];
      SumLast(receipts[..k - 1], receipts[k - 1]);
    }
  }

  lemma NothingYet(b: Block, evm: nat -> Evm, worlds: seq<World>, receipts: seq<Receipt>, n: nat)
    requires Trace(b, evm, worlds, receipts, n)
    ensures Deltas(b, evm, worlds, receipts, n, 0) == 0 && Losses(b, evm, worlds, receipts, n, 0) == 0
    ensures Burned(b.env, SumGas(receipts[..0])) == 0
  {
  }

  lemma TraceAt(b: Block, evm: nat -> Evm, worlds: seq<World>, receipts: seq<Receipt>, n: nat, i: nat)
    requires Trace(b, evm, worlds, receipts, n) && i < |receipts|
    ensures |worlds| == |receipts| + 1 && Fitting(worlds[i], n)
    ensures Applied(b, evm, i, worlds[i], SumGas(receipts[..i]), receipts[i], worlds[i + 1])
    ensures
      Deltas(b, evm, worlds, receipts, n, i + 1) == Deltas(b, evm, worlds, receipts, n, i)
        + Delta(MessageOf(b, i), worlds[i], Executed(b.env, MessageOf(b, i), worlds[i], evm(i)))
    ensures Losses(b, evm, worlds, receipts, n, i + 1) == Losses(b, evm, worlds, receipts, n, i) + Loss(b, evm, i, worlds[i])
  {
    hide Fitting, Executed, Delta, Loss, EarlyRefusal, Finalized, Settled;
    assert Applied(b, evm, i, worlds[i], SumGas(receipts[..i]), receipts[i], worlds[i + 1]);
  }

  lemma AppliedRan(b: Block, evm: nat -> Evm, i: nat, w: World, before: nat, r: Receipt, w': World)
    requires Applied(b, evm, i, w, before, r, w')
    ensures i < |b.txs| && Ran(b.env, MessageOf(b, i), w, evm(i), r.gasUsed, r.failed)
  {
  }

  lemma LossAt(b: Block, evm: nat -> Evm, worlds: seq<World>, receipts: seq<Receipt>, n: nat, i: nat)
    requires Acceptable(b, evm, n) && Trace(b, evm, worlds, receipts, n) && Ordinary(b) && NeverMints(evm, n)
    requires Total(worlds[0].balances) < TWO256 && i < |receipts|
    ensures Losses(b, evm, worlds, receipts, n, i + 1) == Losses(b, evm, worlds, receipts, n, i) <==>
            SparesAt(b, evm, worlds, receipts, i)
  {
    hide Total, Acceptable, Ordinary, NeverMints, Trace, SumGas, Deltas, Losses, Loss, Delta, Applied, Fitting, Spares, Ran;
    BlockSupply(b, evm, worlds, receipts, n, i);
    TraceAt(b, evm, worlds, receipts, n, i);
    AppliedRan(b, evm, i, worlds[i], SumGas(receipts[..i]), receipts[i], worlds[i + 1]);
    NoLoss(b, evm, i, worlds[i], SumGas(receipts[..i]), receipts[i], worlds[i + 1], n);
  }

  /** The block destroys no value with accounts exactly when none of its transactions does. */
  lemma {:induction false} NothingLost(b: Block, evm: nat -> Evm, worlds: seq<World>, receipts: seq<Receipt>, n: nat, k: nat)
    requires Acceptable(b, evm, n) && Trace(b, evm, worlds, receipts, n) && Ordinary(b) && NeverMints(evm, n)
    requires Total(worlds[0].balances) < TWO256 && k <= |receipts|
    ensures Losses(b, evm, worlds, receipts, n, k) == 0 <==>
            forall i | 0 <= i < k :: SparesAt(b, evm, worlds, receipts, i)
  {
    hide Total, Acceptable, Ordinary, NeverMints, Trace, SumGas, Loss, SparesAt;
    if k > 0 {
      NothingLost(b, evm, worlds, receipts, n, k - 1);
      LossAt(b, evm, worlds, receipts, n, k - 1);
    }
  }

  // ---------- nonces over a block ----------

  /** Execution lowers no nonce, and neither destroys nor gives code to the sender or to another account
      that has a nonce but no code. */
  ghost predicate Tame(msg: Message, w: World, run: Run)
    requires msg.from < |w.balances| && msg.from < |w.nonces|
  {
    && KeepsNonces(msg, w, run) && |run.world.code| == |w.code| == |w.nonces|
    && forall a | 0 <= a < |w.nonces| && !w.code[a] && (w.nonces[a] > 0 || a == msg.from) ::
         a !in run.world.destroyed && !run.world.code[a]
  }

  ghost predicate TameAt(b: Block, evm: nat -> Evm, worlds: seq<World>, receipts: seq<Receipt>, i: nat) {
    && i < |b.txs| && i < |worlds| && i < |receipts|
    && Ran(b.env, MessageOf(b, i), worlds[i], evm(i), receipts[i].gasUsed, receipts[i].failed)
    && Tame(MessageOf(b, i), worlds[i], Executed(b.env, MessageOf(b, i), worlds[i], evm(i)))
  }

  /** Account `a` has no code and is past nonce `k`. */
  ghost predicate Past(w: World, a: nat, k: nat) {
    a < |w.nonces| && a < |w.code| && w.nonces[a] > k && !w.code[a]
  }

  /** One transaction: its sender is past its nonce afterwards, and whoever was past a nonce still is. */
  lemma PastStep(b: Block, evm: nat -> Evm, i: nat, w: World, before: nat, r: Receipt, w': World, n: nat, a: nat, k: nat)
    requires Acceptable(b, evm, n) && Fitting(w, n) && Applied(b, evm, i, w, before, r, w')
    requires Tame(MessageOf(b, i), w, Executed(b.env, MessageOf(b, i), w, evm(i)))
    requires Past(w, a, k) || (a == MessageOf(b, i).from && k == MessageOf(b, i).nonce)
    ensures Past(w', a, k)
  {
    hide Paid, FeeRefusal, FundsRefusal, EarlyRefusal, Cost, BaseCost, Used, Finalized, Charged, GasRefusal, AsMessage;
    var msg := MessageOf(b, i);
    assert InRange(b.env, msg, n) && Sound(evm(i), n);
    NonceUsed(b.env, msg, w, b.gasLimit - before, n);
    ExecutedFits(b.env, msg, w, evm(i), n);
    var run := Executed(b.env, msg, w, evm(i));
    var settled := Settled(b.env, msg, run);
    SettledFits(b.env, msg, run, n);
    FinalizedAt(settled, n, a);
  }

  lemma SettledFits(env: Env, msg: Message, run: Run, n: nat)
    requires Fitting(run.world, n) && InRange(env, msg, n) && run.gas <= msg.gas
    ensures Fitting(Settled(env, msg, run), n)
    ensures var s := Settled(env, msg, run);
      s.nonces == run.world.nonces && s.code == run.world.code && s.destroyed == run.world.destroyed
  {
    hide Fitting, Credit, FeesPaid, Used;
    SizeFits(run.world, n);
    CreditFits(run.world, n, msg.from, Mul256(msg.gas - Used(env, msg, run), msg.gasPrice));
    FeesFit(run.world.(balances := Credit(run.world.balances, msg.from, Mul256(msg.gas - Used(env, msg, run), msg.gasPrice))),
            n, env, msg, Used(env, msg, run));
  }

  lemma {:induction false} PastSince(b: Block, evm: nat -> Evm, worlds: seq<World>, receipts: seq<Receipt>, n: nat, i: nat, j: nat)
    requires Acceptable(b, evm, n) && Trace(b, evm, worlds, receipts, n) && i < j <= |receipts|
    requires forall k | i <= k < j :: TameAt(b, evm, worlds, receipts, k)
    ensures i < |b.txs| && j < |worlds| && Past(worlds[j], MessageOf(b, i).from, MessageOf(b, i).nonce)
    decreases j
  {
    hide Acceptable, Trace, Applied, Fitting, Tame, Past, AsMessage, Ran, SumGas;
    TraceAt(b, evm, worlds, receipts, n, j - 1);
    TxCount(b, evm, worlds, receipts, n);
    assert TameAt(b, evm, worlds, receipts, j - 1);
    var from, nonce := MessageOf(b, i).from, MessageOf(b, i).nonce;
    if j > i + 1 { PastSince(b, evm, worlds, receipts, n, i, j - 1); }
    PastStep(b, evm, j - 1, worlds[j - 1], SumGas(receipts[..j - 1]), receipts[j - 1], worlds[j], n, from, nonce);
  }

  lemma TxCount(b: Block, evm: nat -> Evm, worlds: seq<World>, receipts: seq<Receipt>, n: nat)
    requires Trace(b, evm, worlds, receipts, n)
    ensures |receipts| <= |b.txs| && |worlds| == |receipts| + 1
  {
  }

  lemma NonceHere(b: Block, evm: nat -> Evm, i: nat, w: World, before: nat, r: Receipt, w': World, n: nat)
    requires Fitting(w, n) && Applied(b, evm, i, w, before, r, w')
    ensures i < |b.txs| && MessageOf(b, i).from < |w.nonces| && w.nonces[MessageOf(b, i).from] == MessageOf(b, i).nonce
  {
    hide AsMessage, FeeRefusal, FundsRefusal, Ran, Finalized;
  }

  /** The transactions of one sender in a block have ever greater nonces: none is applied twice. */
  lemma NoncesRise(b: Block, evm: nat -> Evm, worlds: seq<World>, receipts: seq<Receipt>, n: nat, i: nat, j: nat)
    requires Acceptable(b, evm, n) && Trace(b, evm, worlds, receipts, n) && i < j < |receipts|
    requires forall k | 0 <= k < |receipts| :: TameAt(b, evm, worlds, receipts, k)
    ensures i < j < |b.txs| && (b.txs[i].from == b.txs[j].from ==> b.txs[i].nonce < b.txs[j].nonce)
  {
    PastSince(b, evm, worlds, receipts, n, i, j);
    hide Acceptable, Trace, Applied, Fitting, TameAt, SumGas;
    TraceAt(b, evm, worlds, receipts, n, j);
    TxCount(b, evm, worlds, receipts, n);
    NonceHere(b, evm, j, worlds[j], SumGas(receipts[..j]), receipts[j], worlds[j + 1], n);
  }
}
