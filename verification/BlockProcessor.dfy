/**
 Processing a block: the protocol transactions and then the stake and transfer transactions are
 applied in order to the accounts and the block's gas.
 */
module BlockProcessor {
  import opened Machine
  import opened Ledger
  import opened EpochMeta
  import opened StakeRegistry
  import opened GasPool
  import opened StateTransition
  import opened ProtocolTxs

  datatype Tx = StakeT(stake: StakeTx) | TransferT(transfer: TransferTx, hasCode: bool)

  datatype Block = Block(coinbase: CoinBase, attestors: seq<Key>, txs: seq<Tx>, baseFee: Word, gasLimit: Word)

  /** A receipt: the outcome, the gas it reports as used, and the gas used so far in the block. */
  datatype Receipt = Receipt(failed: bool, gasUsed: nat, cumulative: nat)

  /** What one transaction did: the gas it used, whether its call failed, and the accounts after it. */
  datatype Step = Step(used: nat, failed: bool, after: Accounts)

  /**
   What a run of transactions depends on besides the accounts. `valid(i)` says whether the i-th
   transaction passes the checks on hashes, signatures and addresses, `evm(i)` executes its call.
   */
  datatype Env = Env(cfg: Config, minter: Address, baseFee: int, valid: nat -> bool, evm: nat -> Evm)

  ghost predicate SoundEnv(env: Env) {
    forall i: nat :: Sound(env.evm(i))
  }

  const MAX_DATA: nat := 24 * 1024

  /** Transfer validation, apart from hashes, signatures and the form of addresses. */
  predicate ValidateTransfer(m: Accounts, bank: Address, tx: TransferTx) {
    var acc := Get(m, tx.from);
    && tx.nonce == acc.nonce
    && Low64(acc.balance) >= (tx.value + tx.gas * tx.gasPrice) % TWO64
    && tx.from != bank
    && |tx.data| <= MAX_DATA
  }

  /** Whether the i-th transaction is refused with this much gas left in the block. */
  predicate Refused(env: Env, i: nat, tx: Tx, m: Accounts, left: nat) {
    || !env.valid(i)
    || match tx
       case StakeT(s) => !ValidateStake(env.cfg.stakeAmount, m, env.cfg.addr(s.pk), s) || left < STAKE_GAS
       case TransferT(t, hasCode) =>
         || !ValidateTransfer(m, env.cfg.bank, t)
         || Verdict(m, TransferTxAsMessage(t, env.baseFee), env.baseFee, hasCode, left).Rejected?
  }

  /** What the i-th transaction does to the accounts. */
  ghost predicate Effect(env: Env, i: nat, tx: Tx, m: Accounts, step: Step) {
    match tx
    case StakeT(s) => step == Step(STAKE_GAS, false, StakeEffect(m, env.cfg.addr(s.pk), env.minter, s))
    case TransferT(t, _) =>
      Applied(m, env.evm(i), TransferTxAsMessage(t, env.baseFee), env.baseFee, env.minter,
              Done(step.used, step.failed), step.after)
  }

  function After(m: Accounts, steps: seq<Step>): Accounts {
    if steps == [] then m else steps[|steps| - 1].after
  }

  function Used(steps: seq<Step>): nat {
    if steps == [] then 0 else Used(steps[..|steps| - 1]) + steps[|steps| - 1].used
  }

  /** The steps are those of the transactions from these accounts on, all of them accepted. */
  ghost predicate TxRun(env: Env, txs: seq<Tx>, m: Accounts, limit: nat, steps: seq<Step>)
    decreases |txs|
  {
    if txs == [] then steps == []
    else
      var n := |txs| - 1;
      && |steps| == n + 1
      && TxRun(env, txs[..n], m, limit, steps[..n])
      && var now := After(m, steps[..n]);
         && Used(steps[..n]) <= limit
         && !Refused(env, n, txs[n], now, limit - Used(steps[..n]))
         && Effect(env, n, txs[n], now, steps[n])
         && Used(steps) <= limit
  }

  /** The receipts of a run; a stake receipt reports the gas used so far as its own. */
  function Receipts(txs: seq<Tx>, steps: seq<Step>): seq<Receipt>
    requires |txs| == |steps|
    decreases |txs|
  {
    if txs == [] then []
    else
      var n := |txs| - 1;
      var gas := if txs[n].StakeT? then Used(steps) else steps[n].used;
      Receipts(txs[..n], steps[..n]) + [Receipt(steps[n].failed, gas, Used(steps))]
  }

  // ---------- receipts ----------

  lemma {:induction false} UsedMono(steps: seq<Step>, k: nat)
    requires k <= |steps|
    ensures Used(steps[..k]) <= Used(steps)
    decreases |steps|
  {
    if k < |steps| {
      var n := |steps| - 1;
      UsedMono(steps[..n], k);
      assert steps[..n][..k] == steps[..k];
    } else {
      assert steps[..k] == steps;
    }
  }

  /**
   The k-th receipt carries the gas used up to and including its transaction. The gas it reports as
   its own is the transaction's for a transfer, and the gas used so far for a stake transaction, which
   is the transaction's exactly if no gas was used before.
   */
  lemma {:induction false} ReceiptAt(txs: seq<Tx>, steps: seq<Step>, k: nat)
    requires k < |txs| == |steps| && (txs[k].StakeT? ==> steps[k].used == STAKE_GAS)
    ensures |Receipts(txs, steps)| == |txs|
    ensures var r := Receipts(txs, steps)[k];
            && r.cumulative == Used(steps[..k]) + steps[k].used
            && r.failed == steps[k].failed
            && r.gasUsed == (if txs[k].TransferT? then steps[k].used else r.cumulative)
            && (r.gasUsed == steps[k].used <==> txs[k].TransferT? || Used(steps[..k]) == 0)
    decreases |txs|
  {
    var n := |txs| - 1;
    if k < n {
      ReceiptAt(txs[..n], steps[..n], k);
      assert steps[..n][..k] == steps[..k];
    } else {
      ReceiptCount(txs[..n], steps[..n]);
    }
  }

  lemma {:induction false} ReceiptCount(txs: seq<Tx>, steps: seq<Step>)
    requires |txs| == |steps|
    ensures |Receipts(txs, steps)| == |txs|
    decreases |txs|
  {
    if txs != [] {
      ReceiptCount(txs[..|txs| - 1], steps[..|txs| - 1]);
    }
  }

  /** Cumulative gas never decreases from one receipt to a later one. */
  lemma {:induction false} ReceiptsAscend(txs: seq<Tx>, steps: seq<Step>, j: nat, k: nat)
    requires j <= k < |txs| == |steps|
    ensures |Receipts(txs, steps)| == |txs|
    ensures Receipts(txs, steps)[j].cumulative <= Receipts(txs, steps)[k].cumulative <= Used(steps)
    decreases |txs|
  {
    var n := |txs| - 1;
    ReceiptCount(txs[..n], steps[..n]);
    if j < n {
      ReceiptsAscend(txs[..n], steps[..n], j, if k < n then k else j);
    }
  }

  // ---------- supply ----------

  /** What 64-bit stake fees leave over, summed. */
  function Residues(txs: seq<Tx>): int {
    if txs == [] then 0
    else Residues(txs[..|txs| - 1]) + if txs[|txs| - 1].StakeT? then StakeResidue(txs[|txs| - 1].stake) else 0
  }

  /** The gas used by transfers. */
  function TransferGas(txs: seq<Tx>, steps: seq<Step>): nat
    requires |txs| == |steps|
    decreases |txs|
  {
    if txs == [] then 0
    else
      var n := |txs| - 1;
      TransferGas(txs[..n], steps[..n]) + if txs[n].TransferT? then steps[n].used else 0
  }

  lemma FeeSum(a: int, b: int, price: int)
    ensures Fee(a + b, price) == Fee(a, price) + Fee(b, price) && Fee(0, price) == 0
  {
  }

  /** The transactions change the supply by the base fee of the transfers' gas, and by what overflow leaves. */
  lemma {:induction false} RunSupply(env: Env, txs: seq<Tx>, m: Accounts, limit: nat, steps: seq<Step>)
    requires SoundEnv(env) && TxRun(env, txs, m, limit, steps)
    ensures |steps| == |txs|
    ensures Supply(After(m, steps))
            == Supply(m) + Residues(txs) - Fee(TransferGas(txs, steps), env.baseFee)
    decreases |txs|
  {
    hide Supply, StakeEffect, Sound, Fee, StakeResidue, Applied, Refused, Used;
    FeeSum(0, 0, env.baseFee);
    if txs != [] {
      var n := |txs| - 1;
      RunSupply(env, txs[..n], m, limit, steps[..n]);
      var now := After(m, steps[..n]);
      match txs[n] {
        case StakeT(s) => StakeSupply(now, env.cfg.addr(s.pk), env.minter, s);
        case TransferT(t, _) =>
          AppliedSupply(now, env.evm(n), TransferTxAsMessage(t, env.baseFee), env.baseFee, env.minter,
                        Done(steps[n].used, steps[n].failed), steps[n].after);
          FeeSum(TransferGas(txs[..n], steps[..n]), steps[n].used, env.baseFee);
      }
    }
  }

  /** A stake transaction whose fee does not overflow leaves nothing over. */
  lemma NoResidue(tx: StakeTx)
    requires tx.gas >= STAKE_GAS && tx.gas * tx.gasPrice < TWO63
    ensures StakeResidue(tx) == 0
  {
    hide S64;
    SplitFee(tx.gas, tx.gasPrice);
    Small(tx.gas * tx.gasPrice);
    Small((tx.gas - STAKE_GAS) * tx.gasPrice);
    Small(STAKE_GAS * tx.gasPrice);
  }

  /** Nothing is left over if no stake fee of the block overflows a signed word. */
  lemma {:induction false} NoResidues(txs: seq<Tx>)
    requires forall i :: 0 <= i < |txs| && txs[i].StakeT? ==>
               txs[i].stake.gas >= STAKE_GAS && txs[i].stake.gas * txs[i].stake.gasPrice < TWO63
    ensures Residues(txs) == 0
  {
    hide StakeResidue;
    if txs != [] {
      NoResidues(txs[..|txs| - 1]);
      if txs[|txs| - 1].StakeT? {
        NoResidue(txs[|txs| - 1].stake);
      }
    }
  }

  /**
   Over a whole block the supply changes by exactly the coinbase fee reward minus the base fee
   times the gas used by transfers, if and only if overflowing stake fees leave nothing over.
   */
  lemma BlockSupply(env: Env, b: Block, p: Progress, steps: seq<Step>)
    requires SoundEnv(env) && env.baseFee == S64(b.baseFee)
    requires Protocol(env.cfg, p, b.coinbase, b.attestors).Some?
    requires TxRun(env, b.txs, Protocol(env.cfg, p, b.coinbase, b.attestors).value.accounts, b.gasLimit, steps)
    ensures |steps| == |b.txs|
    ensures Supply(After(Protocol(env.cfg, p, b.coinbase, b.attestors).value.accounts, steps))
            == Supply(p.accounts) + S64(b.coinbase.feeReward) - Fee(TransferGas(b.txs, steps), S64(b.baseFee))
            <==> Residues(b.txs) == 0
  {
    hide Supply, Fee, S64, TxRun, Protocol;
    ProtocolSupply(env.cfg, p, b.coinbase, b.attestors);
    RunSupply(env, b.txs, Protocol(env.cfg, p, b.coinbase, b.attestors).value.accounts, b.gasLimit, steps);
  }

  // ---------- the registry ----------

  lemma StakesKeepRegistry(stakeAmount: nat, addr: Key -> Address, m: Accounts, m': Accounts, validators: seq<Key>)
    requires RegistryInv(stakeAmount, addr, Registry(m, validators)) && SameStakes(m, m')
    ensures RegistryInv(stakeAmount, addr, Registry(m', validators))
  {
  }

  lemma {:induction false} RunPrefix(env: Env, txs: seq<Tx>, m: Accounts, limit: nat, steps: seq<Step>, k: nat)
    requires TxRun(env, txs, m, limit, steps) && k <= |txs|
    ensures |steps| == |txs| && TxRun(env, txs[..k], m, limit, steps[..k])
    decreases |txs|
  {
    hide Refused, Effect, Used;
    if k < |txs| {
      var n := |txs| - 1;
      RunPrefix(env, txs[..n], m, limit, steps[..n], k);
      assert txs[..n][..k] == txs[..k] && steps[..n][..k] == steps[..k];
    } else {
      assert txs[..k] == txs && steps[..k] == steps;
    }
  }

  /** The k-th transaction keeps the registry in order exactly if it does not stake 2^63 or more. */
  lemma StepKeepsRegistryIff(env: Env, txs: seq<Tx>, m: Accounts, limit: nat, steps: seq<Step>, validators: seq<Key>,
                             k: nat)
    requires SoundEnv(env) && TxRun(env, txs, m, limit, steps) && k < |txs| == |steps| && 0 < env.cfg.stakeAmount
    requires RegistryInv(env.cfg.stakeAmount, env.cfg.addr, Registry(After(m, steps[..k]), validators))
    ensures RegistryInv(env.cfg.stakeAmount, env.cfg.addr, Registry(After(m, steps[..k + 1]), validators))
            <==> (txs[k].StakeT? ==> txs[k].stake.amount < TWO63)
  {
    hide Supply, StakeEffect, Sound, RegistryInv, SameStakes, ValidateStake, ValidateTransfer, Applied, Used, Verdict;
    RunPrefix(env, txs, m, limit, steps, k + 1);
    assert txs[..k + 1][..k] == txs[..k] && steps[..k + 1][..k] == steps[..k];
    var now := After(m, steps[..k]);
    match txs[k] {
      case StakeT(s) => StakeKeepsIff(env.cfg.stakeAmount, env.cfg.addr, Registry(now, validators), env.minter, s);
      case TransferT(t, _) =>
        AppliedStakes(now, env.evm(k), TransferTxAsMessage(t, env.baseFee), env.baseFee, env.minter,
                      Done(steps[k].used, steps[k].failed), steps[k].after);
        StakesKeepRegistry(env.cfg.stakeAmount, env.cfg.addr, now, steps[k].after, validators);
    }
  }

  /**
   The transactions of a block keep the validator registry in order throughout, whatever contracts
   run, exactly if none of them stakes 2^63 or more.
   */
  lemma RunKeepsRegistryIff(env: Env, txs: seq<Tx>, m: Accounts, limit: nat, steps: seq<Step>, validators: seq<Key>)
    requires SoundEnv(env) && TxRun(env, txs, m, limit, steps) && |steps| == |txs| && 0 < env.cfg.stakeAmount
    requires RegistryInv(env.cfg.stakeAmount, env.cfg.addr, Registry(m, validators))
    ensures (forall k :: 0 <= k <= |txs| ==>
               RegistryInv(env.cfg.stakeAmount, env.cfg.addr, Registry(After(m, steps[..k]), validators)))
            <==> forall i :: 0 <= i < |txs| && txs[i].StakeT? ==> txs[i].stake.amount < TWO63
  {
    hide RegistryInv, TxRun, SoundEnv, After;
    if forall i :: 0 <= i < |txs| && txs[i].StakeT? ==> txs[i].stake.amount < TWO63 {
      forall k | 0 <= k <= |txs|
        ensures RegistryInv(env.cfg.stakeAmount, env.cfg.addr, Registry(After(m, steps[..k]), validators))
      {
        RunKeepsRegistryUpTo(env, txs, m, limit, steps, validators, k);
      }
    } else if forall k :: 0 <= k <= |txs| ==>
                RegistryInv(env.cfg.stakeAmount, env.cfg.addr, Registry(After(m, steps[..k]), validators)) {
      forall i | 0 <= i < |txs| && txs[i].StakeT?
        ensures txs[i].stake.amount < TWO63
      {
        StepKeepsRegistryIff(env, txs, m, limit, steps, validators, i);
      }
    }
  }

  lemma {:induction false} RunKeepsRegistryUpTo(env: Env, txs: seq<Tx>, m: Accounts, limit: nat, steps: seq<Step>,
                                                validators: seq<Key>, k: nat)
    requires SoundEnv(env) && TxRun(env, txs, m, limit, steps) && k <= |txs| == |steps| && 0 < env.cfg.stakeAmount
    requires RegistryInv(env.cfg.stakeAmount, env.cfg.addr, Registry(m, validators))
    requires forall i :: 0 <= i < |txs| && txs[i].StakeT? ==> txs[i].stake.amount < TWO63
    ensures RegistryInv(env.cfg.stakeAmount, env.cfg.addr, Registry(After(m, steps[..k]), validators))
    decreases k
  {
    hide RegistryInv, TxRun, SoundEnv;
    if k > 0 {
      RunKeepsRegistryUpTo(env, txs, m, limit, steps, validators, k - 1);
      StepKeepsRegistryIff(env, txs, m, limit, steps, validators, k - 1);
    }
  }

  // ---------- the processor ----------

  lemma RunStep(env: Env, txs: seq<Tx>, m: Accounts, limit: nat, steps: seq<Step>, step: Step)
    requires |steps| < |txs| && TxRun(env, txs[..|steps|], m, limit, steps) && Used(steps) + step.used <= limit
    requires !Refused(env, |steps|, txs[|steps|], After(m, steps), limit - Used(steps))
    requires Effect(env, |steps|, txs[|steps|], After(m, steps), step)
    ensures TxRun(env, txs[..|steps| + 1], m, limit, steps + [step])
    ensures Used(steps + [step]) == Used(steps) + step.used
    ensures Receipts(txs[..|steps| + 1], steps + [step])
            == Receipts(txs[..|steps|], steps)
               + [Receipt(step.failed, if txs[|steps|].StakeT? then Used(steps) + step.used else step.used,
                          Used(steps) + step.used)]
  {
    hide Refused, Effect;
    var n := |steps|;
    assert txs[..n + 1][..n] == txs[..n];
    assert (steps + [step])[..n] == steps;
  }

  class Processor {
    const db: StateDB
    const gp: Pool
    var usedGas: nat
    var receipts: seq<Receipt>

    constructor (db: StateDB)
      ensures this.db == db && usedGas == 0 && receipts == [] && fresh(gp) && gp.gas == 0
    {
      this.db := db;
      gp := new Pool();
      usedGas, receipts := 0, [];
    }

    /** Applies a stake transaction: fee, pending stake, refund, and the proposer's share. */
    method ApplyStake(tx: StakeTx, from: Address, minter: Address) returns (ok: bool)
      modifies this, db, gp
      ensures ok <==> old(gp.gas) >= STAKE_GAS
      ensures ok ==>
                && usedGas == old(usedGas) + STAKE_GAS && gp.gas == old(gp.gas) - STAKE_GAS
                && receipts == old(receipts) + [Receipt(false, usedGas, usedGas)]
                && db.accounts == StakeEffect(old(db.accounts), from, minter, tx)
                && Charged(old(db.accounts), from, minter, tx, db.accounts)
    {
      hide S64, Charged;
      StakeCharges(db.accounts, from, minter, tx);
      usedGas := usedGas + STAKE_GAS;
      var acc := Get(db.accounts, from);
      acc := acc.(nonce := acc.nonce + 1);
      // Calculate and subtract the fee
      acc := acc.(balance := acc.balance - S64(tx.gas * tx.gasPrice));
      // All pending stake goes back to the balance, and the new amount leaves it
      acc := acc.(balance := acc.balance + acc.pending);
      acc := acc.(balance := acc.balance - S64(tx.amount));
      acc := acc.(pending := S64(tx.amount));
      // Refund the remaining gas
      acc := acc.(balance := acc.balance + S64((tx.gas - STAKE_GAS) * tx.gasPrice));
      db.accounts := db.accounts[from := acc];
      // The gas fee goes to the block proposer
      db.accounts := AddBalance(db.accounts, minter, S64(STAKE_GAS * tx.gasPrice));
      ok := gp.SubGas(STAKE_GAS);
      if ok {
        receipts := receipts + [Receipt(false, usedGas, usedGas)];
      }
    }

    /** Applies a transfer through the gas and fee transition. */
    method ApplyTransaction(msg: Message, hasCode: bool, baseFee: int, minter: Address, evm: Evm) returns (r: Outcome)
      requires gp.gas <= MAX64 && Sound(evm) && Priced(msg, baseFee)
      modifies this, db, gp
      ensures var verdict := Verdict(old(db.accounts), msg, baseFee, hasCode, old(gp.gas));
              if verdict.Rejected? then r == verdict else r.Done?
      ensures r.Done? ==>
                && usedGas == old(usedGas) + r.used && gp.gas == old(gp.gas) - r.used
                && receipts == old(receipts) + [Receipt(r.failed, r.used, usedGas)]
                && Applied(old(db.accounts), evm, msg, baseFee, minter, r, db.accounts)
    {
      hide Supply, Applied, Verdict, Sound, Priced;
      var st := new Transition(db, gp, msg, baseFee, minter);
      r := st.TransitionDb(evm, hasCode);
      if r.Done? {
        usedGas := usedGas + r.used;
        receipts := receipts + [Receipt(r.failed, r.used, usedGas)];
      }
    }

    /** Applies one transaction, unless it is refused. */
    method ApplyTx(env: Env, i: nat, tx: Tx) returns (ok: bool, ghost step: Step)
      requires gp.gas <= MAX64 && Sound(env.evm(i))
      modifies this, db, gp
      ensures ok <==> !Refused(env, i, tx, old(db.accounts), old(gp.gas))
      ensures ok ==>
                && Effect(env, i, tx, old(db.accounts), step) && db.accounts == step.after
                && usedGas == old(usedGas) + step.used && gp.gas == old(gp.gas) - step.used
                && receipts == old(receipts)
                               + [Receipt(step.failed, if tx.StakeT? then usedGas else step.used, usedGas)]
    {
      hide Supply, Applied, Verdict, Sound, StakeEffect, ValidateStake, ValidateTransfer;
      step := Step(0, false, db.accounts);
      ok := env.valid(i);
      if !ok {
        return;
      }
      match tx {
        case StakeT(s) =>
          ok := ValidateStake(env.cfg.stakeAmount, db.accounts, env.cfg.addr(s.pk), s);
          if ok {
            ok := ApplyStake(s, env.cfg.addr(s.pk), env.minter);
            step := Step(STAKE_GAS, false, db.accounts);
          }
        case TransferT(t, hasCode) =>
          ok := ValidateTransfer(db.accounts, env.cfg.bank, t);
          if ok {
            var msg := TransferTxAsMessage(t, env.baseFee);
            var r := ApplyTransaction(msg, hasCode, env.baseFee, env.minter, env.evm(i));
            ok := r.Done?;
            step := if ok then Step(r.used, r.failed, db.accounts) else step;
          }
      }
    }

    /**
     Applies the transactions in order up to the first that is refused. Used gas and the gas left
     in the pool always make up the gas limit.
     */
    method ApplyTxs(env: Env, txs: seq<Tx>) returns (ok: bool, ghost steps: seq<Step>)
      requires usedGas == 0 && receipts == [] && gp.gas <= MAX64 && SoundEnv(env)
      modifies this, db, gp
      ensures |steps| <= |txs| && TxRun(env, txs[..|steps|], old(db.accounts), old(gp.gas), steps)
      ensures ok <==> |steps| == |txs|
      ensures !ok ==> Refused(env, |steps|, txs[|steps|], After(old(db.accounts), steps), old(gp.gas) - Used(steps))
      ensures ok ==>
                && db.accounts == After(old(db.accounts), steps) && usedGas == Used(steps)
                && usedGas + gp.gas == old(gp.gas) && receipts == Receipts(txs, steps)
    {
      hide Supply, TxRun, Refused, Effect, Sound, Receipts;
      ghost var m, limit := db.accounts, gp.gas;
      steps := [];
      RunStart(env, txs, m, limit);
      for i := 0 to |txs|
        invariant |steps| == i && TxRun(env, txs[..i], m, limit, steps)
        invariant db.accounts == After(m, steps) && usedGas == Used(steps) && usedGas + gp.gas == limit
        invariant receipts == Receipts(txs[..i], steps)
      {
        ghost var step;
        ok, step := ApplyTx(env, i, txs[i]);
        if !ok {
          return;
        }
        RunStep(env, txs, m, limit, steps, step);
        steps := steps + [step];
      }
      assert txs[..|txs|] == txs;
      ok := true;
    }

    /**
     Processes a block: it fails exactly if a protocol transaction or a later transaction is
     refused, and otherwise leaves the accounts, the gas and the receipts of the run.
     */
    method Process(b: Block, sc: StateContext, protocolValid: nat -> bool, env: Env)
      returns (ok: bool, ghost steps: seq<Step>)
      requires usedGas == 0 && receipts == [] && gp.gas == 0 && SoundEnv(env)
      requires env.minter == env.cfg.addr(b.coinbase.pk) && env.baseFee == S64(b.baseFee)
      requires sc.stakeAmount == env.cfg.stakeAmount
      modifies this, db, gp, sc
      ensures var r := Protocol(env.cfg, Progress(old(db.accounts), old(sc.Value())), b.coinbase, b.attestors);
              if r.None? || exists i :: 0 <= i <= |b.attestors| && !protocolValid(i) then !ok
              else
                && sc.Value() == r.value.context
                && |steps| <= |b.txs| && TxRun(env, b.txs[..|steps|], r.value.accounts, b.gasLimit, steps)
                && (ok <==> |steps| == |b.txs|)
                && (!ok ==> Refused(env, |steps|, b.txs[|steps|], After(r.value.accounts, steps),
                                    b.gasLimit - Used(steps)))
                && (ok ==>
                      && db.accounts == After(r.value.accounts, steps) && usedGas == Used(steps)
                      && usedGas + gp.gas == b.gasLimit && receipts == Receipts(b.txs, steps))
    {
      hide Supply, TxRun, Refused, Sound, Receipts, Used, Protocol, After;
      gp.AddGas(b.gasLimit);
      steps := [];
      ok := ApplyProtocolTxs(env.cfg, db, sc, b.coinbase, b.attestors, protocolValid);
      if ok {
        ok, steps := ApplyTxs(env, b.txs);
      }
    }
  }

  lemma RunStart(env: Env, txs: seq<Tx>, m: Accounts, limit: nat)
    ensures TxRun(env, txs[..0], m, limit, []) && Receipts(txs[..0], []) == []
  {
    assert txs[..0] == [];
  }

  // ---------- what a block does to stakes ----------

  /** A block's transactions change pending stake only for the keys of its stake transactions. */
  lemma {:induction false} RunSequel(env: Env, txs: seq<Tx>, m: Accounts, limit: nat, steps: seq<Step>)
    requires SoundEnv(env) && TxRun(env, txs, m, limit, steps)
    ensures Sequel(env.cfg.addr, m, StakeKeys(txs), After(m, steps))
    decreases |txs|
  {
    hide Supply, StakeEffect, Sound, Refused, Applied, Used, Sequel, SameStakes;
    if txs == [] {
      NoSequel(env.cfg.addr, m, StakeKeys(txs));
    } else {
      var n := |txs| - 1;
      RunSequel(env, txs[..n], m, limit, steps[..n]);
      var now := After(m, steps[..n]);
      match txs[n] {
        case StakeT(s) =>
          StakeSequel(env.cfg.addr, m, StakeKeys(txs[..n]), now, env.minter, s);
        case TransferT(t, _) =>
          AppliedStakes(now, env.evm(n), TransferTxAsMessage(t, env.baseFee), env.baseFee, env.minter,
                        Done(steps[n].used, steps[n].failed), steps[n].after);
          SequelSame(env.cfg.addr, m, StakeKeys(txs[..n]), now, steps[n].after);
          assert StakeKeys(txs[..n]) + [] == StakeKeys(txs[..n]);
      }
    }
  }

  lemma NoSequel(addr: Key -> Address, m: Accounts, keys: seq<Key>)
    ensures Sequel(addr, m, keys, m)
  {
  }

  lemma StakeSequel(addr: Key -> Address, m: Accounts, keys: seq<Key>, now: Accounts, minter: Address, tx: StakeTx)
    requires Sequel(addr, m, keys, now)
    ensures Sequel(addr, m, keys + [tx.pk], StakeEffect(now, addr(tx.pk), minter, tx))
  {
    hide S64;
    var m' := StakeEffect(now, addr(tx.pk), minter, tx);
    var keys' := keys + [tx.pk];
    assert tx.pk in keys' && forall k :: k in keys ==> k in keys';
    forall a
      ensures Get(m', a).stake == Get(m, a).stake
      ensures Get(m', a).pending == Get(m, a).pending
              || (-TWO63 <= Get(m', a).pending < TWO63 && exists k :: k in keys' && addr(k) == a)
    {
      if a == addr(tx.pk) {
        assert Get(m', a).pending == S64(tx.amount);
      } else {
        assert Get(m', a).pending == Get(now, a).pending;
        if exists k :: k in keys && addr(k) == a {
          var k :| k in keys && addr(k) == a;
          assert k in keys';
        }
      }
    }
  }

  lemma SequelSame(addr: Key -> Address, m: Accounts, keys: seq<Key>, now: Accounts, m': Accounts)
    requires Sequel(addr, m, keys, now) && SameStakes(now, m')
    ensures Sequel(addr, m, keys, m')
  {
  }

  /** So does the whole block: its protocol transactions change no stake at all. */
  lemma BlockSequel(env: Env, b: Block, p: Progress, steps: seq<Step>)
    requires SoundEnv(env) && Protocol(env.cfg, p, b.coinbase, b.attestors).Some?
    requires TxRun(env, b.txs, Protocol(env.cfg, p, b.coinbase, b.attestors).value.accounts, b.gasLimit, steps)
    ensures Sequel(env.cfg.addr, p.accounts, StakeKeys(b.txs),
                   After(Protocol(env.cfg, p, b.coinbase, b.attestors).value.accounts, steps))
  {
    hide Supply, TxRun, Protocol, StakeKeys, After, SoundEnv;
    ProtocolSupply(env.cfg, p, b.coinbase, b.attestors);
    var q := Protocol(env.cfg, p, b.coinbase, b.attestors).value.accounts;
    RunSequel(env, b.txs, q, b.gasLimit, steps);
    assert forall a :: Get(q, a).stake == Get(p.accounts, a).stake && Get(q, a).pending == Get(p.accounts, a).pending;
  }

  // ---------- a wrong receipt ----------

  /** Two stake transactions of one key, the second with the next nonce. */
  const TWO_STAKES: seq<Tx> := [StakeT(StakeTx(5, 1000, 0, 0, 0)), StakeT(StakeTx(5, 1000, 0, 0, 1))]

  /** What they do to empty accounts. */
  ghost function TwoSteps(env: Env): seq<Step> {
    var from := env.cfg.addr(5);
    var once := StakeEffect(map[], from, env.minter, TWO_STAKES[0].stake);
    [Step(STAKE_GAS, false, once),
     Step(STAKE_GAS, false, StakeEffect(once, from, env.minter, TWO_STAKES[1].stake))]
  }

  /** A block of these two is accepted, and the second receipt reports twice the gas its transaction used. */
  lemma SecondStakeReceipt(env: Env, limit: nat)
    requires env.valid(0) && env.valid(1) && limit >= 2 * STAKE_GAS
    ensures TxRun(env, TWO_STAKES, map[], limit, TwoSteps(env)) && |TwoSteps(env)| == |TWO_STAKES|
    ensures var r := Receipts(TWO_STAKES, TwoSteps(env));
            |r| == 2 && r[1].gasUsed == 2 * STAKE_GAS && TwoSteps(env)[1].used == STAKE_GAS
  {
    hide StakeEffect, ValidateStake;
    var steps := TwoSteps(env);
    var from := env.cfg.addr(5);
    assert ValidateStake(env.cfg.stakeAmount, map[], from, TWO_STAKES[0].stake) by {
      FreeStake(env.cfg.stakeAmount, map[], from, TWO_STAKES[0].stake);
    }
    FreeStakeEffect(from, env.minter);
    FreeStake(env.cfg.stakeAmount, steps[0].after, from, TWO_STAKES[1].stake);
    RunStart(env, TWO_STAKES, map[], limit);
    RunStep(env, TWO_STAKES, map[], limit, [], steps[0]);
    assert [] + [steps[0]] == [steps[0]];
    RunStep(env, TWO_STAKES, map[], limit, [steps[0]], steps[1]);
    assert [steps[0]] + [steps[1]] == steps && TWO_STAKES[..2] == TWO_STAKES;
    ReceiptCount(TWO_STAKES[..1], [steps[0]]);
  }

  /** A stake transaction of nothing at price zero is valid with the right nonce and a balance that is not negative. */
  lemma FreeStake(stakeAmount: nat, m: Accounts, from: Address, tx: StakeTx)
    requires tx.gas == 1000 && tx.gasPrice == 0 && tx.amount == 0
    requires Get(m, from).nonce == tx.nonce && Get(m, from).balance >= 0
    ensures ValidateStake(stakeAmount, m, from, tx)
  {
  }

  lemma FreeStakeEffect(from: Address, minter: Address)
    ensures var m := StakeEffect(map[], from, minter, TWO_STAKES[0].stake);
            Get(m, from).nonce == 1 && Get(m, from).balance == 0
  {
  }

  // ---------- keys whose stake changes at the next epoch boundary ----------

  /** The keys of a block's stake transactions, in order. */
  function StakeKeys(txs: seq<Tx>): seq<Key> {
    if txs == [] then []
    else StakeKeys(txs[..|txs| - 1]) + if txs[|txs| - 1].StakeT? then [txs[|txs| - 1].stake.pk] else []
  }

  lemma {:induction false} StakeKeysAre(txs: seq<Tx>, k: Key)
    ensures k in StakeKeys(txs) <==> exists i :: 0 <= i < |txs| && txs[i].StakeT? && txs[i].stake.pk == k
    decreases |txs|
  {
    if txs != [] {
      var n := |txs| - 1;
      StakeKeysAre(txs[..n], k);
      assert forall i :: 0 <= i < n ==> txs[..n][i] == txs[i];
      assert k in StakeKeys(txs) <==> k in StakeKeys(txs[..n]) || (txs[n].StakeT? && txs[n].stake.pk == k);
      if exists i :: 0 <= i < n && txs[..n][i].StakeT? && txs[..n][i].stake.pk == k {
        var i :| 0 <= i < n && txs[..n][i].StakeT? && txs[..n][i].stake.pk == k;
        assert txs[i].StakeT? && txs[i].stake.pk == k;
      }
    }
  }

  lemma PendingNext(txs: seq<Tx>, i: nat)
    requires i < |txs|
    ensures Pending(StakeKeys(txs[..i + 1]))
            == if txs[i].StakeT? then Added(Pending(StakeKeys(txs[..i])), txs[i].stake.pk)
               else Pending(StakeKeys(txs[..i]))
  {
    hide Added;
    assert txs[..i + 1][..i] == txs[..i];
    var before := StakeKeys(txs[..i]);
    if txs[i].StakeT? {
      assert (before + [txs[i].stake.pk])[..|before|] == before;
    } else {
      assert before + [] == before;
    }
  }

  /** The distinct keys of a block's stake transactions, in order of first appearance. */
  method GetPendingValidatorsUpdate(txs: seq<Tx>) returns (keys: seq<Key>)
    ensures keys == Pending(StakeKeys(txs)) && Distinct(keys)
    ensures forall k :: k in keys <==> exists i :: 0 <= i < |txs| && txs[i].StakeT? && txs[i].stake.pk == k
  {
    hide Pending, StakeKeys;
    var seen: set<Key> := {};
    keys := [];
    NoPending(txs[..0]);
    for i := 0 to |txs|
      invariant keys == Pending(StakeKeys(txs[..i])) && (forall k :: k in seen <==> k in keys)
    {
      PendingNext(txs, i);
      if txs[i].StakeT? {
        var pk := txs[i].stake.pk;
        if pk !in seen {
          seen := seen + {pk};
          keys := keys + [pk];
        }
      }
    }
    assert txs[..|txs|] == txs;
    PendingDistinct(StakeKeys(txs));
    forall k {
      StakeKeysAre(txs, k);
    }
  }

  lemma NoPending(txs: seq<Tx>)
    requires txs == []
    ensures Pending(StakeKeys(txs)) == []
  {
  }
}
