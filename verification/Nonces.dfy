/**
 Nonces over a block: every accepted transaction carries its sender's nonce and raises it, so the
 nonces of a sender rise from transaction to transaction and none can be applied twice. The EVM is
 only assumed not to lower the nonce of the sender in question, and to raise it when it creates a
 contract for the sender.
 */
module Nonces {
  import opened Ledger
  import opened StakeRegistry
  import opened StateTransition
  import opened BlockProcessor

  function Sender(env: Env, tx: Tx): Address {
    match tx
    case StakeT(s) => env.cfg.addr(s.pk)
    case TransferT(t, _) => t.from
  }

  function NonceOf(tx: Tx): nat {
    match tx
    case StakeT(s) => s.nonce
    case TransferT(t, _) => t.nonce
  }

  /** The transaction has the EVM create a contract for the account. */
  predicate CreatesFor(tx: Tx, a: Address) {
    tx.TransferT? && tx.transfer.creates && tx.transfer.from == a
  }

  ghost predicate Counts(evm: Evm, tx: Tx, a: Address) {
    forall m, g ::
      Get(evm(m, g).accounts, a).nonce >= Get(m, a).nonce + (if CreatesFor(tx, a) then 1 else 0)
  }

  ghost predicate AllCount(env: Env, txs: seq<Tx>, a: Address) {
    forall i: nat :: i < |txs| ==> Counts(env.evm(i), txs[i], a)
  }

  /** An accepted transaction carries its sender's nonce, raises it, and lowers nobody's. */
  lemma StepNonce(env: Env, i: nat, tx: Tx, m: Accounts, left: nat, step: Step, a: Address)
    requires !Refused(env, i, tx, m, left) && Effect(env, i, tx, m, step) && Counts(env.evm(i), tx, a)
    ensures Get(m, Sender(env, tx)).nonce == NonceOf(tx)
    ensures Get(step.after, a).nonce >= Get(m, a).nonce + (if a == Sender(env, tx) then 1 else 0)
  {
    hide Supply, StakeEffect, Applied, Fee, Verdict;
    match tx {
      case StakeT(s) => StakeCharges(m, env.cfg.addr(s.pk), env.minter, s);
      case TransferT(t, _) =>
        var msg := TransferTxAsMessage(t, env.baseFee);
        var r := Done(step.used, step.failed);
        var start := AppliedExact(m, env.evm(i), msg, env.baseFee, env.minter, r, step.after);
    }
  }

  /** A run of transactions lowers nobody's nonce. */
  lemma {:induction false} RunNonces(env: Env, txs: seq<Tx>, m: Accounts, limit: nat, steps: seq<Step>, k: nat,
                                     a: Address)
    requires TxRun(env, txs, m, limit, steps) && AllCount(env, txs, a) && k <= |txs|
    ensures |steps| == |txs| && Get(After(m, steps), a).nonce >= Get(After(m, steps[..k]), a).nonce
    decreases |txs|
  {
    hide Refused, Effect, Counts, Used;
    if k == |txs| {
      RunPrefix(env, txs, m, limit, steps, k);
      assert steps[..k] == steps;
    } else {
      var n := |txs| - 1;
      RunNonces(env, txs[..n], m, limit, steps[..n], k, a);
      assert steps[..n][..k] == steps[..k];
      StepNonce(env, n, txs[n], After(m, steps[..n]), limit - Used(steps[..n]), steps[n], a);
    }
  }

  /** Right after its transaction a sender's nonce is above the transaction's, and it stays there. */
  lemma NonceSpent(env: Env, txs: seq<Tx>, m: Accounts, limit: nat, steps: seq<Step>, i: nat, k: nat)
    requires TxRun(env, txs, m, limit, steps) && i < k <= |txs| == |steps|
    requires AllCount(env, txs, Sender(env, txs[i]))
    ensures Get(After(m, steps[..i]), Sender(env, txs[i])).nonce == NonceOf(txs[i])
    ensures Get(After(m, steps[..k]), Sender(env, txs[i])).nonce > NonceOf(txs[i])
  {
    hide Refused, Effect, Counts, Used;
    RunPrefix(env, txs, m, limit, steps, i + 1);
    assert txs[..i + 1][..i] == txs[..i] && steps[..i + 1][..i] == steps[..i];
    StepNonce(env, i, txs[i], After(m, steps[..i]), limit - Used(steps[..i]), steps[i], Sender(env, txs[i]));
    RunPrefix(env, txs, m, limit, steps, k);
    RunNonces(env, txs[..k], m, limit, steps[..k], i + 1, Sender(env, txs[i]));
    assert steps[..k][..i + 1] == steps[..i + 1];
  }

  /** The nonces of one sender's transactions in a block rise strictly. */
  lemma NoncesRise(env: Env, txs: seq<Tx>, m: Accounts, limit: nat, steps: seq<Step>, i: nat, j: nat)
    requires TxRun(env, txs, m, limit, steps) && i < j < |txs| == |steps|
    requires Sender(env, txs[i]) == Sender(env, txs[j]) && AllCount(env, txs, Sender(env, txs[i]))
    ensures NonceOf(txs[i]) < NonceOf(txs[j])
  {
    hide TxRun, AllCount;
    NonceSpent(env, txs, m, limit, steps, i, j);
    NonceSpent(env, txs, m, limit, steps, j, j + 1);
  }

  /**
   No transaction is applied twice: from the end of its block on, in any later block, it is refused
   wherever its sender's nonce has not been lowered.
   */
  lemma SpentIsRefused(env: Env, txs: seq<Tx>, m: Accounts, limit: nat, steps: seq<Step>, i: nat,
                       env': Env, k: nat, m': Accounts, left: nat)
    requires TxRun(env, txs, m, limit, steps) && i < |txs| == |steps| && AllCount(env, txs, Sender(env, txs[i]))
    requires env'.cfg.addr == env.cfg.addr
    requires Get(m', Sender(env, txs[i])).nonce >= Get(After(m, steps), Sender(env, txs[i])).nonce
    ensures Refused(env', k, txs[i], m', left)
  {
    hide TxRun, AllCount, Verdict, After;
    NonceSpent(env, txs, m, limit, steps, i, |txs|);
    assert steps[..|txs|] == steps;
  }
}
