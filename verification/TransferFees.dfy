/**
 What the 64-bit fields of transfers and block headers mean for the balance of the sender and the
 tip of the minter, among the transfers that a block accepts.
 */
module TransferFees {
  import opened Machine
  import opened Ledger
  import opened StakeRegistry
  import opened GasPool
  import opened StateTransition
  import opened BlockProcessor

  /** The block accepts the transfer. */
  predicate Accepts(env: Env, i: nat, tx: TransferTx, hasCode: bool, m: Accounts, left: nat) {
    !Refused(env, i, TransferT(tx, hasCode), m, left)
  }

  /** What the minter gets per unit of gas: the price above the base fee. */
  function Tip(env: Env, tx: TransferTx): int {
    TransferTxAsMessage(tx, env.baseFee).price - env.baseFee
  }

  /** An accepted transfer passed all the checks of the transition. */
  lemma AcceptedIsChecked(env: Env, i: nat, tx: TransferTx, hasCode: bool, m: Accounts, left: nat)
    requires Accepts(env, i, tx, hasCode, m, left)
    ensures var msg := TransferTxAsMessage(tx, env.baseFee);
            Check(m, msg, env.baseFee, hasCode).Done? && Covered(m, msg)
  {
    hide Check, Covered, IntrinsicCost, ValidateTransfer;
  }

  /** In a block with a base fee below 2^63 a transfer pays its own price, and the minter never loses by it. */
  lemma TipNonNegative(env: Env, i: nat, tx: TransferTx, hasCode: bool, m: Accounts, left: nat)
    requires env.baseFee >= 0 && Accepts(env, i, tx, hasCode, m, left)
    ensures Tip(env, tx) == EffectiveTip(TransferTxAsMessage(tx, env.baseFee), env.baseFee) >= 0
    ensures tx.gasPrice < TWO63 && TransferTxAsMessage(tx, env.baseFee).price == tx.gasPrice
  {
    hide Check, S64, Accepts;
    SignOf(tx.gasPrice);
    CheckPasses(m, TransferTxAsMessage(tx, env.baseFee), env.baseFee, hasCode);
    AcceptedIsChecked(env, i, tx, hasCode, m, left);
    TransferTipIff(m, tx, env.baseFee, hasCode);
    TipIsPriceAboveBase(TransferTxAsMessage(tx, env.baseFee), env.baseFee);
  }

  /** A transfer whose price is the very word that the header gives as base fee. */
  function AtBaseFee(from: Address, baseFee: Word): TransferTx { TransferTx(from, false, 0, 0, TX_GAS, baseFee, []) }

  /** A base fee word of 2^63 or more is read as negative, and a transfer at that price is accepted. */
  lemma NegativeTip(env: Env, i: nat, baseFee: Word, from: Address)
    requires env.valid(i) && env.baseFee == S64(baseFee) < 0 && from != env.cfg.bank
    ensures var m := map[from := Account(TWO64 - 1, 0, 0, 0)];
            Accepts(env, i, AtBaseFee(from, baseFee), false, m, TX_GAS) && Tip(env, AtBaseFee(from, baseFee)) < 0
  {
    hide S64;
    var m := map[from := Account(TWO64 - 1, 0, 0, 0)];
    var tx := AtBaseFee(from, baseFee);
    var msg := TransferTxAsMessage(tx, env.baseFee);
    assert S64(0) == 0;
    assert IntrinsicCost(tx.data, false) == TX_GAS by {
      assert NonZero([]) == 0;
    }
    assert ValidateTransfer(m, env.cfg.bank, tx);
    assert Covered(m, msg) by {
      assert Fee(msg.gas, msg.feeCap) < 0;
    }
    assert Check(m, msg, env.baseFee, false).Done?;
  }

  /** So no accepted transfer costs its minter anything, exactly if the base fee is not read as negative. */
  lemma TipsNonNegativeIff(env: Env, i: nat, baseFee: Word)
    requires env.valid(i) && env.baseFee == S64(baseFee)
    ensures (forall tx, hasCode, m, left :: Accepts(env, i, tx, hasCode, m, left) ==> Tip(env, tx) >= 0)
            <==> baseFee < TWO63
  {
    hide S64, Accepts, Tip;
    SignOf(baseFee);
    if env.baseFee >= 0 {
      forall tx, hasCode, m, left | Accepts(env, i, tx, hasCode, m, left)
        ensures Tip(env, tx) >= 0
      {
        TipNonNegative(env, i, tx, hasCode, m, left);
      }
    } else {
      var from := env.cfg.bank + 1;
      NegativeTip(env, i, baseFee, from);
    }
  }

  lemma SignOf(x: Word)
    ensures S64(x) >= 0 <==> x < TWO63
  {
  }

  /**
   A value of 2^64 - 21000 is read as -21000: an empty account that sends it pays for its gas with
   a balance it does not have.
   */
  lemma NegativeBalance(env: Env, i: nat)
    requires env.valid(i) && env.baseFee == 1 && env.cfg.bank != 7
    ensures var tx := TransferTx(7, false, 0, TWO64 - 21000, 21000, 1, []);
            var msg := TransferTxAsMessage(tx, 1);
            && Accepts(env, i, tx, false, map[], 30000)
            && Get(AddBalance(map[], 7, -Fee(msg.gas, msg.price)), 7).balance == -21000
  {
    var tx := TransferTx(7, false, 0, TWO64 - 21000, 21000, 1, []);
    var msg := TransferTxAsMessage(tx, 1);
    assert msg.value == -21000 && msg.price == msg.feeCap == 1;
    assert IntrinsicCost(tx.data, false) == TX_GAS by {
      assert NonZero([]) == 0;
    }
    assert Check(map[], msg, 1, false).Done? && Covered(map[], msg);
    assert ValidateTransfer(map[], env.cfg.bank, tx);
  }

  /** An accepted transfer of less than 2^63 under a base fee below 2^63 leaves its sender a balance. */
  lemma BalanceNonNegative(env: Env, i: nat, tx: TransferTx, hasCode: bool, m: Accounts, left: nat)
    requires env.baseFee >= 0 && tx.value < TWO63 && Accepts(env, i, tx, hasCode, m, left)
    ensures var msg := TransferTxAsMessage(tx, env.baseFee);
            Get(AddBalance(m, msg.from, -Fee(msg.gas, msg.price)), msg.from).balance >= 0
  {
    hide Check, S64, Fee, Covered, AddBalance, Accepts, MinInt;
    AcceptedIsChecked(env, i, tx, hasCode, m, left);
    TransferBalanceIff(tx, env.baseFee);
  }

  /** What a transfer must satisfy for any account to send it: it could be accepted. */
  predicate Fits(env: Env, i: nat, tx: TransferTx) {
    && env.valid(i) && tx.from != env.cfg.bank && tx.nonce < MAX64 && |tx.data| <= 24 * 1024
    && S64(tx.gasPrice) >= env.baseFee
    && tx.gas >= IntrinsicCost(tx.data, tx.creates)
  }

  /** The transfer's gas at its own price. */
  function Cost(tx: TransferTx): int { Fee(tx.gas, tx.gasPrice) }

  /**
   The transfer cannot overdraw: its value is below 2^63, or value and gas together stay within a
   word, where the check on the balance's low word still catches what the signed one misses.
   */
  predicate CannotOverdraw(tx: TransferTx) {
    tx.value < TWO63 || (tx.value + Cost(tx) < TWO64 && !(tx.value == TWO63 && Cost(tx) == 0))
  }

  /** An account that just passes the signed check. */
  function LeastSender(tx: TransferTx): Accounts {
    map[tx.from := Account(Cost(tx) + tx.value - TWO64, 0, 0, tx.nonce)]
  }

  lemma LowWord(x: int)
    ensures 0 <= x ==> Low64(x) == x % TWO64 <= x
    ensures -TWO64 < x < 0 ==> Low64(x) == -x
  {
  }

  lemma ModWord(x: int)
    ensures (x + TWO64) % TWO64 == x % TWO64
    ensures 0 <= x < TWO64 ==> x % TWO64 == x
  {
  }

  /** Accepted with a non-negative base fee: the checks in numbers. */
  lemma AcceptedMeans(env: Env, i: nat, tx: TransferTx, hasCode: bool, m: Accounts, left: nat)
    requires env.baseFee >= 0 && Accepts(env, i, tx, hasCode, m, left)
    ensures Fits(env, i, tx) && tx.gasPrice < TWO63 && TransferTxAsMessage(tx, env.baseFee).price == tx.gasPrice
    ensures Get(m, tx.from).balance >= Cost(tx) + S64(tx.value)
    ensures Low64(Get(m, tx.from).balance) >= (tx.value + Cost(tx)) % TWO64
  {
    hide S64, IntrinsicCost, Low64;
    SignOf(tx.gasPrice);
    S64OfWord(tx.gasPrice);
  }

  lemma LeastAccepted(env: Env, i: nat, tx: TransferTx)
    requires env.baseFee >= 0 && Fits(env, i, tx) && !CannotOverdraw(tx)
    ensures Accepts(env, i, tx, false, LeastSender(tx), tx.gas)
  {
    hide S64, IntrinsicCost, Low64, Fee;
    var least := Cost(tx) + tx.value - TWO64;
    S64OfWord(tx.gasPrice);
    S64OfWord(tx.value);
    SignOf(tx.gasPrice);
    LowWord(least);
    ModWord(least);
    ModWord(tx.value + Cost(tx));
    CostIsProduct(tx);
    var msg := TransferTxAsMessage(tx, env.baseFee);
    assert Get(LeastSender(tx), tx.from).balance == least;
    assert ValidateTransfer(LeastSender(tx), env.cfg.bank, tx);
    assert Covered(LeastSender(tx), msg);
    assert Check(LeastSender(tx), msg, env.baseFee, false).Done?;
  }

  lemma CostIsProduct(tx: TransferTx)
    ensures Cost(tx) == tx.gas * tx.gasPrice >= 0
  {
  }

  /**
   Among the accounts from which a block accepts it, a transfer leaves a non-negative balance after
   its gas is bought, exactly if it cannot overdraw or is never accepted.
   */
  lemma AcceptedBalanceIff(env: Env, i: nat, tx: TransferTx)
    requires env.baseFee >= 0
    ensures (forall hasCode, m, left :: Accepts(env, i, tx, hasCode, m, left) ==>
               Get(AddBalance(m, tx.from, -Cost(tx)), tx.from).balance >= 0)
            <==> !Fits(env, i, tx) || CannotOverdraw(tx)
  {
    hide Accepts, Fits, Cost, Low64, S64;
    if Fits(env, i, tx) && !CannotOverdraw(tx) {
      LeastAccepted(env, i, tx);
      assert Get(AddBalance(LeastSender(tx), tx.from, -Cost(tx)), tx.from).balance == tx.value - TWO64 < 0;
    } else {
      forall hasCode, m, left | Accepts(env, i, tx, hasCode, m, left)
        ensures Get(AddBalance(m, tx.from, -Cost(tx)), tx.from).balance >= 0
      {
        AcceptedMeans(env, i, tx, hasCode, m, left);
        NotOverdrawn(tx, Get(m, tx.from).balance);
      }
    }
  }

  lemma NotOverdrawn(tx: TransferTx, balance: int)
    requires CannotOverdraw(tx) && balance >= Cost(tx) + S64(tx.value)
    requires Low64(balance) >= (tx.value + Cost(tx)) % TWO64
    ensures balance >= Cost(tx)
  {
    hide S64, Low64, Cost;
    S64OfWord(tx.value);
    CostIsProduct(tx);
    LowWord(balance);
    ModWord(tx.value + Cost(tx));
  }
}
