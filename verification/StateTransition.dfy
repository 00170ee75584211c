/**
 Applying a message: gas is bought up front at the effective price, the EVM runs, unused and
 refunded gas is returned, and the block's minter is paid the tip. The EVM is a parameter of
 which only two things are assumed: it returns no more gas than it got, and it moves coins
 between balances without creating or destroying any.
 */
module StateTransition {
  import opened Machine
  import opened Ledger
  import opened StakeRegistry
  import opened GasPool

  const REFUND_QUOTIENT: nat := 5
  const TWO256: int := 0x1_0000000000000000_0000000000000000_0000000000000000_0000000000000000

  datatype Message = Message(from: Address, creates: bool, nonce: nat, value: int, gas: nat,
                             price: int, feeCap: int, tip: int, data: seq<nat>)

  datatype Error =
    | NonceTooHigh | NonceTooLow | NonceMax | SenderNoEOA | FeeCapVeryHigh | TipVeryHigh
    | TipAboveFeeCap | FeeCapTooLow | InsufficientFunds | GasLimitReached | GasUintOverflow | IntrinsicGasError

  datatype Outcome = Done(used: nat, failed: bool) | Rejected(error: Error)

  datatype EvmOut = EvmOut(accounts: Accounts, gasLeft: nat, refund: nat, failed: bool)

  type Evm = (Accounts, nat) -> EvmOut

  /** What is assumed of the EVM. */
  ghost predicate Sound(evm: Evm) {
    forall m, g ::
      && evm(m, g).gasLeft <= g
      && Supply(evm(m, g).accounts) == Supply(m)
      && SameStakes(m, evm(m, g).accounts)
  }

  /** An EVM that does nothing is one. */
  lemma IdleIsSound()
    ensures Sound((m: Accounts, g: nat) => EvmOut(m, g, 0, false))
  {
  }

  /** Gas in coins. */
  function Fee(gas: int, price: int): int { gas * price }

  function MinInt(a: int, b: int): int { if a < b then a else b }

  datatype TransferTx = TransferTx(from: Address, creates: bool, nonce: Word, value: Word, gas: Word,
                                   gasPrice: Word, data: seq<nat>)

  /**
   A transfer as a message: amounts as signed words. The one price field of a transfer is both
   its fee cap and its tip cap, and the effective price is capped by it.
   */
  function TransferTxAsMessage(tx: TransferTx, baseFee: int): Message {
    var cap := S64(tx.gasPrice);
    Message(tx.from, tx.creates, tx.nonce, S64(tx.value), tx.gas, MinInt(cap + baseFee, cap), cap, cap, tx.data)
  }

  /** The price a message pays is the effective one under the given base fee. */
  predicate Priced(msg: Message, baseFee: int) {
    msg.price == MinInt(msg.tip + baseFee, msg.feeCap)
  }

  predicate BitsFit(x: int) { x < TWO256 && -x < TWO256 }

  /** The checks before gas is bought, in the order they are made. */
  function Check(m: Accounts, msg: Message, baseFee: int, hasCode: bool): Outcome {
    var nonce := Get(m, msg.from).nonce;
    if nonce < msg.nonce then Rejected(NonceTooHigh)
    else if nonce > msg.nonce then Rejected(NonceTooLow)
    else if nonce >= MAX64 then Rejected(NonceMax)
    else if hasCode then Rejected(SenderNoEOA)
    else if !BitsFit(msg.feeCap) then Rejected(FeeCapVeryHigh)
    else if !BitsFit(msg.tip) then Rejected(TipVeryHigh)
    else if msg.feeCap < msg.tip then Rejected(TipAboveFeeCap)
    else if msg.feeCap < baseFee then Rejected(FeeCapTooLow)
    else Done(0, false)
  }

  predicate Covered(m: Accounts, msg: Message) {
    Get(m, msg.from).balance >= Fee(msg.gas, msg.feeCap) + msg.value
  }

  /** Whether a message is refused, and why, in a block with this much gas left. */
  function Verdict(m: Accounts, msg: Message, baseFee: int, hasCode: bool, left: nat): Outcome {
    var cost := IntrinsicCost(msg.data, msg.creates);
    if Check(m, msg, baseFee, hasCode).Rejected? then Check(m, msg, baseFee, hasCode)
    else if !Covered(m, msg) then Rejected(InsufficientFunds)
    else if left < msg.gas then Rejected(GasLimitReached)
    else if cost > MAX64 then Rejected(GasUintOverflow)
    else if msg.gas < cost then Rejected(IntrinsicGasError)
    else Done(0, false)
  }

  function SetNonce(m: Accounts, a: Address, n: nat): Accounts {
    m[a := Get(m, a).(nonce := n)]
  }

  /** The accounts as the EVM gets them: gas paid for, and the nonce used unless a contract is created. */
  function Prepaid(m: Accounts, msg: Message): Accounts {
    var paid := AddBalance(m, msg.from, -Fee(msg.gas, msg.price));
    if msg.creates then paid else SetNonce(paid, msg.from, Get(paid, msg.from).nonce + 1)
  }

  /** The refund granted for gas used: what the EVM counted, at most a fifth. */
  function Refund(used: nat, counter: nat): (r: nat)
    ensures r * REFUND_QUOTIENT <= used
  {
    if used / REFUND_QUOTIENT > counter then counter else used / REFUND_QUOTIENT
  }

  function EffectiveTip(msg: Message, baseFee: int): int {
    MinInt(msg.tip, msg.feeCap - baseFee)
  }

  /** The accounts after gas is returned and the minter is paid. */
  function Settled(m: Accounts, msg: Message, baseFee: int, minter: Address, used: nat): Accounts {
    AddBalance(AddBalance(m, msg.from, Fee(msg.gas - used, msg.price)), minter, Fee(used, EffectiveTip(msg, baseFee)))
  }

  /** A message has been applied: the EVM ran on the gas left after the intrinsic cost, and was settled. */
  ghost predicate Applied(m: Accounts, evm: Evm, msg: Message, baseFee: int, minter: Address, r: Outcome, m': Accounts)
    requires r.Done?
  {
    var cost := IntrinsicCost(msg.data, msg.creates);
    && cost <= msg.gas
    && var out := evm(Prepaid(m, msg), msg.gas - cost);
       && out.gasLeft <= msg.gas
       && r == Done(msg.gas - out.gasLeft - Refund(msg.gas - out.gasLeft, out.refund), out.failed)
       && m' == Settled(out.accounts, msg, baseFee, minter, r.used)
  }

  /** The accounts the EVM gets: the sender has paid for all gas, and used a nonce unless a contract is created. */
  ghost predicate Begun(m: Accounts, msg: Message, start: Accounts) {
    && start.Keys == m.Keys + {msg.from}
    && forall a ::
         && Get(start, a).balance == Get(m, a).balance - (if a == msg.from then Fee(msg.gas, msg.price) else 0)
         && Get(start, a).nonce == Get(m, a).nonce + (if a == msg.from && !msg.creates then 1 else 0)
         && Get(start, a).stake == Get(m, a).stake && Get(start, a).pending == Get(m, a).pending
  }

  /** What is left behind: the accounts as the EVM left them, with the unused gas returned and the minter paid. */
  ghost predicate Ended(out: Accounts, msg: Message, baseFee: int, minter: Address, used: nat, m': Accounts) {
    && m'.Keys == out.Keys + {msg.from, minter}
    && forall a ::
         && Get(m', a).balance == Get(out, a).balance
                                  + (if a == msg.from then Fee(msg.gas - used, msg.price) else 0)
                                  + (if a == minter then Fee(used, msg.price - baseFee) else 0)
         && Get(m', a).nonce == Get(out, a).nonce
         && Get(m', a).stake == Get(out, a).stake && Get(m', a).pending == Get(out, a).pending
  }

  function Least(a: nat, b: nat): nat { if a <= b then a else b }

  /**
   From these accounts on, the EVM ran on the gas that the intrinsic cost left, the gas it did not use
   and a refund of what it counted, at most a fifth, went back, and the rest is the gas used.
   */
  ghost predicate EndsFrom(start: Accounts, evm: Evm, msg: Message, baseFee: int, minter: Address, r: Outcome,
                           m': Accounts)
  {
    var cost := IntrinsicCost(msg.data, msg.creates);
    && cost <= msg.gas
    && var out := evm(start, msg.gas - cost);
       && out.gasLeft <= msg.gas
       && r == Done(msg.gas - out.gasLeft - Least(out.refund, (msg.gas - out.gasLeft) / 5), out.failed)
       && Ended(out.accounts, msg, baseFee, minter, r.used, m')
  }

  lemma SoundGas(evm: Evm, m: Accounts, g: nat)
    requires Sound(evm)
    ensures evm(m, g).gasLeft <= g
    ensures Supply(evm(m, g).accounts) == Supply(m)
    ensures SameStakes(m, evm(m, g).accounts)
  {
  }

  lemma CheckPasses(m: Accounts, msg: Message, baseFee: int, hasCode: bool)
    ensures Check(m, msg, baseFee, hasCode).Done? ==> Check(m, msg, baseFee, hasCode) == Done(0, false)
    ensures Check(m, msg, baseFee, hasCode).Done? ==> msg.feeCap >= msg.tip && msg.feeCap >= baseFee
  {
  }

  // ---------- the transition object ----------

  class Transition {
    const db: StateDB
    const gp: Pool
    const msg: Message
    const baseFee: int
    const minter: Address
    var gas: nat
    var initialGas: nat

    constructor (db: StateDB, gp: Pool, msg: Message, baseFee: int, minter: Address)
      ensures this.db == db && this.gp == gp && this.msg == msg
      ensures this.baseFee == baseFee && this.minter == minter && gas == 0 && initialGas == 0
    {
      this.db, this.gp, this.msg, this.baseFee, this.minter := db, gp, msg, baseFee, minter;
      gas, initialGas := 0, 0;
    }

    /** Buys the message's gas if the sender can cover it at the fee cap and the block has it. */
    method BuyGas() returns (r: Outcome)
      requires gas == 0
      modifies this, db, gp
      ensures r.Done? ==>
                && Covered(old(db.accounts), msg)
                && Get(db.accounts, msg.from).balance >= Fee(msg.gas, msg.feeCap) + msg.value - Fee(msg.gas, msg.price)
                && db.accounts == AddBalance(old(db.accounts), msg.from, -Fee(msg.gas, msg.price))
                && gp.gas == old(gp.gas) - msg.gas && gas == initialGas == msg.gas
      ensures r.Rejected? ==> db.accounts == old(db.accounts) && gp.gas == old(gp.gas)
      ensures r.Rejected? ==>
                r == Rejected(if Covered(old(db.accounts), msg) then GasLimitReached else InsufficientFunds)
      ensures r.Done? <==> Covered(old(db.accounts), msg) && old(gp.gas) >= msg.gas
    {
      var mgval := Fee(msg.gas, msg.price);
      var balanceCheck := Fee(msg.gas, msg.feeCap) + msg.value;
      if Get(db.accounts, msg.from).balance < balanceCheck {
        return Rejected(InsufficientFunds);
      }
      var ok := gp.SubGas(msg.gas);
      if !ok {
        return Rejected(GasLimitReached);
      }
      gas := gas + msg.gas;
      initialGas := msg.gas;
      db.accounts := AddBalance(db.accounts, msg.from, -mgval);
      r := Done(0, false);
    }

    /** Returns unused gas, with the refund, to the sender and to the block. */
    method RefundGas(counter: nat)
      requires gas <= initialGas && initialGas + gp.gas <= MAX64
      modifies this, db, gp
      ensures initialGas == old(initialGas)
      ensures gas == old(gas) + Refund(old(initialGas - gas), counter) <= initialGas
      ensures db.accounts == AddBalance(old(db.accounts), msg.from, Fee(gas, msg.price))
      ensures gp.gas == old(gp.gas) + gas
    {
      // Apply refund counter, capped to a refund quotient
      var refund := (initialGas - gas) / REFUND_QUOTIENT;
      if refund > counter {
        refund := counter;
      }
      gas := gas + refund;
      // Return coins for remaining gas, exchanged at the original rate.
      db.accounts := AddBalance(db.accounts, msg.from, Fee(gas, msg.price));
      // Also return remaining gas to the block gas counter so it is available for the next transaction.
      gp.AddGas(gas);
    }

    /**
     Applies the message, or refuses it for the first reason that applies. On success the accounts
     are those the EVM left, plus the returned gas for the sender and the tip for the minter, and
     the block's gas went down by the gas used.
     */
    method TransitionDb(evm: Evm, hasCode: bool) returns (r: Outcome)
      requires gas == 0 && gp.gas <= MAX64 && Sound(evm) && Priced(msg, baseFee)
      modifies this, db, gp
      ensures var verdict := Verdict(old(db.accounts), msg, baseFee, hasCode, old(gp.gas));
              if verdict.Rejected? then r == verdict else r.Done?
      ensures r.Done? ==>
                && Applied(old(db.accounts), evm, msg, baseFee, minter, r, db.accounts)
                && gp.gas == old(gp.gas) - r.used
      ensures r.Done? ==>
                exists start :: Begun(old(db.accounts), msg, start)
                                && EndsFrom(start, evm, msg, baseFee, minter, r, db.accounts)
    {
      hide Supply, Fee, IntrinsicCost, Check, Sound, AddBalance, Begun, EndsFrom;
      r := Check(db.accounts, msg, baseFee, hasCode);
      if r.Rejected? {
        return;
      }
      CheckPasses(db.accounts, msg, baseFee, hasCode);
      r := BuyGas();
      if r.Rejected? {
        return;
      }
      var cost, ok := IntrinsicGas(msg.data, msg.creates);
      if !ok {
        return Rejected(GasUintOverflow);
      }
      if gas < cost {
        return Rejected(IntrinsicGasError);
      }
      gas := gas - cost;
      // the sender can still cover the value: the check for the topmost call never fails here
      TransferCovered(old(db.accounts), msg);
      assert Get(db.accounts, msg.from).balance >= msg.value;
      r := Execute(evm);
      ghost var start := AppliedExact(old(db.accounts), evm, msg, baseFee, minter, r, db.accounts);
    }

    /** Runs the EVM on the gas that is left, then settles with sender, block and minter. */
    method Execute(evm: Evm) returns (r: Outcome)
      requires gas <= initialGas == msg.gas && gp.gas + msg.gas <= MAX64 && Sound(evm)
      modifies this, db, gp
      ensures var start := if msg.creates then old(db.accounts)
                           else SetNonce(old(db.accounts), msg.from, Get(old(db.accounts), msg.from).nonce + 1);
              var out := evm(start, old(gas));
              && out.gasLeft <= msg.gas
              && r == Done(msg.gas - out.gasLeft - Refund(msg.gas - out.gasLeft, out.refund), out.failed)
              && db.accounts == Settled(out.accounts, msg, baseFee, minter, r.used)
              && gp.gas == old(gp.gas) + msg.gas - r.used
    {
      hide Supply, Fee, Sound, AddBalance, SetNonce;
      if !msg.creates {
        db.accounts := SetNonce(db.accounts, msg.from, Get(db.accounts, msg.from).nonce + 1);
      }
      SoundGas(evm, db.accounts, gas);
      var out := evm(db.accounts, gas);
      db.accounts := out.accounts;
      gas := out.gasLeft;
      RefundGas(out.refund);
      var used := initialGas - gas;
      db.accounts := AddBalance(db.accounts, minter, Fee(used, EffectiveTip(msg, baseFee)));
      r := Done(used, out.failed);
    }
  }

  // ---------- what it comes to ----------

  /** The reasons to refuse a message, in the order they count. */
  const REASONS: seq<Error> := [
    NonceTooHigh, NonceTooLow, NonceMax, SenderNoEOA, FeeCapVeryHigh, TipVeryHigh, TipAboveFeeCap, FeeCapTooLow,
    InsufficientFunds, GasLimitReached, GasUintOverflow, IntrinsicGasError]

  predicate Fault(e: Error, m: Accounts, msg: Message, baseFee: int, hasCode: bool, left: nat) {
    var acc := Get(m, msg.from);
    match e
    case NonceTooHigh => msg.nonce > acc.nonce
    case NonceTooLow => msg.nonce < acc.nonce
    case NonceMax => acc.nonce + 1 >= TWO64
    case SenderNoEOA => hasCode
    case FeeCapVeryHigh => !(-TWO256 < msg.feeCap < TWO256)
    case TipVeryHigh => !(-TWO256 < msg.tip < TWO256)
    case TipAboveFeeCap => msg.tip > msg.feeCap
    case FeeCapTooLow => baseFee > msg.feeCap
    case InsufficientFunds => acc.balance - msg.value < msg.gas * msg.feeCap
    case GasLimitReached => msg.gas > left
    case GasUintOverflow => IntrinsicCost(msg.data, msg.creates) >= TWO64
    case IntrinsicGasError => IntrinsicCost(msg.data, msg.creates) > msg.gas
  }

  /** A message is refused for the first reason there is, and accepted if there is none. */
  lemma FirstReason(m: Accounts, msg: Message, baseFee: int, hasCode: bool, left: nat, i: nat)
    requires i < |REASONS|
    ensures Verdict(m, msg, baseFee, hasCode, left) == Rejected(REASONS[i]) <==>
            && Fault(REASONS[i], m, msg, baseFee, hasCode, left)
            && forall k :: 0 <= k < i ==> !Fault(REASONS[k], m, msg, baseFee, hasCode, left)
    ensures Verdict(m, msg, baseFee, hasCode, left).Done? <==>
            forall e :: !Fault(e, m, msg, baseFee, hasCode, left)
  {
    hide IntrinsicCost;
    var v := Verdict(m, msg, baseFee, hasCode, left);
    assert v.Rejected? ==> Fault(v.error, m, msg, baseFee, hasCode, left);
    assert REASONS[0] == NonceTooHigh && REASONS[1] == NonceTooLow && REASONS[2] == NonceMax;
    assert REASONS[3] == SenderNoEOA && REASONS[4] == FeeCapVeryHigh && REASONS[5] == TipVeryHigh;
    assert REASONS[6] == TipAboveFeeCap && REASONS[7] == FeeCapTooLow && REASONS[8] == InsufficientFunds;
    assert REASONS[9] == GasLimitReached && REASONS[10] == GasUintOverflow && REASONS[11] == IntrinsicGasError;
  }

  lemma PriceBelowCap(gas: nat, price: int, cap: int)
    requires price <= cap
    ensures Fee(gas, price) <= Fee(gas, cap)
  {
  }

  /** A sender who could cover gas at the fee cap and the value can still cover the value after paying. */
  lemma TransferCovered(m: Accounts, msg: Message)
    requires msg.price <= msg.feeCap
    requires Covered(m, msg)
    ensures Get(AddBalance(m, msg.from, -Fee(msg.gas, msg.price)), msg.from).balance >= msg.value
  {
    PriceBelowCap(msg.gas, msg.price, msg.feeCap);
  }

  /** The tip is what the price leaves above the base fee. */
  lemma TipIsPriceAboveBase(msg: Message, baseFee: int)
    requires Priced(msg, baseFee)
    ensures EffectiveTip(msg, baseFee) == msg.price - baseFee
  {
  }

  /**
   Buying gas leaves every sender who passes the balance check with a non-negative balance,
   exactly if the check asks for at least what the gas costs.
   */
  lemma BalanceAfterBuyingIff(msg: Message)
    ensures (forall m :: Covered(m, msg) ==>
               Get(AddBalance(m, msg.from, -Fee(msg.gas, msg.price)), msg.from).balance >= 0)
            <==> Fee(msg.gas, msg.feeCap) + msg.value >= Fee(msg.gas, msg.price)
  {
    hide Fee;
    var least := map[msg.from := Account(Fee(msg.gas, msg.feeCap) + msg.value, 0, 0, 0)];
    assert Covered(least, msg);
    assert Get(AddBalance(least, msg.from, -Fee(msg.gas, msg.price)), msg.from).balance
        == Fee(msg.gas, msg.feeCap) + msg.value - Fee(msg.gas, msg.price);
  }

  /** For a transfer under a base fee that is not negative: exactly if its value is below 2^63. */
  lemma TransferBalanceIff(tx: TransferTx, baseFee: int)
    ensures var msg := TransferTxAsMessage(tx, baseFee);
            (forall m :: Covered(m, msg) ==>
               Get(AddBalance(m, msg.from, -Fee(msg.gas, msg.price)), msg.from).balance >= 0)
            <==> S64(tx.value) >= Fee(tx.gas, MinInt(baseFee, 0))
    ensures baseFee >= 0 ==> (S64(tx.value) >= Fee(tx.gas, MinInt(baseFee, 0)) <==> tx.value < TWO63)
  {
    hide Fee, S64, Covered, AddBalance;
    BalanceAfterBuyingIff(TransferTxAsMessage(tx, baseFee));
    FeeSplit(tx.gas, S64(tx.gasPrice), MinInt(baseFee, 0));
    S64OfWord(tx.value);
  }

  lemma FeeSplit(gas: int, price: int, more: int)
    ensures Fee(gas, price + more) == Fee(gas, price) + Fee(gas, more) && Fee(gas, 0) == 0
  {
  }

  /** The minter's tip from a checked transfer is negative exactly if base fee and price are both read as negative. */
  lemma TransferTipIff(m: Accounts, tx: TransferTx, baseFee: int, hasCode: bool)
    requires Check(m, TransferTxAsMessage(tx, baseFee), baseFee, hasCode).Done?
    ensures EffectiveTip(TransferTxAsMessage(tx, baseFee), baseFee) >= 0 <==> baseFee >= 0 || tx.gasPrice < TWO63
  {
    hide S64;
    S64OfWord(tx.gasPrice);
  }

  /** Gas bought, less gas returned, is the gas used at the price; the tip is that less the base fee. */
  lemma GasMoney(gas: nat, used: nat, price: int, baseFee: int)
    ensures -Fee(gas, price) + Fee(gas - used, price) == -Fee(used, price)
    ensures Fee(used, price - baseFee) == Fee(used, price) - Fee(used, baseFee)
  {
  }

  /**
   What an applied message costs. Beyond what the EVM moved, the sender pays exactly the gas used
   at the price, the minter gets exactly the gas used at price minus base fee, and nobody else is
   touched; all of this also when the sender is the minter.
   */
  lemma FeesExact(m: Accounts, evm: Evm, msg: Message, baseFee: int, minter: Address, r: Outcome, m': Accounts,
                  a: Address)
    requires Priced(msg, baseFee) && r.Done? && Applied(m, evm, msg, baseFee, minter, r, m')
    ensures var start := Prepaid(m, msg);
            var out := evm(start, msg.gas - IntrinsicCost(msg.data, msg.creates)).accounts;
            Get(m', a).balance - Get(m, a).balance
            == (Get(out, a).balance - Get(start, a).balance)
               - (if a == msg.from then Fee(r.used, msg.price) else 0)
               + (if a == minter then Fee(r.used, msg.price - baseFee) else 0)
  {
    hide Supply, Fee, EffectiveTip, IntrinsicCost;
    TipIsPriceAboveBase(msg, baseFee);
    GasMoney(msg.gas, r.used, msg.price, baseFee);
  }

  /** What an applied message does to every account, before and after the EVM. */
  lemma AppliedExact(m: Accounts, evm: Evm, msg: Message, baseFee: int, minter: Address, r: Outcome, m': Accounts)
    returns (start: Accounts)
    requires Priced(msg, baseFee) && r.Done? && Applied(m, evm, msg, baseFee, minter, r, m')
    ensures Begun(m, msg, start) && EndsFrom(start, evm, msg, baseFee, minter, r, m')
  {
    hide Supply, Fee, EffectiveTip, IntrinsicCost, Priced;
    TipIsPriceAboveBase(msg, baseFee);
    start := Prepaid(m, msg);
  }

  /**
   With an EVM that does not lower the sender's nonce, the sender's nonce has passed the message's,
   exactly if no contract is created or the EVM raised it. Such a message is refused from then on.
   */
  lemma SpentIff(m: Accounts, evm: Evm, msg: Message, baseFee: int, minter: Address, r: Outcome, m': Accounts)
    returns (start: Accounts)
    requires Priced(msg, baseFee) && r.Done? && Applied(m, evm, msg, baseFee, minter, r, m')
    requires Get(m, msg.from).nonce == msg.nonce
    requires forall n, g :: Get(evm(n, g).accounts, msg.from).nonce >= Get(n, msg.from).nonce
    ensures Begun(m, msg, start) && IntrinsicCost(msg.data, msg.creates) <= msg.gas
    ensures var out := evm(start, msg.gas - IntrinsicCost(msg.data, msg.creates)).accounts;
            Get(m', msg.from).nonce > msg.nonce
            <==> !msg.creates || Get(out, msg.from).nonce > Get(start, msg.from).nonce
  {
    hide Supply, Fee, EffectiveTip, IntrinsicCost, Priced, Applied;
    start := AppliedExact(m, evm, msg, baseFee, minter, r, m');
  }

  /** The supply shrinks by the base fee of the gas used, and nothing else. */
  lemma AppliedSupply(m: Accounts, evm: Evm, msg: Message, baseFee: int, minter: Address, r: Outcome, m': Accounts)
    requires Sound(evm) && Priced(msg, baseFee) && r.Done? && Applied(m, evm, msg, baseFee, minter, r, m')
    ensures Supply(m') == Supply(m) - Fee(r.used, baseFee)
  {
    hide Supply, Fee, EffectiveTip, Sound, SameStakes, IntrinsicCost, AddBalance, Priced;
    PrepaidSupply(m, msg);
    var gas := msg.gas - IntrinsicCost(msg.data, msg.creates);
    SoundGas(evm, Prepaid(m, msg), gas);
    var out := evm(Prepaid(m, msg), gas).accounts;
    SupplyAdd(out, msg.from, Fee(msg.gas - r.used, msg.price));
    var returned := AddBalance(out, msg.from, Fee(msg.gas - r.used, msg.price));
    SupplyAdd(returned, minter, Fee(r.used, EffectiveTip(msg, baseFee)));
    TipIsPriceAboveBase(msg, baseFee);
    GasMoney(msg.gas, r.used, msg.price, baseFee);
  }

  lemma PrepaidSupply(m: Accounts, msg: Message)
    ensures Supply(Prepaid(m, msg)) == Supply(m) - Fee(msg.gas, msg.price)
  {
    hide Supply, Fee;
    var paid := AddBalance(m, msg.from, -Fee(msg.gas, msg.price));
    SupplyAdd(m, msg.from, -Fee(msg.gas, msg.price));
    SupplySet(paid, msg.from, Get(paid, msg.from).(nonce := Get(paid, msg.from).nonce + 1));
  }

  /** Applying a message changes no stake. */
  lemma AppliedStakes(m: Accounts, evm: Evm, msg: Message, baseFee: int, minter: Address, r: Outcome, m': Accounts)
    requires Sound(evm) && r.Done? && Applied(m, evm, msg, baseFee, minter, r, m')
    ensures SameStakes(m, m')
  {
    hide Supply, Fee, EffectiveTip, Sound, IntrinsicCost;
    var paid := Prepaid(m, msg);
    SoundGas(evm, paid, msg.gas - IntrinsicCost(msg.data, msg.creates));
    var out := evm(paid, msg.gas - IntrinsicCost(msg.data, msg.creates)).accounts;
    forall a
      ensures Get(m', a).stake == Get(m, a).stake && Get(m', a).pending == Get(m, a).pending
    {
      assert Get(out, a).stake == Get(paid, a).stake && Get(out, a).pending == Get(paid, a).pending;
    }
  }
}
