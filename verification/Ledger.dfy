/**
 Accounts and the coin supply. An account holds a balance, the stake that counts for the current
 epoch and the stake pending for the next one; amounts are big integers, but enter as 64-bit
 words through signed conversions.
 */
module Ledger {
  import opened Machine

  type Address = nat

  datatype Account = Account(balance: int, stake: int, pending: int, nonce: nat)

  type Accounts = map<Address, Account>

  const EMPTY: Account := Account(0, 0, 0, 0)

  /** An unsigned word read as a signed one: what int64(x) gives for a product or sum x of words. */
  function S64(x: int): (r: int)
    ensures -TWO63 <= r < TWO63
    ensures 0 <= x < TWO63 ==> r == x
  {
    var w := x % TWO64;
    if w < TWO63 then w else w - TWO64
  }

  /** The account at an address; a new address starts empty. */
  function Get(m: Accounts, a: Address): Account {
    if a in m then m[a] else EMPTY
  }

  function AddBalance(m: Accounts, a: Address, x: int): Accounts {
    m[a := Get(m, a).(balance := Get(m, a).balance + x)]
  }

  /** Everything an account owns. */
  function Worth(acc: Account): int { acc.balance + acc.stake + acc.pending }

  /** The coin supply: what all accounts own together. */
  ghost function Supply(m: Accounts): int
    decreases |m|
  {
    if m == map[] then 0
    else
      var a :| a in m;
      Worth(m[a]) + Supply(m - {a})
  }

  /** The supply does not depend on the order in which accounts are counted. */
  lemma {:induction false} SupplySplit(m: Accounts, a: Address)
    requires a in m
    ensures Supply(m) == Worth(m[a]) + Supply(m - {a})
    decreases |m|
  {
    var b :| b in m && Supply(m) == Worth(m[b]) + Supply(m - {b});
    if a != b {
      SupplySplit(m - {b}, a);
      SupplySplit(m - {a}, b);
      assert (m - {b}) - {a} == (m - {a}) - {b};
    }
  }

  /** Setting one account changes the supply by that account alone. */
  lemma SupplySet(m: Accounts, a: Address, acc: Account)
    ensures Supply(m[a := acc]) == Supply(m) - Worth(Get(m, a)) + Worth(acc)
  {
    SupplySplit(m[a := acc], a);
    assert m[a := acc] - {a} == m - {a};
    if a in m {
      SupplySplit(m, a);
    } else {
      assert m - {a} == m;
    }
  }

  lemma SupplyAdd(m: Accounts, a: Address, x: int)
    ensures Supply(AddBalance(m, a, x)) == Supply(m) + x
  {
    SupplySet(m, a, AddBalance(m, a, x)[a]);
  }

  /** Signed words add up exactly if and only if the sum is itself a signed word. */
  lemma S64Sum(a: int, b: int)
    ensures S64(a) + S64(b) == S64(a + b) <==> -TWO63 <= S64(a) + S64(b) < TWO63
  {
    var p, q, r := a % TWO64, b % TWO64, (a + b) % TWO64;
    assert r == p + q || r == p + q - TWO64 by {
      var ka, kb := a / TWO64, b / TWO64;
      assert a + b == TWO64 * (ka + kb) + (p + q);
      ModOf(a + b, ka + kb, p + q);
    }
  }

  lemma ModOf(x: int, k: int, s: int)
    requires x == TWO64 * k + s && 0 <= s < 2 * TWO64
    ensures x % TWO64 == (if s < TWO64 then s else s - TWO64)
  {
  }
}
