/** Accounts, balances and the refund counter as the state transition sees them.

    Balances are 256-bit words: `AddBalance` and `SubBalance` wrap, as the
    source's arithmetic does.  `Total` is the reference quantity that the
    conservation theorems speak about; it is a plain unbounded sum. */
module Ledger {
  import opened Common

  const TWO_256: nat :=
    0x1_0000_0000_0000_0000_0000_0000_0000_0000_0000_0000_0000_0000_0000_0000_0000_0000

  type uint256 = x: int | 0 <= x < TWO_256

  // Machine arithmetic: the operands are in range, so one correction wraps the result.

  function Add256(x: uint256, y: uint256): uint256 { if x + y < TWO_256 then x + y else x + y - TWO_256 }

  function Sub256(x: uint256, y: uint256): uint256 { if y <= x then x - y else x - y + TWO_256 }

  function Mul256(x: uint256, y: uint256): uint256 { (x * y) % TWO_256 }

  lemma MulExact(x: uint256, y: uint256)
    requires x * y < TWO_256
    ensures Mul256(x, y) == x * y
  {
  }

  /** 20-byte account addresses, read as numbers; only equality and zero matter. */
  type Address = nat

  /** Account code: absent, an EIP-7702 delegation designator, or any other code. */
  datatype Code = NoCode | Delegation(target: Address) | Contract(codeHash: nat)

  datatype Account = Account(balance: uint256, nonce: uint64, code: Code)

  type Accounts = map<Address, Account>

  /** The intra-block state: accounts plus the transaction's refund counter. */
  datatype State = State(accounts: Accounts, refund: uint64)

  /** Reading an account that does not exist yields zero values. */
  function Get(m: Accounts, a: Address): Account {
    if a in m then m[a] else Account(0, 0, NoCode)
  }

  function Balance(m: Accounts, a: Address): uint256 {
    Get(m, a).balance
  }

  function SetBalance(m: Accounts, a: Address, v: uint256): Accounts {
    m[a := Get(m, a).(balance := v)]
  }

  function AddBalance(m: Accounts, a: Address, x: uint256): Accounts {
    SetBalance(m, a, Add256(Balance(m, a), x))
  }

  /** Subtracting zero does not create the account. */
  function SubBalance(m: Accounts, a: Address, x: uint256): Accounts {
    if x == 0 then m else SetBalance(m, a, Sub256(Balance(m, a), x))
  }

  ghost function Total(m: Accounts): nat
    decreases |m|
  {
    if m == map[] then 0 else
      var a :| a in m;
      m[a].balance + Total(m - {a})
  }

  /** The sum does not depend on the order in which accounts are visited. */
  lemma {:induction false} TotalPick(m: Accounts, a: Address)
    requires a in m
    ensures Total(m) == m[a].balance + Total(m - {a})
    decreases |m|
  {
    var b :| b in m && Total(m) == m[b].balance + Total(m - {b});
    if a != b {
      TotalPick(m - {b}, a);
      TotalPick(m - {a}, b);
      assert m - {b} - {a} == m - {a} - {b};
    }
  }

  /** Replacing one account's balance moves the total by exactly the difference. */
  lemma {:induction false} TotalUpdate(m: Accounts, a: Address, acc: Account)
    ensures Total(m[a := acc]) == Total(m) - Balance(m, a) + acc.balance
  {
    var m' := m[a := acc];
    TotalPick(m', a);
    if a in m {
      TotalPick(m, a);
      assert m' - {a} == m - {a};
    } else {
      assert m' - {a} == m;
    }
  }

  lemma BalanceAtMostTotal(m: Accounts, a: Address)
    ensures Balance(m, a) <= Total(m)
  {
    if a in m { TotalPick(m, a); }
  }

  /** A credit that keeps the supply below 2^256 does not wrap and is conserved. */
  lemma CreditTotal(m: Accounts, a: Address, x: uint256)
    requires Total(m) + x < TWO_256
    ensures Balance(AddBalance(m, a, x), a) == Balance(m, a) + x
    ensures Total(AddBalance(m, a, x)) == Total(m) + x
  {
    BalanceAtMostTotal(m, a);
    TotalUpdate(m, a, Get(m, a).(balance := Add256(Balance(m, a), x)));
  }

  /** A debit covered by the balance does not wrap and is conserved. */
  lemma DebitTotal(m: Accounts, a: Address, x: uint256)
    requires x <= Balance(m, a)
    ensures Balance(SubBalance(m, a, x), a) == Balance(m, a) - x
    ensures Total(SubBalance(m, a, x)) == Total(m) - x
  {
    if x != 0 {
      TotalUpdate(m, a, Get(m, a).(balance := Sub256(Balance(m, a), x)));
    }
  }

  /** A debit wraps exactly if the balance does not cover it. */
  lemma DebitWraps(m: Accounts, a: Address, x: uint256)
    ensures Total(SubBalance(m, a, x)) == Total(m) - x + if x <= Balance(m, a) then 0 else TWO_256
  {
    if x != 0 {
      TotalUpdate(m, a, Get(m, a).(balance := Sub256(Balance(m, a), x)));
    }
  }

  /** Credits commute, whatever the aliasing and even when they wrap. */
  lemma CreditsCommute(m: Accounts, a: Address, x: uint256, b: Address, y: uint256)
    ensures AddBalance(AddBalance(m, a, x), b, y) == AddBalance(AddBalance(m, b, y), a, x)
  {
    if a != b {
      assert AddBalance(AddBalance(m, a, x), b, y) == AddBalance(AddBalance(m, b, y), a, x);
    }
  }
}
