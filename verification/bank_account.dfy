/** The shop's bank account. The Java class holds a `double`; every amount the shop moves
    is a whole number of dollars, so the balance is an integer here. */
module BankAccounts {

  datatype Account = Account(balance: int)

  /** Opens an account holding the initial balance. */
  function Open(initialBalance: int): (a: Account)
    ensures a.balance == initialBalance
  {
    Account(initialBalance)
  }

  /** Adds the amount to the balance, unconditionally. */
  function Deposit(a: Account, amount: int): (r: Account)
    ensures r.balance - a.balance == amount
  {
    Account(a.balance + amount)
  }

  /** Takes the amount out when the balance covers it; otherwise the withdrawal is refused
      and the account is left as it was. */
  function Withdraw(a: Account, amount: int): (r: Account)
    ensures a.balance >= amount ==> a.balance - r.balance == amount
    ensures a.balance < amount ==> r == a
    ensures a.balance >= 0 ==> r.balance >= 0
  {
    if a.balance >= amount then Account(a.balance - amount) else a
  }

  /** A withdrawal of what was just deposited restores a non-negative account. */
  lemma DepositThenWithdraw(a: Account, amount: int)
    requires a.balance >= 0
    ensures Withdraw(Deposit(a, amount), amount) == a
  {
  }
}
