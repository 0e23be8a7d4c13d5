/** Account and its customer. Money is a whole number of cents. */
module Accounts {
  import opened Wrappers

  /** The customer behind an account: a name and the account number it was opened with.
      It has no setters, so it is a value. */
  datatype Customer = Customer(name: string, accountNumber: int)

  /** Why an account refused a deposit or a withdrawal. */
  datatype AccountError = InvalidAmount | InsufficientFunds

  /** A deposit or withdrawal request, as a value. */
  datatype Request = DepositReq(amount: int) | WithdrawReq(amount: int)

  /** The guard both operations apply: a positive amount, and for a withdrawal
      no more than the balance. */
  function Verdict(balance: int, req: Request): Outcome<AccountError> {
    if req.amount <= 0 then Fail(InvalidAmount)
    else if req.WithdrawReq? && balance < req.amount then Fail(InsufficientFunds)
    else Pass
  }

  /** The balance after a request; a refused request leaves it as it was.
      No accepted request takes a non-negative balance below zero. */
  function Settle(balance: int, req: Request): (b: int)
    ensures balance >= 0 ==> b >= 0
    ensures Verdict(balance, req).Fail? <==> b == balance
  {
    if Verdict(balance, req).Fail? then balance
    else match req
      case DepositReq(a) => balance + a
      case WithdrawReq(a) => balance - a
  }

  /** The balance after a sequence of requests, applied in order. */
  function Replay(balance: int, reqs: seq<Request>): int
    decreases reqs
  {
    if reqs == [] then balance else Replay(Settle(balance, reqs[0]), reqs[1..])
  }

  /** Starting from a non-negative balance (a new account has 0), no sequence
      of deposits and withdrawals makes it negative. */
  lemma {:induction false} ReplayNonNegative(balance: int, reqs: seq<Request>)
    requires balance >= 0
    ensures Replay(balance, reqs) >= 0
    decreases reqs
  {
    if reqs != [] {
      ReplayNonNegative(Settle(balance, reqs[0]), reqs[1..]);
    }
  }

  class Account {
    const accountNumber: int
    const customer: Customer
    var balance: int

    /** A new account has balance 0 and keeps the number and customer it is given. */
    constructor (accountNumber: int, customer: Customer)
      ensures this.accountNumber == accountNumber && this.customer == customer
      ensures balance == 0
    {
      this.accountNumber := accountNumber;
      this.customer := customer;
      balance := 0;
    }

    /** Adds a positive amount; refuses any other amount and changes nothing. */
    method Deposit(amount: int) returns (outcome: Outcome<AccountError>)
      modifies this
      ensures amount > 0 ==> outcome == Pass && balance == old(balance) + amount
      ensures amount <= 0 ==> outcome == Fail(InvalidAmount) && balance == old(balance)
      ensures outcome == Verdict(old(balance), DepositReq(amount))
      ensures balance == Settle(old(balance), DepositReq(amount))
    {
      if amount > 0 {
        balance := balance + amount;
        return Pass;
      }
      return Fail(InvalidAmount);
    }

    /** Takes a positive amount that the balance covers; refuses otherwise and changes nothing. */
    method Withdraw(amount: int) returns (outcome: Outcome<AccountError>)
      modifies this
      ensures amount <= 0 ==> outcome == Fail(InvalidAmount) && balance == old(balance)
      ensures 0 < amount && old(balance) < amount ==>
                outcome == Fail(InsufficientFunds) && balance == old(balance)
      ensures 0 < amount <= old(balance) ==> outcome == Pass && balance == old(balance) - amount
      ensures outcome == Verdict(old(balance), WithdrawReq(amount))
      ensures balance == Settle(old(balance), WithdrawReq(amount))
    {
      if amount <= 0 {
        return Fail(InvalidAmount);
      }
      if balance >= amount {
        balance := balance - amount;
        return Pass;
      }
      return Fail(InsufficientFunds);
    }

    /** The current balance. */
    function GetBalance(): (b: int)
      reads this
      ensures b == balance
    {
      balance
    }

    /** The customer given at construction; it cannot change afterwards. */
    function GetCustomer(): (c: Customer)
      ensures c == customer
    {
      customer
    }
  }
}
