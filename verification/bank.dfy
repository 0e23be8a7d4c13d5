/** The banking system's account registry (the static map of its Main class),
    with the validators and the open / deposit / withdraw / balance requests.
    Each request's input values are parameters. */
module Banking {
  import opened Wrappers
  import opened JavaString
  import opened Accounts

  // ---------------------------------------------------------------------------
  // Validators
  // ---------------------------------------------------------------------------

  /** An account number is valid when its decimal rendering has 16 characters. */
  predicate IsValidAccountNumber(n: int) {
    DecimalLength(n) == 16
  }

  /** The valid numbers are those with 16 digits, and, because the minus sign
      counts as a character, the negative ones with 15 digits. */
  lemma ValidAccountNumberRange(n: int)
    ensures IsValidAccountNumber(n) <==>
              (1_000_000_000_000_000 <= n <= 9_999_999_999_999_999) ||
              (-999_999_999_999_999 <= n <= -100_000_000_000_000)
  {
    assert Pow10(14) == 100_000_000_000_000;
    assert Pow10(15) == 1_000_000_000_000_000;
    assert Pow10(16) == 10_000_000_000_000_000;
    if n < 0 {
      DigitCountRange(-n, 15);
    } else {
      DigitCountRange(n, 16);
    }
  }

  predicate IsAsciiLetter(c: char) {
    'a' <= c <= 'z' || 'A' <= c <= 'Z'
  }

  /** One character of the pattern `[a-zA-Z ]`. */
  predicate IsNameChar(c: char) {
    IsAsciiLetter(c) || c == ' '
  }

  /** The whole string matches `[a-zA-Z ]+`. */
  predicate MatchesNamePattern(s: string) {
    |s| > 0 && forall i :: 0 <= i < |s| ==> IsNameChar(s[i])
  }

  /** A name is valid when it is not blank after trimming and matches `[a-zA-Z ]+`. */
  predicate IsValidName(name: string) {
    !IsBlank(name) && MatchesNamePattern(name)
  }

  /** A valid name is made of ASCII letters and spaces and has at least one letter. */
  lemma ValidNameIff(name: string)
    ensures IsValidName(name) <==>
              (forall i :: 0 <= i < |name| ==> IsNameChar(name[i])) &&
              (exists i :: 0 <= i < |name| && IsAsciiLetter(name[i]))
  {
    BlankIff(name);
    if (forall i :: 0 <= i < |name| ==> IsNameChar(name[i])) && !IsBlank(name) {
      var k :| 0 <= k < |name| && !IsTrimmed(name[k]);
      assert IsAsciiLetter(name[k]);
    }
  }

  // ---------------------------------------------------------------------------
  // The account registry
  // ---------------------------------------------------------------------------

  /** Why a banking request was refused. */
  datatype BankError =
    | InvalidName
    | InvalidAccountNumber
    | AccountExists
    | AccountNotFound
    | Refused(reason: AccountError)

  class Bank {
    var accounts: map<int, Account>

    /** Every entry is filed under its own account number, which is valid and
        is also its customer's number; every name is valid; no balance is negative.
        Distinct keys therefore hold distinct accounts. */
    ghost predicate Valid()
      reads this, accounts.Values
    {
      forall n :: n in accounts ==>
        accounts[n].accountNumber == n &&
        accounts[n].customer.accountNumber == n &&
        IsValidAccountNumber(n) &&
        IsValidName(accounts[n].customer.name) &&
        accounts[n].balance >= 0
    }

    /** The registry starts empty. */
    constructor ()
      ensures Valid() && accounts == map[]
    {
      accounts := map[];
    }

    /** Opens an account with balance 0 for a valid name under a valid, unused
        number. Otherwise the registry is left as it was. */
    method OpenAccount(name: string, accountNumber: int) returns (outcome: Outcome<BankError>)
      requires Valid()
      modifies this
      ensures Valid()
      ensures !IsValidName(name) ==> outcome == Fail(InvalidName)
      ensures IsValidName(name) && !IsValidAccountNumber(accountNumber) ==>
                outcome == Fail(InvalidAccountNumber)
      ensures IsValidName(name) && IsValidAccountNumber(accountNumber) && accountNumber in old(accounts) ==>
                outcome == Fail(AccountExists)
      ensures IsValidName(name) && IsValidAccountNumber(accountNumber) && accountNumber !in old(accounts) ==>
                outcome == Pass
      ensures outcome.Fail? ==> accounts == old(accounts)
      ensures outcome.Pass? ==>
                accountNumber !in old(accounts) &&
                accounts.Keys == old(accounts).Keys + {accountNumber} &&
                fresh(accounts[accountNumber]) &&
                accounts[accountNumber].accountNumber == accountNumber &&
                accounts[accountNumber].customer == Customer(name, accountNumber) &&
                accounts[accountNumber].balance == 0
      ensures forall n :: n in old(accounts) ==>
                n in accounts && accounts[n] == old(accounts[n]) &&
                accounts[n].balance == old(accounts[n].balance)
    {
      if !IsValidName(name) {
        return Fail(InvalidName);
      }
      if !IsValidAccountNumber(accountNumber) {
        return Fail(InvalidAccountNumber);
      }
      if accountNumber in accounts {
        return Fail(AccountExists);
      }
      var account := new Account(accountNumber, Customer(name, accountNumber));
      accounts := accounts[accountNumber := account];
      return Pass;
    }

    /** Deposits into the account under a valid, known number. Only that
        account's balance can change. */
    method DepositMoney(accountNumber: int, amount: int) returns (outcome: Outcome<BankError>)
      requires Valid()
      modifies accounts.Values
      ensures Valid() && accounts == old(accounts)
      ensures !IsValidAccountNumber(accountNumber) ==> outcome == Fail(InvalidAccountNumber)
      ensures IsValidAccountNumber(accountNumber) && accountNumber !in accounts ==>
                outcome == Fail(AccountNotFound)
      ensures IsValidAccountNumber(accountNumber) && accountNumber in accounts ==>
                outcome == (if amount > 0 then Pass else Fail(Refused(InvalidAmount)))
      ensures forall n :: n in accounts ==>
                accounts[n].balance ==
                  if n == accountNumber && outcome.Pass? then old(accounts[n].balance) + amount
                  else old(accounts[n].balance)
    {
      if !IsValidAccountNumber(accountNumber) {
        return Fail(InvalidAccountNumber);
      }
      if accountNumber !in accounts {
        return Fail(AccountNotFound);
      }
      var account := accounts[accountNumber];
      var result := account.Deposit(amount);
      outcome := if result.Pass? then Pass else Fail(Refused(result.error));
    }

    /** Withdraws from the account under a valid, known number. Only that
        account's balance can change. */
    method WithdrawMoney(accountNumber: int, amount: int) returns (outcome: Outcome<BankError>)
      requires Valid()
      modifies accounts.Values
      ensures Valid() && accounts == old(accounts)
      ensures !IsValidAccountNumber(accountNumber) ==> outcome == Fail(InvalidAccountNumber)
      ensures IsValidAccountNumber(accountNumber) && accountNumber !in accounts ==>
                outcome == Fail(AccountNotFound)
      ensures IsValidAccountNumber(accountNumber) && accountNumber in accounts ==>
                outcome == (if amount <= 0 then Fail(Refused(InvalidAmount))
                            else if old(accounts[accountNumber].balance) < amount then Fail(Refused(InsufficientFunds))
                            else Pass)
      ensures forall n :: n in accounts ==>
                accounts[n].balance ==
                  if n == accountNumber && outcome.Pass? then old(accounts[n].balance) - amount
                  else old(accounts[n].balance)
    {
      if !IsValidAccountNumber(accountNumber) {
        return Fail(InvalidAccountNumber);
      }
      if accountNumber !in accounts {
        return Fail(AccountNotFound);
      }
      var account := accounts[accountNumber];
      var result := account.Withdraw(amount);
      outcome := if result.Pass? then Pass else Fail(Refused(result.error));
    }

    /** The stored balance of the account under a valid, known number. Changes nothing. */
    method CheckBalance(accountNumber: int) returns (r: Result<int, BankError>)
      ensures !IsValidAccountNumber(accountNumber) ==> r == Failure(InvalidAccountNumber)
      ensures IsValidAccountNumber(accountNumber) && accountNumber !in accounts ==>
                r == Failure(AccountNotFound)
      ensures IsValidAccountNumber(accountNumber) && accountNumber in accounts ==>
                r == Success(accounts[accountNumber].balance)
    {
      if !IsValidAccountNumber(accountNumber) {
        return Failure(InvalidAccountNumber);
      }
      if accountNumber !in accounts {
        return Failure(AccountNotFound);
      }
      return Success(accounts[accountNumber].GetBalance());
    }
  }
}
