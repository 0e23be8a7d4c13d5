# Three console record keepers, modelled in Dafny

The repository holds three small Java console programs. Each one keeps a single
in-memory collection and changes it through a few guarded operations:

* **Banking system** (`src/anudip/com/Main.java`, `Account.java`, `Customer.java`):
  a map from 16-character account numbers to `Account` objects. Its requests
  are open, deposit, withdraw and check balance. Open checks the name
  (`isValidName`), then the number (`isValidAccountNumber`); deposit, withdraw
  and check balance check only the number. An `Account` holds a balance that
  only changes through a positive deposit or a covered withdrawal.
* **Library utility** (`LibraryUtility.java`): a list of book titles with
  append, remove-first-occurrence, `indexOf` search and a natural-order sort.
* **Customer management system** (`CustomerManagementSystem.java`): a list of
  `(id, name, email)` records. It appends without a uniqueness check, removes
  every record with an id, searches for the first match, and stable-sorts by
  name or by id.

The model keeps each program's own form. Objects whose fields change in place
are Dafny classes: `Accounts.Account` (its `balance`), `Banking.Bank` (the
account map), `Library.LibraryUtility` and `Customers.CustomerManagementSystem`
(their lists, held as `seq` fields). Records are datatypes. The menu loops and
the `Scanner` reads are replaced by method parameters. Each refusal the
programs report, as an exception or a printed message, is returned as an
`Outcome`/`Result` value.

Shared Java behaviour lives in two modules. `JavaString` covers `String.trim`,
`String.compareTo` and the length of `String.valueOf(long)`. `Sorting` covers
`Collections.sort`. The sort is a stable insertion sort (`SortBy`).
`StableSortUnique` proves that every stable sort by the same comparator gives
the same list, so the library's own algorithm gives the same result as this one.

Files: `wrappers.dfy`, `java_string.dfy`, `sorting.dfy`, `library.dfy`,
`customers.dfy`, `account.dfy`, `bank.dfy`.

Where a program's comments promise more than its code does, the model follows
the code. The header comment of `CustomerManagementSystem.java` (line 6) says
that each customer has a unique id. The code does not enforce this: it appends
duplicate ids, and `removeCustomer` removes every record that carries the id.
Likewise `Main.java` promises a 16-digit number (the prompt at line 61 and
the comment at line 166), but `isValidAccountNumber` counts the characters of
`String.valueOf(n)`, so a negative number of 15 digits, such as
-999999999999999, is accepted as well; `ValidAccountNumberRange` states the
range the code accepts.

## Model

| member | source | states |
|---|---|---|
| `JavaString.Trim` | LibraryUtility.java:41 | `trim` gives a middle slice of the string: everything cut from either end is at or below U+0020, and a non-empty result starts and ends above it |
| `JavaString.BlankIff` | src/anudip/com/Main.java:182 | `s.trim().isEmpty()` holds exactly when every character of `s` is at or below U+0020 |
| `JavaString.StrLeTotal` | LibraryUtility.java:96 | for any two strings, one compares at most equal to the other under `compareTo` |
| `JavaString.StrLeTransitive` | LibraryUtility.java:96 | the `compareTo` order is transitive |
| `JavaString.StrLeAntisymmetric` | LibraryUtility.java:96 | strings that compare equal both ways are equal |
| `JavaString.StrLe` | LibraryUtility.java:96 | `a.compareTo(b) <= 0`: at the first differing position `a` has the smaller character, or `a` is a prefix of `b`; its order properties are carried by `StrLeTotal`, `StrLeTransitive` and `StrLeAntisymmetric` |
| `JavaString.DigitCountRange` | src/anudip/com/Main.java:172 | a natural number renders with exactly `d` digits iff it lies in [10^(d-1), 10^d), except that for one digit the range starts at 0 |
| `Sorting.InsertBy` | LibraryUtility.java:96 | inserts an element before the first one it compares at most equal to, adding exactly one element; its permutation, order and stability facts are `InsertByPermutes`, `InsertBySorted` and `InsertByTies` |
| `Sorting.SortBy` | LibraryUtility.java:96 | the order `Collections.sort` produces, of the input's length; its meaning is carried by `SortByPermutes`, `SortBySorted`, `SortByStable` and `StableSortUnique` |
| `Sorting.SortByPermutes` | LibraryUtility.java:96 | sorting only reorders: the result has the same multiset of elements |
| `Sorting.SortBySorted` | LibraryUtility.java:96 | with a total, transitive comparator, every earlier element of the result compares at most equal to every later one |
| `Sorting.SortByStable` | CustomerManagementSystem.java:106 | elements that compare equal keep their original relative order |
| `Sorting.SortBySortedIsIdentity` | LibraryUtility.java:96 | sorting an already sorted list leaves it unchanged |
| `Sorting.SortByIdempotent` | LibraryUtility.java:96 | sorting twice gives the same list as sorting once |
| `Sorting.StableSortUnique` | CustomerManagementSystem.java:112 | any sorted list that keeps the relative order of every group of equal elements of the input equals `SortBy` of it, so any stable sort produces the modelled order |
| `Library.IndexOf` | LibraryUtility.java:75 | `indexOf` returns the first index holding the title, or -1 exactly when the title is absent |
| `Library.IndexOfUnique` | LibraryUtility.java:75 | the first-index property determines the index: any index that satisfies it is `IndexOf` |
| `Library.RemoveFirst` | LibraryUtility.java:58 | `List.remove(Object)`; its contract is carried by `RemoveFirstSplices` and `RemoveFirstCounts` |
| `Library.RemoveFirstSplices` | LibraryUtility.java:57-58 | removing a present title cuts out exactly the element at its first index and keeps the order of the rest; an absent title leaves the list as it was |
| `Library.RemoveFirstCounts` | LibraryUtility.java:58 | removing a present title shortens the list by one and removes one copy of that title |
| `Library.TitleOrderIsTotal` | LibraryUtility.java:96 | natural string order is a total preorder, which the sort needs |
| `Library.SortedTitlesUnique` | LibraryUtility.java:96 | two sorted title lists with the same titles are identical |
| `Library.LibraryUtility.constructor` | LibraryUtility.java:30-32 | a new utility has an empty title list |
| `Library.LibraryUtility.AddBookTitle` | LibraryUtility.java:40-45 | a null or blank title is refused with `InvalidTitle` and nothing changes; otherwise the title is appended at the end, duplicates allowed |
| `Library.LibraryUtility.RemoveBookTitle` | LibraryUtility.java:53-62 | a null title is refused; an absent title is reported and nothing changes; a present title loses its first occurrence only, the list shrinks by one and the rest keep their order |
| `Library.LibraryUtility.SearchBookTitle` | LibraryUtility.java:71-76 | a null title is refused; otherwise the result is the first index holding the title, or -1 exactly when it is absent; the list is not changed |
| `Library.LibraryUtility.SortBookTitles` | LibraryUtility.java:95-97 | the new list is the stable sort of the old one: sorted by `compareTo`, a permutation of it, and unchanged when it was already sorted |
| `Customers.WithoutId` | CustomerManagementSystem.java:61 | the list `removeIf(c -> c.getId() == id)` leaves; its contract is carried by `WithoutIdCounts`, `WithoutIdAppend` and `WithoutIdShrinks` |
| `Customers.WithoutIdCounts` | CustomerManagementSystem.java:61 | `removeIf` drops every record with the id and keeps every other record as often as before |
| `Customers.WithoutIdAppend` | CustomerManagementSystem.java:61 | `removeIf` distributes over concatenation, so survivors keep their relative order |
| `Customers.WithoutIdShrinks` | CustomerManagementSystem.java:61-62 | the list gets shorter exactly when some record carries the id, which is what `removeIf` reports |
| `Customers.IndexOfId` | CustomerManagementSystem.java:83-90 | the index of the first record with the id, or -1 exactly when none has it |
| `Customers.RemovedIdNotFound` | CustomerManagementSystem.java:61 | after removal by id, a search for that id finds nothing |
| `Customers.NameLe` | CustomerManagementSystem.java:106 | `Comparator.comparing(Customer::getName)` at most 0: natural order of the names; proved a total preorder tying exactly on equal names in `ComparatorsAreTotal` |
| `Customers.IdLe` | CustomerManagementSystem.java:112 | `Comparator.comparingInt(Customer::getId)` at most 0: ascending ids; proved a total preorder in `ComparatorsAreTotal` |
| `Customers.ComparatorsAreTotal` | CustomerManagementSystem.java:105-114 | the by-name and by-id comparators are total preorders; by-name ties are exactly equal names |
| `Customers.CustomerManagementSystem.constructor` | CustomerManagementSystem.java:36-39 | a new system has an empty customer list |
| `Customers.CustomerManagementSystem.AddCustomer` | CustomerManagementSystem.java:51-52 | exactly one record `(id, name, email)` is appended; earlier records are unchanged and duplicate ids are accepted |
| `Customers.CustomerManagementSystem.RemoveCustomer` | CustomerManagementSystem.java:61 | every record with the id is removed and the others keep their order; no record with the id remains; the result is true iff one was present |
| `Customers.CustomerManagementSystem.SearchCustomer` | CustomerManagementSystem.java:83-90 | returns the first record in list order with the id, or none exactly when no record has it; the list is not changed |
| `Customers.CustomerManagementSystem.SortCustomersByName` | CustomerManagementSystem.java:105-108 | the new list is a permutation of the old one, sorted by name, and stable for equal names |
| `Customers.CustomerManagementSystem.SortCustomersById` | CustomerManagementSystem.java:111-114 | the new list is a permutation of the old one, sorted by ascending id, and stable for equal ids |
| `Accounts.Verdict` | src/anudip/com/Account.java:29-52 | the guards of deposit and withdraw: a non-positive amount is `InvalidAmount`, a withdrawal above the balance is `InsufficientFunds`, anything else passes; tied to the methods by their `ensures outcome == Verdict(...)` |
| `Accounts.Settle` | src/anudip/com/Account.java:28-55 | a refused request leaves the balance as it was, and an accepted one never takes a non-negative balance below zero |
| `Accounts.ReplayNonNegative` | src/anudip/com/Account.java:20-55 | from a non-negative balance, such as a new account's 0, any sequence of deposits and withdrawals keeps the balance non-negative |
| `Accounts.Replay` | src/anudip/com/Account.java:28-55 | the balance after a sequence of deposits and withdrawals applied in order; its invariant is `ReplayNonNegative` |
| `Accounts.Account.constructor` | src/anudip/com/Account.java:17-21 | a new account has balance 0 and stores the given number and customer; both are constants and never change |
| `Accounts.Account.Deposit` | src/anudip/com/Account.java:28-35 | a positive amount raises the balance by exactly that amount; any other amount is refused with `InvalidAmount` and nothing changes |
| `Accounts.Account.Withdraw` | src/anudip/com/Account.java:42-56 | a non-positive amount is refused (`InvalidAmount`); an amount above the balance is refused (`InsufficientFunds`); both leave the balance as it was; otherwise the balance drops by exactly the amount, to 0 when it is all withdrawn |
| `Accounts.Account.GetBalance` | src/anudip/com/Account.java:63-65 | returns the current balance without changing anything |
| `Accounts.Account.GetCustomer` | src/anudip/com/Account.java:72-74 | returns the customer given at construction |
| `Banking.ValidAccountNumberRange` | src/anudip/com/Main.java:171-173 | a number is valid iff 10^15 <= n <= 10^16-1, or, since the minus sign counts, -(10^15-1) <= n <= -10^14 |
| `Banking.IsValidAccountNumber` | src/anudip/com/Main.java:171-173 | `String.valueOf(n).length() == 16`; characterised by `ValidAccountNumberRange` |
| `Banking.ValidNameIff` | src/anudip/com/Main.java:181-183 | a name is valid iff every character is an ASCII letter or a space and at least one is a letter |
| `Banking.IsValidName` | src/anudip/com/Main.java:181-183 | not blank after `trim` and matching `[a-zA-Z ]+`; characterised by `ValidNameIff` |
| `Banking.Bank.constructor` | src/anudip/com/Main.java:12 | the account map starts empty and satisfies the registry invariant |
| `Banking.Bank.OpenAccount` | src/anudip/com/Main.java:51-84 | refuses, in this order, an invalid name, an invalid number and an existing number, leaving the map unchanged; otherwise succeeds and adds exactly the new key, mapped to a fresh account with balance 0 whose number and customer's number are the key and whose customer has the given name; existing entries and balances are untouched; the invariant is kept |
| `Banking.Bank.DepositMoney` | src/anudip/com/Main.java:89-111 | an invalid or unknown number is refused and no balance changes; otherwise the account's deposit rule applies to that account alone, and every other balance stays the same |
| `Banking.Bank.WithdrawMoney` | src/anudip/com/Main.java:116-138 | an invalid or unknown number is refused and no balance changes; otherwise the account's withdrawal rule applies to that account alone, and every other balance stays the same |
| `Banking.Bank.CheckBalance` | src/anudip/com/Main.java:143-163 | an invalid or unknown number is refused; otherwise returns the stored balance of the account under that key; changes nothing |

The registry invariant is `Banking.Bank.Valid`. It says that each entry is filed
under its own account number, which is valid and equals its customer's number;
that each name is valid; and that no balance is negative. Because every key names
a different account, distinct keys hold distinct objects. This is why a deposit
or withdrawal under one key cannot change another key's balance.

## Left out

- Console I/O: the `main` methods, `displayMenu`, the menu loops, the `Scanner` reads and the printed messages. The values read become parameters. Which message or exception a request produces is the returned `Outcome`/`Result`.
- `InputMismatchException` handling and the catch-all `catch (Exception)`. They concern malformed console input only.
- IEEE-754 `double` balances and amounts (rounding, NaN, infinities). Money is a whole number of cents.
- Account numbers are unbounded integers, not 64-bit `long`s. `nextLong` cannot produce anything outside that range, every valid number fits in it, and no arithmetic is done on them. Customer ids are unbounded integers for the same reason; they are only compared.
- Characters are Unicode scalar values, whereas `compareTo` compares UTF-16 code units. Strings holding characters outside the Basic Multilingual Plane can therefore order differently.
- `isValidName` is given a string, never null. Its only caller passes the result of `nextLine`, which is never null. Null titles in the library utility are modelled, as `None`.
- `listAllBookTitles` and `listAllCustomers` only print the list; neither changes it. `searchCustomerById` only prints the result of `searchCustomer`.
- The `Customer` class used by the customer management system is not part of this model beyond its id, name and email; its `toString` is used only for printing.
- `Collections.sort`'s own algorithm (a merge sort) is not modelled step by step. `SortBy` and `StableSortUnique` together pin down its result.
- The `InsufficientFundsException` class is represented only by the `InsufficientFunds` outcome.
