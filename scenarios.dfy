/** Traces proved from the start-up state of app/js/_index.js: the summary
    the first screen shows for the seed accounts, and the click sequences
    behind the two defects the handlers have as written, next to the
    corrected ones. */
module Scenarios {
  import opened Wrappers
  import opened Summary
  import opened Bank

  /** The balance of Jonas's account at start-up. */
  lemma JonasBalance()
    ensures Balance(JonasMovements) == Some(25952.59)
  {
  }

  /** The balance of Jessica's account at start-up. */
  lemma JessicaBalance()
    ensures Balance(JessicaMovements) == Some(11720.0)
  {
  }

  /** Jonas's income and expense: the sums of his deposits and of his
      withdrawals. */
  lemma JonasIncomeAndExpense()
    ensures Income(JonasMovements) == Some(27035.2)
    ensures Expense(JonasMovements) == Some(-1082.61)
  {
    JonasDeposits();
    JonasWithdrawals();
  }

  lemma JonasDeposits()
    ensures Deposits(JonasMovements) == [200.0, 455.23, 25000.0, 79.97, 1300.0]
  {
  }

  lemma JonasWithdrawals()
    ensures Withdrawals(JonasMovements) == [-306.5, -642.21, -133.9]
  {
  }

  /** Jonas's interest. The 79.97 deposit earns 0.95964 at 1.2 %, below
      one, so the interest leaves it out. */
  lemma JonasInterest()
    ensures Interest(JonasMovements, 1.2) == Some(323.46276)
  {
    JonasDeposits();
    var d := Deposits(JonasMovements);
    var t := Shares(d, 1.2);
    assert t == [2.4, 5.46276, 300.0, 0.95964, 15.6];
    assert InterestTerms(JonasMovements, 1.2) == [2.4, 5.46276, 300.0, 15.6];
  }

  /** As written: a login with Jessica's name and a wrong PIN fails, yet
      leaves her account current with no cached balance, so the transfer
      check `balance < amount` is false and 100000 leaves her account,
      driving its balance below zero. */
  method WrongPinThenTransfer() returns (login: bool, transfer: Outcome, jessica: seq<real>)
    ensures !login && transfer == Done
    ensures jessica == JessicaMovements + [-100000.0] && Sum(jessica) < 0.0
  {
    var l := new Ledger.Seeded();
    login := l.LoginAsWritten("jd", Finite(0.0));
    assert l.currentUser == l.accounts[1];
    transfer := TransferUncached(l);
    jessica := l.accounts[1].movements;
    JessicaBalance();
    SumPush(JessicaMovements, -100000.0);
  }

  /** The transfer of WrongPinThenTransfer, from a current user whose
      balance was never cached. */
  method TransferUncached(l: Ledger) returns (transfer: Outcome)
    requires l.Wf() && l.Names() == ["js", "jd"]
    requires l.currentUser == l.accounts[1] && l.currentUser.balance == None
    modifies (set a | a in l.accounts)`movements, {l.currentUser}`movements, {l.currentUser}`balance
    ensures transfer == Done && l.accounts == old(l.accounts)
    ensures l.accounts[1].movements == old(l.accounts[1].movements) + [-100000.0]
  {
    transfer := l.Transfer("js", Finite(100000.0));
  }

  /** Corrected: the failed login leaves Jonas current with his balance
      cached, and the same transfer is refused as larger than it. */
  method WrongPinThenTransferRefused() returns (login: bool, transfer: Outcome, jessica: seq<real>)
    ensures !login && transfer == Rejected
    ensures jessica == JessicaMovements
  {
    var l := new Ledger.Seeded();
    login := l.Login("jd", Finite(0.0));
    JonasBalance();
    transfer := TransferCached(l);
    jessica := l.accounts[1].movements;
  }

  /** The transfer of WrongPinThenTransferRefused, beyond Jonas's cached
      balance. */
  method TransferCached(l: Ledger) returns (transfer: Outcome)
    requires l.Valid() && l.Names() == ["js", "jd"]
    requires l.currentUser == l.accounts[0] && Sum(l.currentUser.movements) < 100000.0
    modifies (set a | a in l.accounts)`movements, {l.currentUser}`movements, {l.currentUser}`balance
    ensures transfer == Rejected && l.accounts == old(l.accounts)
    ensures l.accounts[1].movements == old(l.accounts[1].movements)
  {
    transfer := l.Transfer("jd", Finite(100000.0));
  }

  /** As written: an unknown user name leaves no current user at all, and
      the next valid-looking transfer raises a TypeError. */
  method UnknownUserThenTransfer() returns (login: bool, transfer: Outcome)
    ensures !login && transfer == Threw
  {
    var l := new Ledger.Seeded();
    login := l.LoginAsWritten("zz", Finite(1111.0));
    transfer := TransferWithoutUser(l);
  }

  /** The transfer of UnknownUserThenTransfer, with no current user. */
  method TransferWithoutUser(l: Ledger) returns (transfer: Outcome)
    requires l.Wf() && l.Names() == ["js", "jd"] && l.currentUser == null
    modifies (set a | a in l.accounts)`movements
    ensures transfer == Threw
  {
    transfer := l.Transfer("jd", Finite(10.0));
  }

  /** A loan is granted on the size of one movement, not on the balance:
      Jonas's largest movement, his 25000 deposit, does not cover 250001. */
  method LoanRefused() returns (refused: Outcome, jonas: seq<real>)
    ensures refused == Rejected && jonas == JonasMovements
  {
    var l := new Ledger.Seeded();
    assert forall k :: 0 <= k < |JonasMovements| ==> JonasMovements[k] < 250001.0 * 0.1;
    refused := l.Loan(Finite(250001.0));
    jonas := l.accounts[0].movements;
  }

  /** It covers 250000, ten times that deposit and almost ten times his
      balance of 25952.59, and that loan, now a movement itself, covers one
      of 2500000. */
  method LoansCompound() returns (granted: Outcome, again: Outcome, jonas: seq<real>)
    ensures granted == Done && again == Done
    ensures jonas == JonasMovements + [250000.0, 2500000.0]
  {
    var l := new Ledger.Seeded();
    assert JonasMovements[3] >= 250000.0 * 0.1;
    granted := l.Loan(Finite(250000.0));
    again := LoanOnLoan(l);
    jonas := l.accounts[0].movements;
  }

  /** The second loan of LoansCompound. */
  method LoanOnLoan(l: Ledger) returns (again: Outcome)
    requires l.Wf() && l.currentUser != null && l.currentUser.movements == JonasMovements + [250000.0]
    modifies {l.currentUser}`movements, {l.currentUser}`balance
    ensures again == Done && l.currentUser.movements == JonasMovements + [250000.0, 2500000.0]
  {
    assert l.currentUser.movements[8] >= 2500000.0 * 0.1;
    again := l.Loan(Finite(2500000.0));
  }

  /** As written: Jonas closes his account, which stays current; closing it
      again matches no listed account and splice(-1, 1) deletes Jessica's. */
  method CloseTwice() returns (first: Outcome, second: Outcome, left: nat)
    ensures first == Done && second == Done && left == 0
  {
    var l := new Ledger.Seeded();
    var jessica := l.accounts[1];
    ghost var seeded := l.accounts;
    first := l.CloseAsWritten("js", Finite(1111.0));
    SpliceInside(seeded, 0);
    assert l.accounts == [jessica];
    second := l.CloseAsWritten("js", Finite(1111.0));
    left := |l.accounts|;
  }

  /** Corrected: the second close finds nothing to remove and is refused,
      and Jessica's account survives. */
  method CloseTwiceRefused() returns (first: Outcome, second: Outcome, left: seq<string>)
    ensures first == Done && second == Rejected && left == ["jd"]
  {
    var l := new Ledger.Seeded();
    first := CloseFirst(l);
    second := CloseAgain(l);
    left := l.Names();
  }

  /** The first close of CloseTwiceRefused: Jonas's entry goes. */
  method CloseFirst(l: Ledger) returns (first: Outcome)
    requires l.Wf() && |l.accounts| == 2 && l.accounts[0] != l.accounts[1]
    requires l.currentUser == l.accounts[0] && l.currentUser.userName == "js" && l.currentUser.pin == 1111
    modifies l`accounts
    ensures first == Done && l.accounts == [old(l.accounts[1])]
  {
    ghost var seeded := l.accounts;
    first := l.Close("js", Finite(1111.0));
    ghost var i :| 0 <= i < |seeded| && seeded[i] == l.currentUser && l.accounts == seeded[..i] + seeded[i + 1..];
    assert i == 0 && seeded[1..] == [seeded[1]];
  }

  /** The second close of CloseTwiceRefused, by a current user no longer
      listed. */
  method CloseAgain(l: Ledger) returns (second: Outcome)
    requires l.Wf() && l.currentUser != null && l.currentUser !in l.accounts
    requires l.currentUser.userName == "js" && l.currentUser.pin == 1111
    modifies l`accounts
    ensures second == Rejected && l.accounts == old(l.accounts)
  {
    second := l.Close("js", Finite(1111.0));
  }
}
