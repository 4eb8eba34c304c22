/** The account ledger and transaction engine of app/js/_index.js: the
    accounts, the current user, createUserNames, calcCurrentBalance and the
    login, transfer, loan and close click handlers, with the DOM left out. */
module Bank {
  import opened Wrappers
  import opened Summary
  import opened UserNames

  /** What `Number(...)` makes of a form field: NaN or a number. */
  datatype Num = NaN | Finite(v: real)

  /** How a click handler ends: it made its change, it took its own early
      `return`, or it raised a TypeError by reading a field of an undefined
      current user. */
  datatype Outcome = Done | Rejected | Threw

  /** `!x || x < 0` is false: x is a number greater than zero. */
  predicate IsPositive(n: Num)
  {
    n.Finite? && n.v > 0.0
  }

  /** `pin !== input` is false (NaN equals nothing). */
  predicate PinMatches(pin: int, input: Num)
  {
    input == Finite(pin as real)
  }

  /** `cached < x`: an undefined cached balance compares false. */
  predicate CachedBelow(cached: Option<real>, x: real)
  {
    cached.Some? && cached.value < x
  }

  /** `movements.some(mov => mov >= amount * 0.1)`: some movement is at least a
      tenth of the requested loan (never, for NaN). */
  predicate LoanEligible(movements: seq<real>, amount: Num)
  {
    amount.Finite? && exists k :: 0 <= k < |movements| && movements[k] >= amount.v * 0.1
  }

  const JonasMovements: seq<real> := [200.0, 455.23, -306.5, 25000.0, -642.21, -133.9, 79.97, 1300.0]
  const JessicaMovements: seq<real> := [5000.0, 3400.0, -150.0, -790.0, -3210.0, -1000.0, 8500.0, -30.0]

  class Account {
    const owner: string
    const pin: int
    const interestRate: real
    /** Empty until createUserNames runs, which it does before any handler. */
    var userName: string
    var movements: seq<real>
    /** The balance calcCurrentBalance last stored; None while undefined. */
    var balance: Option<real>

    constructor (owner: string, movements: seq<real>, interestRate: real, pin: int)
      ensures this.owner == owner && this.movements == movements
      ensures this.interestRate == interestRate && this.pin == pin
      ensures userName == "" && balance == None
    {
      this.owner := owner;
      this.movements := movements;
      this.interestRate := interestRate;
      this.pin := pin;
      userName := "";
      balance := None;
    }
  }

  /** `findIndex(acc => acc.userName === name)` over the user names: the first
      match, or -1. */
  function IndexOf(names: seq<string>, name: string): (i: int)
    ensures -1 <= i < |names|
    ensures i >= 0 ==> names[i] == name && forall j :: 0 <= j < i ==> names[j] != name
    ensures i < 0 <==> name !in names
  {
    if names == [] then -1
    else if names[0] == name then 0
    else
      var k := IndexOf(names[1..], name);
      assert names == [names[0]] + names[1..];
      if k < 0 then -1 else k + 1
  }

  /** `s.splice(start, 1)`: a negative start counts from the end. One
      element goes exactly when the list is nonempty and the start is before
      its end. */
  function SpliceOne<T>(s: seq<T>, start: int): (r: seq<T>)
    ensures |r| == (if s != [] && start < |s| then |s| - 1 else |s|)
  {
    var k := if start < 0 then (if |s| + start < 0 then 0 else |s| + start)
             else (if start > |s| then |s| else start);
    if k < |s| then s[..k] + s[k + 1..] else s
  }

  /** Splicing only removes: what remains of the list is a sub-multiset of
      it. */
  lemma SpliceOneFrom<T>(s: seq<T>, start: int)
    ensures multiset(SpliceOne(s, start)) <= multiset(s)
  {
    var k := if start < 0 then (if |s| + start < 0 then 0 else |s| + start)
             else (if start > |s| then |s| else start);
    if k < |s| {
      assert s == s[..k] + [s[k]] + s[k + 1..];
    }
  }

  /** A start inside the list removes exactly that element. */
  lemma SpliceInside<T>(s: seq<T>, i: int)
    requires 0 <= i < |s|
    ensures SpliceOne(s, i) == s[..i] + s[i + 1..]
    ensures |SpliceOne(s, i)| == |s| - 1
  {
  }

  /** findIndex's "not found", -1, makes splice remove the last element. */
  lemma SpliceNotFoundDropsLast<T>(s: seq<T>)
    requires s != []
    ensures SpliceOne(s, -1) == s[..|s| - 1]
  {
  }

  function NamesOf(accs: seq<Account>): (r: seq<string>)
    reads accs
    ensures |r| == |accs| && forall k :: 0 <= k < |accs| ==> r[k] == accs[k].userName
  {
    seq(|accs|, k requires 0 <= k < |accs| reads accs => accs[k].userName)
  }

  /** No name occurs twice. */
  ghost predicate Unique(names: seq<string>)
  {
    forall i, j :: 0 <= i < j < |names| ==> names[i] != names[j]
  }

  /** Removing entry i keeps the names unique and drops the name of entry i. */
  lemma UniqueRemove(names: seq<string>, i: nat)
    requires Unique(names) && i < |names|
    ensures Unique(names[..i] + names[i + 1..]) && names[i] !in names[..i] + names[i + 1..]
  {
    var rest := names[..i] + names[i + 1..];
    forall p, q | 0 <= p < q < |rest|
      ensures rest[p] != rest[q]
    {
      var p', q' := if p < i then p else p + 1, if q < i then q else q + 1;
      assert rest[p] == names[p'] && rest[q] == names[q'] && p' < q';
    }
    forall k | 0 <= k < |rest|
      ensures rest[k] != names[i]
    {
      var k' := if k < i then k else k + 1;
      assert rest[k] == names[k'] && k' != i;
    }
  }

  /** The names of a list with entry i removed are its names with entry i
      removed. */
  lemma NamesRemove(accs: seq<Account>, i: nat)
    requires i < |accs|
    ensures NamesOf(accs[..i] + accs[i + 1..]) == NamesOf(accs)[..i] + NamesOf(accs)[i + 1..]
  {
  }

  /** createUserNames: give every account the user name derived from its
      owner; the frame lets nothing but the user names change. */
  method CreateUserNames(accs: seq<Account>)
    modifies (set a | a in accs)`userName
    ensures forall k :: 0 <= k < |accs| ==> accs[k].userName == UserName(accs[k].owner)
  {
    for i := 0 to |accs|
      invariant forall j :: 0 <= j < i ==> accs[j].userName == UserName(accs[j].owner)
    {
      accs[i].userName := UserName(accs[i].owner);
    }
  }

  /** The seed accounts of lines 3-43 after createUserNames (line 82). */
  method SeedAccounts() returns (jonas: Account, jessica: Account)
    ensures fresh(jonas) && fresh(jessica) && jonas != jessica
    ensures jonas.userName == "js" && jessica.userName == "jd"
    ensures jonas.movements == JonasMovements && jessica.movements == JessicaMovements
    ensures jonas.pin == 1111 && jessica.pin == 2222
    ensures jonas.interestRate == 1.2 && jessica.interestRate == 1.5
    ensures jonas.balance == None && jessica.balance == None
  {
    jonas := new Account("Jonas Schmedtmann", JonasMovements, 1.2, 1111);
    jessica := new Account("Jessica Davis", JessicaMovements, 1.5, 2222);
    var accs := [jonas, jessica];
    CreateUserNames(accs);
    assert accs[0] == jonas && accs[1] == jessica;
    SeedNames(jonas, jessica);
  }

  lemma SeedNames(a1: Account, a2: Account)
    requires a1.owner == "Jonas Schmedtmann" && a1.userName == UserName(a1.owner)
    requires a2.owner == "Jessica Davis" && a2.userName == UserName(a2.owner)
    ensures a1.userName == "js" && a2.userName == "jd"
  {
    SeedUserNames();
  }

  /** The module-level state: `accounts` and `currentUser`. */
  class Ledger {
    var accounts: seq<Account>
    var currentUser: Account?

    function Names(): (r: seq<string>)
      reads this, accounts
      ensures |r| == |accounts|
    {
      NamesOf(accounts)
    }

    ghost function Histories(): (r: seq<seq<real>>)
      reads this, accounts
      ensures |r| == |accounts| && forall k :: 0 <= k < |accounts| ==> r[k] == accounts[k].movements
    {
      seq(|accounts|, k requires 0 <= k < |accounts| reads this, accounts => accounts[k].movements)
    }

    /** What every handler keeps: user names unique, no account without
        movements, and a current user whose name
        is still listed is the listed account. */
    ghost predicate Wf()
      reads this, accounts, currentUser
    {
      Unique(Names()) &&
      (forall i :: 0 <= i < |accounts| ==> accounts[i].movements != []) &&
      (currentUser != null ==>
         currentUser.movements != [] && (currentUser.userName in Names() ==> currentUser in accounts))
    }

    /** Wf, and the current user's cached balance is the sum of its movements. */
    ghost predicate Valid()
      reads this, accounts, currentUser
    {
      Wf() && (currentUser != null ==> currentUser.balance == Some(Sum(currentUser.movements)))
    }

    /** The start-up state: the two seed accounts with their user names
        created, the first account current and its balance computed
        (lines 70 and 220). */
    constructor Seeded()
      ensures Valid()
      ensures |accounts| == 2 && Names() == ["js", "jd"]
      ensures accounts[0].movements == JonasMovements && accounts[1].movements == JessicaMovements
      ensures accounts[0].pin == 1111 && accounts[1].pin == 2222
      ensures accounts[0].interestRate == 1.2 && accounts[1].interestRate == 1.5
      ensures currentUser == accounts[0] && accounts[1].balance == None
      ensures fresh(accounts[0]) && fresh(accounts[1])
    {
      var jonas, jessica := SeedAccounts();
      accounts := [jonas, jessica];
      currentUser := jonas;
      new;
      CalcCurrentBalance();
      assert Names() == ["js", "jd"];
    }

    /** calcCurrentBalance: store the sum of the current user's movements;
        the reduce throws, leaving the cache alone, when there are none. */
    method CalcCurrentBalance()
      requires currentUser != null
      modifies currentUser`balance
      ensures currentUser.balance ==
        if currentUser.movements == [] then old(currentUser.balance) else Some(Sum(currentUser.movements))
    {
      var b := Balance(currentUser.movements);
      if b.Some? {
        currentUser.balance := b;
      }
    }

    /** Under unique user names, "some account has this name and PIN" is
        "the account find returns for this name has this PIN". */
    lemma LoginMatch(name: string, pin: Num)
      requires Wf()
      ensures (exists a :: a in accounts && a.userName == name && PinMatches(a.pin, pin)) <==>
        IndexOf(Names(), name) >= 0 && PinMatches(accounts[IndexOf(Names(), name)].pin, pin)
    {
      var i := IndexOf(Names(), name);
      if a :| a in accounts && a.userName == name && PinMatches(a.pin, pin) {
        var k :| 0 <= k < |accounts| && accounts[k] == a;
        assert Names()[k] == name;
        assert i >= 0 && i <= k;
        assert accounts[i].userName == name;
        assert i == k;
      }
      if i >= 0 && PinMatches(accounts[i].pin, pin) {
        assert accounts[i] in accounts && accounts[i].userName == name;
      }
    }

    /** The login handler corrected: find the account by user name, and make
        it current only if the PIN matches. Unknown user and wrong PIN are
        rejected alike and change nothing. */
    method Login(name: string, pin: Num) returns (ok: bool)
      requires Valid()
      modifies this`currentUser, (set a | a in accounts)`balance
      ensures Valid()
      ensures accounts == old(accounts) && Names() == old(Names()) && Histories() == old(Histories())
      ensures forall a :: a in accounts && a != currentUser ==> a.balance == old(a.balance)
      ensures ok <==> exists a :: a in accounts && a.userName == name && PinMatches(a.pin, pin)
      ensures ok ==> currentUser in accounts && currentUser.userName == name
      ensures !ok ==> currentUser == old(currentUser)
      ensures !ok ==> forall a :: a in accounts ==> a.balance == old(a.balance)
    {
      LoginMatch(name, pin);
      var i := IndexOf(NamesOf(accounts), name);
      if i < 0 || !PinMatches(accounts[i].pin, pin) {
        return false;
      }
      currentUser := accounts[i];
      ghost var names := Names();
      CalcCurrentBalance();
      assert Names() == names;
      ok := true;
    }

    /** The login handler as written (line 138): `currentUser` is assigned the
        account found by name (or undefined) BEFORE the PIN is checked, so a
        failed login still changes the acting account. */
    method LoginAsWritten(name: string, pin: Num) returns (ok: bool)
      requires Wf()
      modifies this`currentUser, (set a | a in accounts)`balance
      ensures Wf()
      ensures accounts == old(accounts) && Names() == old(Names()) && Histories() == old(Histories())
      ensures forall a :: a in accounts && a != currentUser ==> a.balance == old(a.balance)
      ensures currentUser == if IndexOf(Names(), name) < 0 then null else accounts[IndexOf(Names(), name)]
      ensures ok <==> exists a :: a in accounts && a.userName == name && PinMatches(a.pin, pin)
      ensures ok ==> Valid()
      ensures !ok ==> forall a :: a in accounts ==> a.balance == old(a.balance)
    {
      LoginMatch(name, pin);
      var i := IndexOf(NamesOf(accounts), name);
      currentUser := if i < 0 then null else accounts[i];
      if currentUser == null || !PinMatches(currentUser.pin, pin) {
        return false;
      }
      ghost var names := Names();
      CalcCurrentBalance();
      assert Names() == names;
      ok := true;
    }

    /** Lines 170-174 of the transfer handler: append -amount to the current
        user and +amount to the target, then recompute the cached balance. */
    method PushTransfer(target: Account, amount: real)
      requires Wf() && currentUser != null && target in accounts
      requires target.userName != currentUser.userName
      modifies currentUser`movements, currentUser`balance, target`movements
      ensures Wf() && Valid() && Names() == old(Names())
      ensures target != currentUser
      ensures currentUser.movements == old(currentUser.movements) + [-amount]
      ensures target.movements == old(target.movements) + [amount]
      ensures currentUser.balance == Some(Sum(currentUser.movements))
    {
      assert target != currentUser;
      Credit(currentUser, -amount);
      ghost var names, sent := Names(), currentUser.movements;
      Credit(target, amount);
      assert currentUser.movements == sent;
      CalcCurrentBalance();
      assert Names() == names;
    }

    /** `a.movements.push(x)` on the current user or a listed account. */
    method Credit(a: Account, x: real)
      requires Wf() && (a in accounts || a == currentUser)
      modifies a`movements
      ensures Wf() && Names() == old(Names())
      ensures a.movements == old(a.movements) + [x]
    {
      ghost var names := Names();
      a.movements := a.movements + [x];
      assert Names() == names;
    }

    /** PushTransfer, with what it does to the sums: the money leaves the
        current user and reaches the target, so the total over the listed
        accounts is unchanged unless the sender is no longer listed. */
    method ApplyTransfer(target: Account, amount: real)
      requires Wf() && currentUser != null && target in accounts
      requires target.userName != currentUser.userName
      modifies currentUser`movements, currentUser`balance, target`movements
      ensures Wf() && Valid() && Names() == old(Names())
      ensures target != currentUser
      ensures currentUser.movements == old(currentUser.movements) + [-amount]
      ensures target.movements == old(target.movements) + [amount]
      ensures Sum(currentUser.movements) == old(Sum(currentUser.movements)) - amount
      ensures Sum(target.movements) == old(Sum(target.movements)) + amount
      ensures currentUser.balance == Some(Sum(currentUser.movements))
      ensures currentUser in accounts ==> Total(Histories()) == old(Total(Histories()))
      ensures currentUser !in accounts ==> Total(Histories()) == old(Total(Histories())) + amount
    {
      ghost var h := Histories();
      ghost var senderMovements, targetMovements := currentUser.movements, target.movements;
      PushTransfer(target, amount);
      SumPush(senderMovements, -amount);
      SumPush(targetMovements, amount);
      assert forall k :: 0 <= k < |accounts| ==> accounts[k].movements == Pushed(h, k, target, amount);
      TransferTotal(h, target, amount);
    }

    /** What account k holds after a transfer of x to target, when it held
        h[k] before. */
    ghost function Pushed(h: seq<seq<real>>, k: nat, target: Account, x: real): seq<real>
      requires k < |h| && k < |accounts|
      reads this, accounts
    {
      if accounts[k] == currentUser then h[k] + [-x]
      else if accounts[k] == target then h[k] + [x]
      else h[k]
    }

    /** When, from histories h, only the current user and the target
        gained a movement each, -x and +x, the total over the listed
        accounts is kept, or grows by x when the sender is not listed. */
    lemma TransferTotal(h: seq<seq<real>>, target: Account, x: real)
      requires Wf() && currentUser != null && target in accounts && target != currentUser
      requires |h| == |accounts|
      requires forall k :: 0 <= k < |accounts| ==> accounts[k].movements == Pushed(h, k, target, x)
      ensures currentUser in accounts ==> Total(Histories()) == Total(h)
      ensures currentUser !in accounts ==> Total(Histories()) == Total(h) + x
    {
      var h2 := Histories();
      var t := IndexOf(Names(), target.userName);
      assert accounts[t] == target;
      assert h2[t] == h[t] + [x];
      if currentUser in accounts {
        var s := IndexOf(Names(), currentUser.userName);
        assert accounts[s] == currentUser;
        assert h2[s] == h[s] + [-x];
        forall k | 0 <= k < |h| && k != s && k != t
          ensures h2[k] == h[k]
        {
          Distinct(k, s);
          Distinct(k, t);
        }
        TotalAfterTransfer(h, h2, s, t, x);
      } else {
        forall k | 0 <= k < |h| && k != t
          ensures h2[k] == h[k]
        {
          Distinct(k, t);
        }
        TotalAfterPush(h, h2, t, x);
      }
    }

    /** Unique user names make the listed accounts distinct objects. */
    lemma Distinct(i: int, j: int)
      requires Wf() && 0 <= i < |accounts| && 0 <= j < |accounts| && i != j
      ensures accounts[i] != accounts[j]
    {
      if i < j {
        assert Names()[i] != Names()[j];
      } else {
        assert Names()[j] != Names()[i];
      }
    }

    /** The transfer handler. It rejects a missing target, an amount that is
        0, NaN or negative, a target with the current user's name and a
        cached balance below the amount; otherwise it moves the amount. */
    method Transfer(to: string, amount: Num) returns (r: Outcome)
      requires Wf()
      modifies (set a | a in accounts)`movements, {currentUser}`movements, {currentUser}`balance
      ensures Wf() && (old(Valid()) ==> Valid())
      ensures accounts == old(accounts) && Names() == old(Names())
      ensures currentUser != null ==> currentUser.userName == old(currentUser.userName)
      ensures r == Rejected <==>
        IndexOf(Names(), to) < 0 || !IsPositive(amount) ||
        (currentUser != null && (to == currentUser.userName || CachedBelow(old(currentUser.balance), amount.v)))
      ensures r == Threw <==> IndexOf(Names(), to) >= 0 && IsPositive(amount) && currentUser == null
      ensures r != Done ==> Histories() == old(Histories())
      ensures r != Done && currentUser != null ==>
        currentUser.movements == old(currentUser.movements) && currentUser.balance == old(currentUser.balance)
      ensures r == Done ==>
        var target := accounts[IndexOf(Names(), to)];
        currentUser != null && target != currentUser &&
        currentUser.movements == old(currentUser.movements) + [-amount.v] &&
        target.movements == old(target.movements) + [amount.v] &&
        Sum(currentUser.movements) == old(Sum(currentUser.movements)) - amount.v &&
        Sum(target.movements) == old(Sum(target.movements)) + amount.v &&
        currentUser.balance == Some(Sum(currentUser.movements)) &&
        target.balance == old(target.balance) &&
        forall a :: a in accounts && a != currentUser && a != target ==> a.movements == old(a.movements)
      ensures r == Done && currentUser in accounts ==> Total(Histories()) == old(Total(Histories()))
      ensures r == Done && currentUser !in accounts ==> Total(Histories()) == old(Total(Histories())) + amount.v
      ensures old(Valid()) ==>
        (r == Done <==>
           IndexOf(Names(), to) >= 0 && IsPositive(amount) && currentUser != null &&
           to != currentUser.userName && old(Sum(currentUser.movements)) >= amount.v)
    {
      var t := IndexOf(NamesOf(accounts), to);
      if t < 0 || !IsPositive(amount) {
        r := Rejected;
      } else if currentUser == null {
        r := Threw;
      } else {
        r := TransferTo(to, accounts[t], amount.v);
      }
    }

    /** The rest of the transfer handler, once the target is found and the
        amount is positive: refuse a transfer to oneself and one above the
        cached balance, otherwise move the amount. */
    method TransferTo(to: string, target: Account, x: real) returns (r: Outcome)
      requires Wf() && currentUser != null && IndexOf(Names(), to) >= 0 && target == accounts[IndexOf(Names(), to)]
      modifies currentUser`movements, currentUser`balance, target`movements
      ensures Wf() && (old(Valid()) ==> Valid()) && Names() == old(Names())
      ensures r != Threw
      ensures r == Rejected <==> to == currentUser.userName || CachedBelow(old(currentUser.balance), x)
      ensures r == Rejected ==> Histories() == old(Histories()) && currentUser.balance == old(currentUser.balance)
      ensures r == Rejected ==> currentUser.movements == old(currentUser.movements)
      ensures r == Done ==>
        target != currentUser &&
        currentUser.movements == old(currentUser.movements) + [-x] &&
        target.movements == old(target.movements) + [x] &&
        Sum(currentUser.movements) == old(Sum(currentUser.movements)) - x &&
        Sum(target.movements) == old(Sum(target.movements)) + x &&
        currentUser.balance == Some(Sum(currentUser.movements)) &&
        target.balance == old(target.balance) &&
        forall a :: a in accounts && a != currentUser && a != target ==> a.movements == old(a.movements)
      ensures r == Done && currentUser in accounts ==> Total(Histories()) == old(Total(Histories()))
      ensures r == Done && currentUser !in accounts ==> Total(Histories()) == old(Total(Histories())) + x
    {
      if target.userName == currentUser.userName || CachedBelow(currentUser.balance, x) {
        return Rejected;
      }
      ApplyTransfer(target, x);
      r := Done;
    }

    /** Line 188 and the updateUI after it: the loan is credited to the
        current user and the cached balance recomputed. The loan is new
        money, so the total over the listed accounts grows by it when the
        borrower is listed. */
    method ApplyLoan(amount: real)
      requires Wf() && currentUser != null
      modifies currentUser`movements, currentUser`balance
      ensures Wf() && Valid()
      ensures currentUser.movements == old(currentUser.movements) + [amount]
      ensures Sum(currentUser.movements) == old(Sum(currentUser.movements)) + amount
      ensures currentUser.balance == Some(Sum(currentUser.movements))
      ensures currentUser in accounts ==> Total(Histories()) == old(Total(Histories())) + amount
      ensures currentUser !in accounts ==> Total(Histories()) == old(Total(Histories()))
    {
      ghost var h := Histories();
      ghost var m := currentUser.movements;
      Credit(currentUser, amount);
      ghost var names := Names();
      CalcCurrentBalance();
      assert Names() == names;
      SumPush(m, amount);
      assert forall k :: 0 <= k < |accounts| ==> accounts[k].movements == Credited(h, k, amount);
      LoanTotal(h, amount);
    }

    /** What account k holds after the current user is credited x, when it
        held h[k] before. */
    ghost function Credited(h: seq<seq<real>>, k: nat, x: real): seq<real>
      requires k < |h| && k < |accounts|
      reads this, accounts
    {
      if accounts[k] == currentUser then h[k] + [x] else h[k]
    }

    /** When, from histories h, only the current user gained a movement x,
        the total over the listed accounts grows by x if the current user is
        listed, and is kept otherwise. */
    lemma LoanTotal(h: seq<seq<real>>, x: real)
      requires Wf() && currentUser != null && |h| == |accounts|
      requires forall k :: 0 <= k < |accounts| ==> accounts[k].movements == Credited(h, k, x)
      ensures currentUser in accounts ==> Total(Histories()) == Total(h) + x
      ensures currentUser !in accounts ==> Total(Histories()) == Total(h)
    {
      var h2 := Histories();
      if currentUser in accounts {
        var s := IndexOf(Names(), currentUser.userName);
        assert accounts[s] == currentUser;
        assert h2[s] == h[s] + [x];
        forall k | 0 <= k < |h| && k != s
          ensures h2[k] == h[k]
        {
          Distinct(k, s);
        }
        TotalAfterPush(h, h2, s, x);
      } else {
        assert h2 == h;
      }
    }

    /** The loan handler. `amount <= 0` rejects zero and negative amounts;
        a NaN amount passes that test and is then rejected because no
        movement is at least NaN. Otherwise the loan is granted when some
        movement is at least a tenth of it, whatever the balance. */
    method Loan(amount: Num) returns (r: Outcome)
      requires Wf()
      modifies {currentUser}`movements, {currentUser}`balance
      ensures Wf() && (old(Valid()) ==> Valid())
      ensures accounts == old(accounts) && Names() == old(Names())
      ensures currentUser != null ==> currentUser.userName == old(currentUser.userName)
      ensures r == Rejected <==>
        (amount.Finite? && amount.v <= 0.0) ||
        (currentUser != null && !LoanEligible(old(currentUser.movements), amount))
      ensures r == Threw <==> !(amount.Finite? && amount.v <= 0.0) && currentUser == null
      ensures r != Done ==> Histories() == old(Histories())
      ensures r != Done && currentUser != null ==> currentUser.balance == old(currentUser.balance)
      ensures r == Done ==>
        currentUser != null && IsPositive(amount) &&
        currentUser.movements == old(currentUser.movements) + [amount.v] &&
        Sum(currentUser.movements) == old(Sum(currentUser.movements)) + amount.v &&
        currentUser.balance == Some(Sum(currentUser.movements))
      ensures r == Done && currentUser in accounts ==> Total(Histories()) == old(Total(Histories())) + amount.v
      ensures r == Done && currentUser !in accounts ==> Total(Histories()) == old(Total(Histories()))
    {
      if amount.Finite? && amount.v <= 0.0 {
        return Rejected;
      }
      if currentUser == null {
        return Threw;
      }
      if !LoanEligible(currentUser.movements, amount) {
        return Rejected;
      }
      ApplyLoan(amount.v);
      r := Done;
    }

    /** The close handler corrected: the current user's own name and PIN
        must be typed, and the account must still be listed; it is then
        removed from the list, taking its balance with it. */
    method Close(name: string, pin: Num) returns (r: Outcome)
      requires Wf()
      modifies this`accounts
      ensures Wf() && (old(Valid()) ==> Valid())
      ensures currentUser == old(currentUser)
      ensures r == Threw <==> currentUser == null
      ensures r == Rejected <==>
        currentUser != null &&
        (currentUser.userName != name || !PinMatches(currentUser.pin, pin) || currentUser !in old(accounts))
      ensures r != Done ==> accounts == old(accounts)
      ensures r == Done ==>
        currentUser != null && |accounts| == |old(accounts)| - 1 && currentUser.userName !in Names() &&
        exists i :: 0 <= i < |old(accounts)| && old(accounts)[i] == currentUser &&
          accounts == old(accounts)[..i] + old(accounts)[i + 1..]
      ensures r == Done ==> forall a :: a in old(accounts) && a != currentUser ==> a in accounts
      ensures r == Done ==> Total(Histories()) == old(Total(Histories())) - Sum(currentUser.movements)
    {
      if currentUser == null {
        return Threw;
      }
      if currentUser.userName != name || !PinMatches(currentUser.pin, pin) {
        return Rejected;
      }
      var i := IndexOf(NamesOf(accounts), currentUser.userName);
      if i < 0 {
        return Rejected;
      }
      RemoveAt(i);
      r := Done;
    }

    /** `accounts.splice(i, 1)` on the current user's own entry. */
    method RemoveAt(i: nat)
      requires Wf() && currentUser != null && i < |accounts| && accounts[i] == currentUser
      modifies this`accounts
      ensures Wf() && (old(Valid()) ==> Valid())
      ensures accounts == old(accounts)[..i] + old(accounts)[i + 1..]
      ensures |accounts| == |old(accounts)| - 1 && currentUser.userName !in Names()
      ensures Total(Histories()) == old(Total(Histories())) - Sum(currentUser.movements)
    {
      NamesRemove(accounts, i);
      UniqueRemove(Names(), i);
      accounts := accounts[..i] + accounts[i + 1..];
      RemoveTotal(i);
    }

    /** Between two states where account i left the list and no movement
        changed, the total dropped by that account's balance. */
    twostate lemma RemoveTotal(i: nat)
      requires i < |old(accounts)| && accounts == old(accounts)[..i] + old(accounts)[i + 1..]
      requires forall a :: a in old(accounts) ==> a.movements == old(a.movements)
      ensures Total(Histories()) == old(Total(Histories())) - Sum(old(accounts)[i].movements)
    {
      var h, h2 := old(Histories()), Histories();
      assert forall k :: 0 <= k < i ==> accounts[k] == old(accounts)[k];
      assert forall k :: i <= k < |accounts| ==> accounts[k] == old(accounts)[k + 1];
      TotalAfterRemove(h, h2, i);
    }

    /** The close handler as written (lines 203-205): after the name and PIN
        check, findIndex looks the current user up and splice(index, 1)
        removes the result. The account stays current after it is closed, so
        closing it again finds nothing, and splice(-1, 1) removes the last
        listed account instead. */
    method CloseAsWritten(name: string, pin: Num) returns (r: Outcome)
      requires Wf()
      modifies this`accounts
      ensures Wf()
      ensures currentUser == old(currentUser)
      ensures r == Threw <==> currentUser == null
      ensures r == Rejected <==>
        currentUser != null && (currentUser.userName != name || !PinMatches(currentUser.pin, pin))
      ensures r != Done ==> accounts == old(accounts)
      ensures r == Done ==>
        currentUser != null && accounts == SpliceOne(old(accounts), IndexOf(old(Names()), currentUser.userName))
      ensures r == Done && currentUser in old(accounts) ==>
        |accounts| == |old(accounts)| - 1 &&
        exists i :: 0 <= i < |old(accounts)| && old(accounts)[i] == currentUser &&
          accounts == old(accounts)[..i] + old(accounts)[i + 1..]
      ensures r == Done && currentUser !in old(accounts) && old(accounts) != [] ==>
        accounts == old(accounts)[..|old(accounts)| - 1]
    {
      if currentUser == null {
        return Threw;
      }
      if currentUser.userName != name || !PinMatches(currentUser.pin, pin) {
        return Rejected;
      }
      var i := IndexOf(NamesOf(accounts), currentUser.userName);
      SpliceAccounts(i);
      r := Done;
    }

    /** `accounts.splice(i, 1)` with the index findIndex gave for the current
        user: its own entry when listed, the last entry otherwise. */
    method SpliceAccounts(i: int)
      requires Wf() && currentUser != null && i == IndexOf(Names(), currentUser.userName)
      modifies this`accounts
      ensures Wf()
      ensures accounts == SpliceOne(old(accounts), i)
      ensures currentUser in old(accounts) ==>
        0 <= i < |old(accounts)| && old(accounts)[i] == currentUser &&
        accounts == old(accounts)[..i] + old(accounts)[i + 1..]
      ensures currentUser !in old(accounts) && old(accounts) != [] ==>
        accounts == old(accounts)[..|old(accounts)| - 1]
    {
      if i >= 0 {
        assert accounts[i] == currentUser;
        SpliceFound(i);
      } else {
        SpliceNotFound();
      }
    }

    /** `accounts.splice(i, 1)` where entry i is the current user. */
    method SpliceFound(i: nat)
      requires Wf() && currentUser != null && i < |accounts| && accounts[i] == currentUser
      modifies this`accounts
      ensures Wf()
      ensures accounts == SpliceOne(old(accounts), i) && accounts == old(accounts)[..i] + old(accounts)[i + 1..]
    {
      SpliceInside(accounts, i);
      RemoveAt(i);
    }

    /** `accounts.splice(-1, 1)`: the last entry goes, whoever it is. */
    method SpliceNotFound()
      requires Wf() && currentUser != null && currentUser.userName !in Names()
      modifies this`accounts
      ensures Wf() && currentUser !in old(accounts)
      ensures accounts == SpliceOne(old(accounts), -1)
      ensures old(accounts) != [] ==> accounts == old(accounts)[..|old(accounts)| - 1]
    {
      forall k | 0 <= k < |accounts|
        ensures accounts[k] != currentUser
      {
        assert Names()[k] != currentUser.userName;
      }
      ghost var before := accounts;
      accounts := SpliceOne(accounts, -1);
      if before != [] {
        SpliceNotFoundDropsLast(before);
        assert forall k :: 0 <= k < |accounts| ==> accounts[k] == before[k];
      }
    }
  }
}
