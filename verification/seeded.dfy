/** The data the page starts with: four account literals, `createUserName`
    applied to them, and the fake login that fixes `currentAccount = account1`
    and runs `updateUI` on it once. The lemmas replay worked examples on this data. */
module Seeded {
  import opened Options
  import opened Ledger
  import opened UserNames
  import opened Bank

  const Movements1: seq<real> := [200.0, 450.0, -400.0, 3000.0, -650.0, -130.0, 70.0, 1300.0]
  const Movements2: seq<real> := [5000.0, 3400.0, -150.0, -790.0, -3210.0, -1000.0, 8500.0, -30.0]
  const Movements3: seq<real> := [200.0, -200.0, 340.0, -300.0, -20.0, 50.0, 400.0, -460.0]
  const Movements4: seq<real> := [430.0, 1000.0, 700.0, 50.0, 90.0]

  lemma Account1Balance()
    ensures Balance(Movements1) == 3840.0
  {
    assert Sum([200.0, 450.0, -400.0, 3000.0, -650.0, -130.0, 70.0, 1300.0]) == 3840.0;
  }

  /** The account literals; `userName` is not set yet and no balance is cached. */
  function Seeds(): seq<Account>
  {
    [ Account("Jonas Schmedtmann", Movements1, 1.2, 1111, "", None),
      Account("Jessica Davis", Movements2, 1.5, 2222, "", None),
      Account("Steven Thomas Williams", Movements3, 0.7, 3333, "", None),
      Account("Sarah Smith", Movements4, 1.0, 4444, "", None) ]
  }

  /** The state once the script has loaded: user names created, account1 current
      and its balance cached by the first `updateUI`, the sort flag off. */
  function InitialBank(): Bank
  {
    var heap := CreateUserNames(Seeds());
    Bank(heap[0 := Refresh(heap[0])], [0, 1, 2, 3], 0, false)
  }

  /** The loaded state written out: user names and account1's cached balance filled in. */
  const Loaded: Bank := Bank(
    [ Account("Jonas Schmedtmann", Movements1, 1.2, 1111, "js", Some(3840.0)),
      Account("Jessica Davis", Movements2, 1.5, 2222, "jd", None),
      Account("Steven Thomas Williams", Movements3, 0.7, 3333, "stw", None),
      Account("Sarah Smith", Movements4, 1.0, 4444, "ss", None) ],
    [0, 1, 2, 3], 0, false)

  /** `createUserName` names account1 "js", and the first `updateUI` caches
      its balance of 3840. */
  lemma Loaded1()
    ensures InitialBank().heap[0] == Loaded.heap[0]
  {
    UserNameJonasSchmedtmann();
    Account1Balance();
  }

  /** `createUserName` names the other accounts "jd", "stw" and "ss"; their
      balance is never cached. */
  lemma Loaded2()
    ensures InitialBank().heap[1] == Loaded.heap[1]
  {
    UserNameJessicaDavis();
  }

  lemma Loaded3()
    ensures InitialBank().heap[2] == Loaded.heap[2]
  {
    UserNameStevenThomasWilliams();
  }

  lemma Loaded4()
    ensures InitialBank().heap[3] == Loaded.heap[3]
  {
    UserNameSarahSmith();
  }

  /** The loaded page lists the four accounts in order, account1 is current
      and the sort flag is off; with `Loaded1`..`Loaded4` this makes it `Loaded`. */
  lemma InitialBankShape()
    ensures |InitialBank().heap| == |Loaded.heap|
    ensures InitialBank().accounts == Loaded.accounts
    ensures InitialBank().current == Loaded.current
    ensures InitialBank().sorted == Loaded.sorted
  {
  }

  /** The loaded page satisfies the model's invariants. */
  lemma LoadedInvariants()
    ensures Valid(Loaded) && Coherent(Loaded) && UniqueUserNames(Loaded)
  {
    Account1Balance();
  }

  /** account1's figures: the 70 deposit earns 0.84 at 1.2% and is left out of
      the interest, the 1300 deposit earns 15.6 and is kept. */
  lemma Account1Summary()
    ensures !Qualifies(Term(70.0, 1.2)) && Term(70.0, 1.2) == 0.84
    ensures Qualifies(Term(1300.0, 1.2)) && Term(1300.0, 1.2) == 15.6
    ensures Summary(Movements1, 1.2) == Some(Figures(5020.0, -1180.0, 59.4))
  {
    Account1Filters();
    assert Sum([200.0, 450.0, 3000.0, 70.0, 1300.0]) == 5020.0;
    assert Sum([-400.0, -650.0, -130.0]) == -1180.0;
    assert Sum([2.4, 5.4, 36.0, 15.6]) == 59.4;
  }

  lemma Account1Filters()
    ensures Deposits(Movements1) == [200.0, 450.0, 3000.0, 70.0, 1300.0]
    ensures Withdrawals(Movements1) == [-400.0, -650.0, -130.0]
    ensures PaidTerms(Movements1, 1.2) == [2.4, 5.4, 36.0, 15.6]
  {
    assert Deposits(Movements1) == [200.0, 450.0, 3000.0, 70.0, 1300.0];
    assert InterestTerms([200.0, 450.0, 3000.0, 70.0, 1300.0], 1.2) == [2.4, 5.4, 36.0, 0.84, 15.6];
  }

  /** account4 has no withdrawal, so the outflow `reduce` throws and the summary fails. */
  lemma Account4SummaryFails()
    ensures Reduce(Withdrawals(Movements4)) == None
    ensures Reduce(Deposits(Movements4)) == Some(2270.0)
    ensures Summary(Movements4, 1.0) == None
  {
    assert Deposits(Movements4) == Movements4;
  }

  /** Transferring 500 from account1 (balance 3840) to "jd" leaves account1 with
      3340 and credits account2 with one new movement of 500. */
  lemma TransferExample()
    ensures Valid(Loaded)
    ensures TransferApplies(Loaded, "jd", 500.0)
    ensures Transfer(Loaded, "jd", 500.0).heap[0].balance == Some(3340.0)
    ensures Transfer(Loaded, "jd", 500.0).heap[1].movements == Movements2 + [500.0]
  {
    LoadedInvariants();
    assert Loaded.heap[0].userName != "jd";
    assert FindIndex(Loaded.heap, Loaded.accounts, "jd") == 1;
    Account1Balance();
  }

  /** A zero amount, an unknown receiver, more than the balance, and a transfer
      to oneself are all rejected without any change. */
  lemma TransferRejections()
    ensures Valid(Loaded)
    ensures Transfer(Loaded, "jd", 0.0) == Loaded
    ensures Transfer(Loaded, "zz", 10.0) == Loaded
    ensures Transfer(Loaded, "jd", 3840.5) == Loaded
    ensures Transfer(Loaded, "js", 10.0) == Loaded
  {
    LoadedInvariants();
    assert Find(Loaded, "zz") == None;
    assert Find(Loaded, "js") == Some(0);
  }

  /** Against account3's movements a loan of 40 is backed (340 >= 4). So is
      one of 4000: its tenth is 400 and account3 holds a deposit of exactly 400,
      which the `>=` accepts. The smallest rejected whole amount is 4001. */
  lemma LoanAgainstAccount3()
    ensures Backed(Movements3, 40)
    ensures Backed(Movements3, 4000)
    ensures !Backed(Movements3, 4001)
  {
    assert Movements3[2] >= 40 as real / 10.0;
    assert Movements3[6] >= 4000 as real / 10.0;
    assert 4001 as real / 10.0 == 400.1;
    forall i | 0 <= i < |Movements3|
      ensures Movements3[i] < 400.1
    {
      assert Movements3 == [200.0, -200.0, 340.0, -300.0, -20.0, 50.0, 400.0, -460.0];
    }
  }

  /** The same requests as loan clicks in a hypothetical state with account3
      current (the page itself keeps account1 current): the amount is floored
      first, so 40.9 lends 40 and 4001.5 is refused. Only the pushed movements are
      stated; on the page, `updateUI` would then throw on account3's missing
      dates before caching a balance. */
  lemma LoanClicksOnAccount3()
    ensures Valid(Loaded.(current := 2))
    ensures Loan(Loaded.(current := 2), 40.9).heap[2].movements == Movements3 + [40.0]
    ensures Loan(Loaded.(current := 2), 4000.0).heap[2].movements == Movements3 + [4000.0]
    ensures Loan(Loaded.(current := 2), 4001.5) == Loaded.(current := 2)
  {
    LoadedInvariants();
    LoanAgainstAccount3();
  }

  /** Closing account1 with its credentials drops it from the list. */
  lemma CloseOnce()
    ensures Valid(Loaded)
    ensures Close(Loaded, "js", 1111).accounts == [1, 2, 3]
  {
    LoadedInvariants();
    assert FindIndex(Loaded.heap, Loaded.accounts, "js") == 0;
  }

  /** The same click again finds no "js" (index -1), and `splice(-1, 1)` drops
      the last account, Sarah Smith's. */
  lemma CloseTwice()
    ensures Valid(Loaded)
    ensures Close(Close(Loaded, "js", 1111), "js", 1111).accounts == [1, 2]
  {
    CloseOnce();
    var b := Close(Loaded, "js", 1111);
    assert b == Loaded.(accounts := [1, 2, 3]);
    assert FindIndex(b.heap, b.accounts, "js") == -1;
  }

  /** Wrong credentials close nothing. */
  lemma CloseRejections()
    ensures Valid(Loaded)
    ensures Close(Loaded, "js", 2222) == Loaded
    ensures Close(Loaded, "jd", 1111) == Loaded
  {
    LoadedInvariants();
  }

  /** After closing, `currentAccount` still holds account1, which can still
      send money to listed accounts. */
  lemma ClosedAccountStillSends()
    ensures Valid(Close(Loaded, "js", 1111))
    ensures TransferApplies(Close(Loaded, "js", 1111), "jd", 100.0)
  {
    LoadedInvariants();
    var b := Close(Loaded, "js", 1111);
    assert b.accounts == [1, 2, 3];
    assert Find(b, "jd") == Some(1);
  }
}
