/** The click handlers of the banking page as transitions of an explicit bank
    state. JavaScript objects are shared by reference: `currentAccount` and the
    entries of `accounts` point at the same account objects, and closing an
    account only drops it from the array. The state therefore keeps every
    account object in `heap` (its index is the object's identity) and refers to
    them from `accounts` and `current`. */
module Bank {
  import opened Options
  import opened Ledger
  import opened UserNames
  import opened Sorting

  /** One account object. `userName` is filled in by `createUserName`;
      `balance` is the figure `calcDisplayBalance` caches on the object
      (None while it is still `undefined`). */
  datatype Account = Account(
    owner: string,
    movements: seq<real>,
    interestRate: real,
    pin: int,
    userName: string,
    balance: Option<real>)

  /** The page state: all account objects, the `accounts` array as references
      into them, the `currentAccount` reference and the `sorted` flag. */
  datatype Bank = Bank(heap: seq<Account>, accounts: seq<nat>, current: nat, sorted: bool)

  /** Every reference points at an existing object. */
  predicate Valid(b: Bank)
  {
    && b.current < |b.heap|
    && forall k :: 0 <= k < |b.accounts| ==> b.accounts[k] < |b.heap|
  }

  /** The balance cached on the current account is its actual balance. */
  predicate Coherent(b: Bank)
    requires Valid(b)
  {
    b.heap[b.current].balance == Some(Balance(b.heap[b.current].movements))
  }

  /** No two listed accounts share a user name (true of the seeded data; nothing enforces it). */
  predicate UniqueUserNames(b: Bank)
    requires Valid(b)
  {
    forall i, j :: 0 <= i < j < |b.accounts| ==> b.heap[b.accounts[i]].userName != b.heap[b.accounts[j]].userName
  }

  /** `createUserName(accs)`: sets every account's user name from its owner. */
  function CreateUserNames(accs: seq<Account>): seq<Account>
  {
    seq(|accs|, k requires 0 <= k < |accs| => accs[k].(userName := UserName(accs[k].owner)))
  }

  /** What `updateUI` leaves behind on the account: `calcDisplayBalance` caches
      the balance. The rest of `updateUI` only renders. */
  function Refresh(a: Account): Account
  {
    a.(balance := Some(Balance(a.movements)))
  }

  /** `movements.push(m)`. */
  function Push(a: Account, m: real): Account
  {
    a.(movements := a.movements + [m])
  }

  /** Total money held by all account objects, listed or not. */
  function Total(heap: seq<Account>): real
  {
    if |heap| == 0 then 0.0 else Sum(heap[0].movements) + Total(heap[1..])
  }

  lemma {:induction false} TotalUpdate(heap: seq<Account>, k: nat, a: Account)
    requires k < |heap|
    ensures Total(heap[k := a]) == Total(heap) - Sum(heap[k].movements) + Sum(a.movements)
  {
    if k > 0 {
      assert heap[k := a][1..] == heap[1..][k - 1 := a];
      TotalUpdate(heap[1..], k - 1, a);
    } else {
      assert heap[k := a][1..] == heap[1..];
    }
  }

  /** `findIndex(acc => acc.userName === name)` over the referenced accounts: the
      position of the first one with that user name, or -1. */
  function FindIndex(heap: seq<Account>, refs: seq<nat>, name: string): (i: int)
    requires forall k :: 0 <= k < |refs| ==> refs[k] < |heap|
    ensures -1 <= i < |refs|
    ensures i == -1 <==> forall k :: 0 <= k < |refs| ==> heap[refs[k]].userName != name
    ensures 0 <= i ==> heap[refs[i]].userName == name
    ensures 0 <= i ==> forall k :: 0 <= k < i ==> heap[refs[k]].userName != name
  {
    if |refs| == 0 then -1
    else if heap[refs[0]].userName == name then 0
    else
      var j := FindIndex(heap, refs[1..], name);
      if j == -1 then -1 else j + 1
  }

  /** `accounts.find(acc => acc.userName === name)`: the first listed account
      with that user name, or `undefined`. */
  function Find(b: Bank, name: string): (r: Option<nat>)
    requires Valid(b)
    ensures r.None? <==> forall k :: 0 <= k < |b.accounts| ==> b.heap[b.accounts[k]].userName != name
    ensures r.Some? ==> r.value < |b.heap| && b.heap[r.value].userName == name
    ensures r.Some? ==> exists i :: 0 <= i < |b.accounts| && b.accounts[i] == r.value
                                   && forall k :: 0 <= k < i ==> b.heap[b.accounts[k]].userName != name
  {
    var i := FindIndex(b.heap, b.accounts, name);
    if i < 0 then None else Some(b.accounts[i])
  }

  /** `s.splice(start, 1)`: a negative start counts from the end (clamped at 0),
      a start past the end removes nothing. */
  function Splice<T>(s: seq<T>, start: int): (r: seq<T>)
    ensures 0 <= start < |s| ==> r == s[..start] + s[start + 1..]
    ensures start == -1 && |s| > 0 ==> r == s[..|s| - 1]
    ensures start >= |s| ==> r == s
    ensures |s| == 0 ==> r == []
  {
    var k := if start < 0 then (if |s| + start < 0 then 0 else |s| + start)
             else (if start > |s| then |s| else start);
    if k < |s| then s[..k] + s[k + 1..] else s
  }

  // ---------------------------------------------------------------- transfer

  /** `currentAccount.balance >= amount`; an `undefined` balance compares false. */
  predicate Covers(cached: Option<real>, amount: real)
  {
    cached.Some? && cached.value >= amount
  }

  /** The guard of the transfer handler. */
  predicate TransferApplies(b: Bank, to: string, amount: real)
    requires Valid(b)
  {
    var receiver := Find(b, to);
    && amount > 0.0
    && receiver.Some?
    && Covers(b.heap[b.current].balance, amount)
    && b.heap[receiver.value].userName != b.heap[b.current].userName
  }

  /** The transfer click: when the guard holds, `-amount` is pushed on the
      current account, `amount` on the receiver, and `updateUI` refreshes the
      current account's cached balance. Otherwise nothing changes. */
  function Transfer(b: Bank, to: string, amount: real): (r: Bank)
    requires Valid(b)
    ensures Valid(r)
    ensures r.accounts == b.accounts && r.current == b.current && r.sorted == b.sorted
    ensures |r.heap| == |b.heap|
    ensures r == b <==> !TransferApplies(b, to, amount)
    ensures TransferApplies(b, to, amount) ==>
              var cur := b.current;
              var rcv := Find(b, to).value;
              && rcv != cur
              && r.heap[cur] == b.heap[cur].(movements := b.heap[cur].movements + [-amount],
                                             balance := Some(Balance(b.heap[cur].movements) - amount))
              && r.heap[rcv] == b.heap[rcv].(movements := b.heap[rcv].movements + [amount])
              && (forall k :: 0 <= k < |b.heap| && k != cur && k != rcv ==> r.heap[k] == b.heap[k])
              && Total(r.heap) == Total(b.heap)
  {
    if !TransferApplies(b, to, amount) then b
    else
      var cur := b.current;
      var rcv := Find(b, to).value;
      var sender := Refresh(Push(b.heap[cur], -amount));
      var receiver := Push(b.heap[rcv], amount);
      var heap1 := b.heap[cur := sender];
      var heap2 := heap1[rcv := receiver];
      BalanceAppend(b.heap[cur].movements, -amount);
      BalanceAppend(b.heap[rcv].movements, amount);
      TotalUpdate(b.heap, cur, sender);
      TotalUpdate(heap1, rcv, receiver);
      assert |heap2[cur].movements| > |b.heap[cur].movements|;
      b.(heap := heap2)
  }

  /** With a coherent cache, the transfer guard checks the actual balance, and
      "receiver differs from sender" reduces to comparing the typed name. */
  lemma TransferGuard(b: Bank, to: string, amount: real)
    requires Valid(b) && Coherent(b)
    ensures TransferApplies(b, to, amount) <==>
              && amount > 0.0
              && (exists k :: 0 <= k < |b.accounts| && b.heap[b.accounts[k]].userName == to)
              && Balance(b.heap[b.current].movements) >= amount
              && to != b.heap[b.current].userName
  {
  }

  // -------------------------------------------------------------------- loan

  /** Some movement is at least a tenth of the loan. */
  predicate Backed(movements: seq<real>, amount: int)
  {
    exists i :: 0 <= i < |movements| && movements[i] >= amount as real / 10.0
  }

  /** The guard of the loan handler, on `Math.floor` of the requested amount. */
  predicate LoanApplies(b: Bank, request: real)
    requires Valid(b)
  {
    var amount := request.Floor;
    amount > 0 && Backed(b.heap[b.current].movements, amount)
  }

  /** The loan click: when the guard holds, the floored amount is pushed on the
      current account and its cached balance refreshed. Otherwise nothing changes. */
  function Loan(b: Bank, request: real): (r: Bank)
    requires Valid(b)
    ensures Valid(r)
    ensures r.accounts == b.accounts && r.current == b.current && r.sorted == b.sorted
    ensures |r.heap| == |b.heap|
    ensures r == b <==> !LoanApplies(b, request)
    ensures LoanApplies(b, request) ==>
              var cur := b.current;
              && request.Floor > 0
              && r.heap[cur] == b.heap[cur].(movements := b.heap[cur].movements + [request.Floor as real],
                                             balance := Some(Balance(b.heap[cur].movements) + request.Floor as real))
              && (forall k :: 0 <= k < |b.heap| && k != cur ==> r.heap[k] == b.heap[k])
  {
    if !LoanApplies(b, request) then b
    else
      var cur := b.current;
      var amount := request.Floor as real;
      BalanceAppend(b.heap[cur].movements, amount);
      var heap1 := b.heap[cur := Refresh(Push(b.heap[cur], amount))];
      assert |heap1[cur].movements| > |b.heap[cur].movements|;
      b.(heap := heap1)
  }

  /** For a positive loan the backing movement is necessarily a deposit. */
  lemma BackedByDeposit(movements: seq<real>, amount: int)
    requires amount > 0
    ensures Backed(movements, amount) <==>
              exists i :: 0 <= i < |movements| && IsDeposit(movements[i]) && movements[i] >= amount as real / 10.0
  {
  }

  // ------------------------------------------------------------------- close

  /** The credentials check of the close handler. */
  predicate CloseApplies(b: Bank, user: string, pin: int)
    requires Valid(b)
  {
    user == b.heap[b.current].userName && pin == b.heap[b.current].pin
  }

  /** The close click: on matching credentials, `accounts.splice(index, 1)` with
      `index` the position of the first account named like the current one.
      `currentAccount` is not cleared and no account object is touched. */
  function Close(b: Bank, user: string, pin: int): (r: Bank)
    requires Valid(b)
    ensures Valid(r)
    ensures r.heap == b.heap && r.current == b.current && r.sorted == b.sorted
    ensures !CloseApplies(b, user, pin) ==> r == b
    ensures CloseApplies(b, user, pin) ==>
              var name := b.heap[b.current].userName;
              var accs := b.accounts;
              && ((exists k :: 0 <= k < |accs| && b.heap[accs[k]].userName == name) ==>
                    exists i :: && 0 <= i < |accs|
                                && b.heap[accs[i]].userName == name
                                && (forall k :: 0 <= k < i ==> b.heap[accs[k]].userName != name)
                                && r.accounts == accs[..i] + accs[i + 1..])
              && ((forall k :: 0 <= k < |accs| ==> b.heap[accs[k]].userName != name) ==>
                    r.accounts == if |accs| == 0 then [] else accs[..|accs| - 1])
  {
    if !CloseApplies(b, user, pin) then b
    else
      var name := b.heap[b.current].userName;
      var index := FindIndex(b.heap, b.accounts, name);
      SpliceKeepsRefs(b, index);
      SpliceAtFindIndex(b, name);
      b.(accounts := Splice(b.accounts, index))
  }

  /** Splicing at `findIndex` removes the first account with the name, or the
      last account when none has it. */
  lemma SpliceAtFindIndex(b: Bank, name: string)
    requires Valid(b)
    ensures var accs := b.accounts;
            var r := Splice(accs, FindIndex(b.heap, accs, name));
            && ((exists k :: 0 <= k < |accs| && b.heap[accs[k]].userName == name) ==>
                  exists i :: && 0 <= i < |accs|
                              && b.heap[accs[i]].userName == name
                              && (forall k :: 0 <= k < i ==> b.heap[accs[k]].userName != name)
                              && r == accs[..i] + accs[i + 1..])
            && ((forall k :: 0 <= k < |accs| ==> b.heap[accs[k]].userName != name) ==>
                  r == if |accs| == 0 then [] else accs[..|accs| - 1])
  {
    if exists k :: 0 <= k < |b.accounts| && b.heap[b.accounts[k]].userName == name {
      SpliceFound(b, name);
    } else {
      SpliceMissing(b.accounts);
    }
  }

  lemma SpliceFound(b: Bank, name: string)
    requires Valid(b)
    requires exists k :: 0 <= k < |b.accounts| && b.heap[b.accounts[k]].userName == name
    ensures var accs := b.accounts;
            exists i :: && 0 <= i < |accs|
                        && b.heap[accs[i]].userName == name
                        && (forall k :: 0 <= k < i ==> b.heap[accs[k]].userName != name)
                        && Splice(accs, FindIndex(b.heap, accs, name)) == accs[..i] + accs[i + 1..]
  {
    var i := FindIndex(b.heap, b.accounts, name);
    SpliceInRange(b.accounts, i);
  }

  lemma SpliceInRange(accs: seq<nat>, i: int)
    requires 0 <= i < |accs|
    ensures Splice(accs, i) == accs[..i] + accs[i + 1..]
  {
  }

  lemma SpliceMissing(accs: seq<nat>)
    ensures Splice(accs, -1) == if |accs| == 0 then [] else accs[..|accs| - 1]
  {
  }

  lemma SpliceKeepsRefs(b: Bank, start: int)
    requires Valid(b)
    ensures Valid(b.(accounts := Splice(b.accounts, start)))
  {
    var r := Splice(b.accounts, start);
    forall k | 0 <= k < |r|
      ensures r[k] < |b.heap|
    {
      assert r[k] in b.accounts;
    }
  }

  /** Dropping one listed account, or the last one, keeps the names distinct. */
  lemma SpliceKeepsUnique(b: Bank, start: int)
    requires Valid(b) && UniqueUserNames(b)
    requires start == -1 || 0 <= start < |b.accounts|
    ensures Valid(b.(accounts := Splice(b.accounts, start)))
    ensures UniqueUserNames(b.(accounts := Splice(b.accounts, start)))
  {
    SpliceKeepsRefs(b, start);
    var s := b.accounts;
    var r := Splice(s, start);
    if |s| > 0 {
      var m := if start == -1 then |s| - 1 else start;
      assert r == s[..m] + s[m + 1..];
      forall i, j | 0 <= i < j < |r|
        ensures b.heap[r[i]].userName != b.heap[r[j]].userName
      {
        var i' := if i < m then i else i + 1;
        var j' := if j < m then j else j + 1;
        assert r[i] == s[i'] && r[j] == s[j'];
      }
    }
  }

  /** With unique user names and the current account listed, closing removes
      exactly the current account and keeps the others in order. */
  lemma CloseRemovesCurrent(b: Bank, pin: int)
    requires Valid(b) && UniqueUserNames(b)
    requires exists k :: 0 <= k < |b.accounts| && b.accounts[k] == b.current
    requires pin == b.heap[b.current].pin
    ensures var r := Close(b, b.heap[b.current].userName, pin);
            exists i :: && 0 <= i < |b.accounts|
                        && b.accounts[i] == b.current
                        && r.accounts == b.accounts[..i] + b.accounts[i + 1..]
    ensures b.current !in Close(b, b.heap[b.current].userName, pin).accounts
  {
    var name := b.heap[b.current].userName;
    var accs := b.accounts;
    var r := Close(b, name, pin);
    var c :| 0 <= c < |accs| && accs[c] == b.current;
    var i := FindIndex(b.heap, accs, name);
    assert r.accounts == Splice(accs, i);
    assert i == c;
    forall k | 0 <= k < |r.accounts|
      ensures r.accounts[k] != b.current
    {
      var j := if k < i then k else k + 1;
      assert r.accounts[k] == accs[j];
      assert j != i;
    }
  }

  // -------------------------------------------------------------------- sort

  /** The state after a sort click, with the movements it displays. */
  datatype SortView = SortView(bank: Bank, shown: seq<real>)

  /** The sort click: `displayMovements(currentAccount, !sorted)` shows an
      ascending copy when the flag was off and the stored order when it was on,
      then the flag flips. The stored movements are never reordered. */
  function SortClick(b: Bank): (v: SortView)
    requires Valid(b)
    ensures v.bank == b.(sorted := !b.sorted)
    ensures multiset(v.shown) == multiset(b.heap[b.current].movements)
    ensures !b.sorted ==> Ascending(v.shown)
    ensures b.sorted ==> v.shown == b.heap[b.current].movements
  {
    var movs := b.heap[b.current].movements;
    SortView(b.(sorted := !b.sorted), if b.sorted then movs else SortAscending(movs))
  }

  /** Two sort clicks restore the state; of the two views one is the stored
      order and the other its unique ascending arrangement. */
  lemma SortTwice(b: Bank)
    requires Valid(b)
    ensures SortClick(SortClick(b).bank).bank == b
    ensures var first := SortClick(b).shown;
            var second := SortClick(SortClick(b).bank).shown;
            var movs := b.heap[b.current].movements;
            (if b.sorted then first else second) == movs
            && forall s :: Ascending(s) && multiset(s) == multiset(movs) ==>
                 (if b.sorted then second else first) == s
  {
    var movs := b.heap[b.current].movements;
    var sortedView := SortAscending(movs);
    forall s | Ascending(s) && multiset(s) == multiset(movs)
      ensures sortedView == s
    {
      SortedPermutationUnique(sortedView, s);
    }
  }

  // -------------------------------------------------------------- invariants

  /** Every handler keeps the current account's cached balance exact. */
  lemma HandlersKeepCoherent(b: Bank, to: string, amount: real, request: real, user: string, pin: int)
    requires Valid(b) && Coherent(b)
    ensures Coherent(Transfer(b, to, amount))
    ensures Coherent(Loan(b, request))
    ensures Coherent(Close(b, user, pin))
    ensures Coherent(SortClick(b).bank)
  {
    if TransferApplies(b, to, amount) {
      BalanceAppend(b.heap[b.current].movements, -amount);
    }
    if LoanApplies(b, request) {
      BalanceAppend(b.heap[b.current].movements, request.Floor as real);
    }
  }

  /** No handler renames an account or lists a new one, so distinct user names
      stay distinct. */
  lemma HandlersKeepUniqueUserNames(b: Bank, to: string, amount: real, request: real, user: string, pin: int)
    requires Valid(b) && UniqueUserNames(b)
    ensures UniqueUserNames(Transfer(b, to, amount))
    ensures UniqueUserNames(Loan(b, request))
    ensures UniqueUserNames(Close(b, user, pin))
    ensures UniqueUserNames(SortClick(b).bank)
  {
    var t := Transfer(b, to, amount);
    assert forall k :: 0 <= k < |b.heap| ==> t.heap[k].userName == b.heap[k].userName;
    var l := Loan(b, request);
    assert forall k :: 0 <= k < |b.heap| ==> l.heap[k].userName == b.heap[k].userName;
    if CloseApplies(b, user, pin) {
      SpliceKeepsUnique(b, FindIndex(b.heap, b.accounts, b.heap[b.current].userName));
    }
  }
}
