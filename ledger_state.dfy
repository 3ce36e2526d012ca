/** The CashConnect ledger as a value: the account table and the per-account
    transaction lists, the effect of each guarded mutator on them, and the
    invariants and bookkeeping facts those mutators keep. Amounts are whole
    cents; a timestamp is whatever the clock returned, taken as a parameter. */
module LedgerState {

  type Username = string
  type Pin = string
  type Timestamp = string

  datatype Option<T> = None | Some(value: T)

  /** One row of the account table: the balance in cents and the PIN. */
  datatype Account = Account(balance: int, pin: Pin)

  /** The four kinds of history entry the ledger writes. */
  datatype Kind = Deposit | Withdraw | Transfer | Received

  /** One history entry; `target` names the other party of a transfer. */
  datatype Entry = Entry(kind: Kind, amount: int, time: Timestamp, target: Option<Username>)

  /** What a mutator reports: success, or which guard turned the call away. */
  datatype Status =
    | Ok
    | UsernameTaken        // create_account: the username is already registered
    | NegativeBalance      // create_account: the opening balance is below zero
    | NonPositiveAmount    // deposit, withdraw, transfer: amount <= 0
    | InsufficientBalance  // withdraw, transfer: the balance is below the amount
    | UnknownReceiver      // transfer: the receiver is not registered

  /** Both global dictionaries: `accounts` and `transactions`. */
  datatype State = State(accounts: map<Username, Account>, transactions: map<Username, seq<Entry>>)

  /** A mutator's new state together with its status. */
  datatype Outcome = Outcome(post: State, status: Status)

  const Empty := State(map[], map[])

  /** Entries of these kinds record the other party. */
  predicate HasTarget(kind: Kind)
  {
    kind == Transfer || kind == Received
  }

  /** The entry add_transaction builds: a target given for any other kind is dropped. */
  function NewEntry(kind: Kind, amount: int, time: Timestamp, target: Option<Username>): (e: Entry)
    ensures e.kind == kind && e.amount == amount && e.time == time
    ensures HasTarget(kind) ==> e.target == target
    ensures !HasTarget(kind) ==> e.target.None?
  {
    Entry(kind, amount, time, if HasTarget(kind) then target else None)
  }

  /** Every username with an account also has a (possibly empty) history, and
      the other way round. */
  predicate Aligned(s: State)
  {
    s.accounts.Keys == s.transactions.Keys
  }

  /** The balance of `u` changed by `delta`; the PIN is kept. */
  function Credit(accounts: map<Username, Account>, u: Username, delta: int): map<Username, Account>
    requires u in accounts
  {
    accounts[u := accounts[u].(balance := accounts[u].balance + delta)]
  }

  /** `e` appended to the history of `u`. */
  function Log(transactions: map<Username, seq<Entry>>, u: Username, e: Entry): map<Username, seq<Entry>>
    requires u in transactions
  {
    transactions[u := transactions[u] + [e]]
  }

  // ---------------------------------------------------------------------
  // The four mutators. Every guard is decided on the old state, and a
  // failing guard returns that state untouched.
  // ---------------------------------------------------------------------

  function CreateAccountStep(s: State, username: Username, pin: Pin, initialBalance: int): (o: Outcome)
    ensures o.status != Ok ==> o.post == s
    ensures Aligned(s) ==> Aligned(o.post)
  {
    if username in s.accounts then Outcome(s, UsernameTaken)
    else if initialBalance < 0 then Outcome(s, NegativeBalance)
    else Outcome(State(s.accounts[username := Account(initialBalance, pin)],
                       s.transactions[username := []]), Ok)
  }

  function DepositStep(s: State, username: Username, amount: int, now: Timestamp): (o: Outcome)
    requires Aligned(s) && username in s.accounts
    ensures o.status != Ok ==> o.post == s
    ensures Aligned(o.post)
  {
    if amount <= 0 then Outcome(s, NonPositiveAmount)
    else Outcome(State(Credit(s.accounts, username, amount),
                       Log(s.transactions, username, NewEntry(Deposit, amount, now, None))), Ok)
  }

  function WithdrawStep(s: State, username: Username, amount: int, now: Timestamp): (o: Outcome)
    requires Aligned(s) && username in s.accounts
    ensures o.status != Ok ==> o.post == s
    ensures Aligned(o.post)
  {
    if amount <= 0 then Outcome(s, NonPositiveAmount)
    else if s.accounts[username].balance < amount then Outcome(s, InsufficientBalance)
    else Outcome(State(Credit(s.accounts, username, -amount),
                       Log(s.transactions, username, NewEntry(Withdraw, amount, now, None))), Ok)
  }

  /** The sender is debited before the receiver is credited, and the sender's
      entry is logged before the receiver's; each log call reads the clock
      afresh, hence the two timestamps. A self-transfer is not special-cased. */
  function TransferStep(s: State, sender: Username, receiver: Username, amount: int,
                        sentAt: Timestamp, receivedAt: Timestamp): (o: Outcome)
    requires Aligned(s) && sender in s.accounts
    ensures o.status != Ok ==> o.post == s
    ensures Aligned(o.post)
  {
    if receiver !in s.accounts then Outcome(s, UnknownReceiver)
    else if amount <= 0 then Outcome(s, NonPositiveAmount)
    else if s.accounts[sender].balance < amount then Outcome(s, InsufficientBalance)
    else
      var debited := Credit(s.accounts, sender, -amount);
      var sent := Log(s.transactions, sender, NewEntry(Transfer, amount, sentAt, Some(receiver)));
      Outcome(State(Credit(debited, receiver, amount),
                    Log(sent, receiver, NewEntry(Received, amount, receivedAt, Some(sender)))), Ok)
  }

  /** The login check: the user exists and the PIN matches exactly. */
  predicate CanLogin(accounts: map<Username, Account>, username: Username, pin: Pin)
    ensures CanLogin(accounts, username, pin) ==> username in accounts
    ensures username in accounts ==> (CanLogin(accounts, username, pin) <==> accounts[username].pin == pin)
  {
    username in accounts && accounts[username].pin == pin
  }

  // ---------------------------------------------------------------------
  // Invariants
  // ---------------------------------------------------------------------

  /** An entry is well formed: a positive amount, a target exactly for the
      transfer kinds, and that target a registered user. */
  predicate EntryOk(accounts: map<Username, Account>, e: Entry)
  {
    && e.amount > 0
    && (e.target.Some? <==> HasTarget(e.kind))
    && (e.target.Some? ==> e.target.value in accounts)
  }

  ghost predicate EntriesOk(accounts: map<Username, Account>, transactions: map<Username, seq<Entry>>)
  {
    forall u, i :: u in transactions && 0 <= i < |transactions[u]| ==> EntryOk(accounts, transactions[u][i])
  }

  /** The ledger invariant: the two tables share their keys, no balance is
      negative, and every history entry is well formed. */
  ghost predicate Valid(s: State)
  {
    && Aligned(s)
    && (forall u :: u in s.accounts ==> s.accounts[u].balance >= 0)
    && EntriesOk(s.accounts, s.transactions)
  }

  /** `t` is a later state of the ledger than `s`: no account disappears, no PIN
      changes, and every history has only grown at its end. */
  ghost predicate Extends(s: State, t: State)
  {
    && s.accounts.Keys <= t.accounts.Keys
    && (forall u :: u in s.accounts ==> t.accounts[u].pin == s.accounts[u].pin)
    && (forall u :: u in s.transactions ==> u in t.transactions && s.transactions[u] <= t.transactions[u])
  }

  /** Accounts other than those in `who` are the same in `a` and `b`. */
  ghost predicate AccountsAgreeExcept(a: map<Username, Account>, b: map<Username, Account>, who: set<Username>)
  {
    a.Keys == b.Keys && forall v :: v in a && v !in who ==> b[v] == a[v]
  }

  /** Histories other than those in `who` are the same in `a` and `b`. */
  ghost predicate HistoriesAgreeExcept(a: map<Username, seq<Entry>>, b: map<Username, seq<Entry>>, who: set<Username>)
  {
    a.Keys == b.Keys && forall v :: v in a && v !in who ==> b[v] == a[v]
  }

  lemma NewEntryOk(accounts: map<Username, Account>, kind: Kind, amount: int, time: Timestamp, target: Option<Username>)
    requires amount > 0
    requires HasTarget(kind) ==> target.Some? && target.value in accounts
    ensures EntryOk(accounts, NewEntry(kind, amount, time, target))
  {
  }

  /** Appending a well-formed entry keeps every history well formed, also
      against an account table that has gained keys. */
  lemma {:induction false} LogKeepsEntriesOk(accounts: map<Username, Account>, accounts': map<Username, Account>,
                                            transactions: map<Username, seq<Entry>>, u: Username, e: Entry)
    requires accounts.Keys <= accounts'.Keys
    requires EntriesOk(accounts, transactions) && u in transactions && EntryOk(accounts', e)
    ensures EntriesOk(accounts', Log(transactions, u, e))
  {
  }

  // ---------------------------------------------------------------------
  // create_account
  // ---------------------------------------------------------------------

  /** The duplicate check comes first; a negative opening balance is refused,
      zero is accepted; a refusal changes nothing. */
  lemma CreateAccountGuards(s: State, username: Username, pin: Pin, initialBalance: int)
    ensures var o := CreateAccountStep(s, username, pin, initialBalance);
      && (o.status == UsernameTaken <==> username in s.accounts)
      && (o.status == NegativeBalance <==> username !in s.accounts && initialBalance < 0)
      && (o.status == Ok <==> username !in s.accounts && initialBalance >= 0)
      && (o.status != Ok ==> o.post == s)
  {
  }

  /** A new account has exactly the given balance and PIN and an empty history;
      nothing else is touched. */
  lemma CreateAccountEffect(s: State, username: Username, pin: Pin, initialBalance: int)
    requires CreateAccountStep(s, username, pin, initialBalance).status == Ok
    ensures var t := CreateAccountStep(s, username, pin, initialBalance).post;
      && t.accounts.Keys == s.accounts.Keys + {username}
      && t.transactions.Keys == s.transactions.Keys + {username}
      && t.accounts[username] == Account(initialBalance, pin)
      && t.transactions[username] == []
      && (forall v :: v in s.accounts ==> t.accounts[v] == s.accounts[v])
      && (forall v :: v in s.transactions && v != username ==> t.transactions[v] == s.transactions[v])
  {
  }

  lemma CreateAccountInvariant(s: State, username: Username, pin: Pin, initialBalance: int)
    requires Valid(s)
    ensures var t := CreateAccountStep(s, username, pin, initialBalance).post;
      Valid(t) && Extends(s, t)
  {
  }

  /** A successful creation adds its opening balance to the money in the ledger. */
  lemma CreateAccountTotal(s: State, username: Username, pin: Pin, initialBalance: int)
    ensures var o := CreateAccountStep(s, username, pin, initialBalance);
      Total(o.post.accounts) == Total(s.accounts) + (if o.status == Ok then initialBalance else 0)
  {
    if username !in s.accounts && initialBalance >= 0 {
      TotalInsert(s.accounts, username, Account(initialBalance, pin));
    }
  }

  /** After a successful creation the new user can log in with the new PIN,
      and exactly the logins that worked before still work. */
  lemma CreateAccountLogin(s: State, username: Username, pin: Pin, initialBalance: int, v: Username, p: Pin)
    requires CreateAccountStep(s, username, pin, initialBalance).status == Ok
    ensures var t := CreateAccountStep(s, username, pin, initialBalance).post;
      CanLogin(t.accounts, v, p) <==> (v == username && p == pin) || CanLogin(s.accounts, v, p)
  {
  }

  // ---------------------------------------------------------------------
  // deposit
  // ---------------------------------------------------------------------

  lemma DepositGuards(s: State, username: Username, amount: int, now: Timestamp)
    requires Aligned(s) && username in s.accounts
    ensures var o := DepositStep(s, username, amount, now);
      && (o.status == Ok <==> amount > 0)
      && (o.status != Ok ==> o.status == NonPositiveAmount && o.post == s)
  {
  }

  /** The balance rises by exactly the amount, and one Deposit entry without a
      target is appended to that account's history; nothing else changes. */
  lemma DepositEffect(s: State, username: Username, amount: int, now: Timestamp)
    requires Aligned(s) && username in s.accounts
    requires DepositStep(s, username, amount, now).status == Ok
    ensures var t := DepositStep(s, username, amount, now).post;
      && t.accounts[username].balance == s.accounts[username].balance + amount
      && t.accounts[username].pin == s.accounts[username].pin
      && t.transactions[username] == s.transactions[username] + [Entry(Deposit, amount, now, None)]
      && AccountsAgreeExcept(s.accounts, t.accounts, {username})
      && HistoriesAgreeExcept(s.transactions, t.transactions, {username})
  {
  }

  lemma DepositInvariant(s: State, username: Username, amount: int, now: Timestamp)
    requires Valid(s) && username in s.accounts
    ensures var t := DepositStep(s, username, amount, now).post;
      Valid(t) && Extends(s, t)
  {
  }

  /** A successful deposit adds its amount to the money in the ledger. */
  lemma DepositTotal(s: State, username: Username, amount: int, now: Timestamp)
    requires Aligned(s) && username in s.accounts
    ensures var o := DepositStep(s, username, amount, now);
      Total(o.post.accounts) == Total(s.accounts) + (if o.status == Ok then amount else 0)
  {
    if amount > 0 {
      TotalUpdate(s.accounts, username, s.accounts[username].(balance := s.accounts[username].balance + amount));
    }
  }

  // ---------------------------------------------------------------------
  // withdraw
  // ---------------------------------------------------------------------

  /** A non-positive amount is refused before the balance is looked at. */
  lemma WithdrawGuards(s: State, username: Username, amount: int, now: Timestamp)
    requires Aligned(s) && username in s.accounts
    ensures var o := WithdrawStep(s, username, amount, now);
      && (o.status == NonPositiveAmount <==> amount <= 0)
      && (o.status == InsufficientBalance <==> amount > 0 && s.accounts[username].balance < amount)
      && (o.status == Ok <==> 0 < amount <= s.accounts[username].balance)
      && (o.status != Ok ==> o.post == s)
  {
  }

  lemma WithdrawEffect(s: State, username: Username, amount: int, now: Timestamp)
    requires Aligned(s) && username in s.accounts
    requires WithdrawStep(s, username, amount, now).status == Ok
    ensures var t := WithdrawStep(s, username, amount, now).post;
      && t.accounts[username].balance == s.accounts[username].balance - amount >= 0
      && t.accounts[username].pin == s.accounts[username].pin
      && t.transactions[username] == s.transactions[username] + [Entry(Withdraw, amount, now, None)]
      && AccountsAgreeExcept(s.accounts, t.accounts, {username})
      && HistoriesAgreeExcept(s.transactions, t.transactions, {username})
  {
  }

  lemma WithdrawInvariant(s: State, username: Username, amount: int, now: Timestamp)
    requires Valid(s) && username in s.accounts
    ensures var t := WithdrawStep(s, username, amount, now).post;
      Valid(t) && Extends(s, t)
  {
  }

  /** A successful withdrawal takes its amount out of the money in the ledger. */
  lemma WithdrawTotal(s: State, username: Username, amount: int, now: Timestamp)
    requires Aligned(s) && username in s.accounts
    ensures var o := WithdrawStep(s, username, amount, now);
      Total(o.post.accounts) == Total(s.accounts) - (if o.status == Ok then amount else 0)
  {
    if 0 < amount <= s.accounts[username].balance {
      TotalUpdate(s.accounts, username, s.accounts[username].(balance := s.accounts[username].balance - amount));
    }
  }

  /** Depositing and then withdrawing the same amount restores every balance
      exactly and leaves the two entries at the end of the history. */
  lemma DepositThenWithdraw(s: State, username: Username, amount: int, t1: Timestamp, t2: Timestamp)
    requires Valid(s) && username in s.accounts && amount > 0
    ensures var s1 := DepositStep(s, username, amount, t1).post;
      var o := WithdrawStep(s1, username, amount, t2);
      && o.status == Ok
      && o.post.accounts == s.accounts
      && o.post.transactions[username]
         == s.transactions[username] + [Entry(Deposit, amount, t1, None), Entry(Withdraw, amount, t2, None)]
  {
  }

  // ---------------------------------------------------------------------
  // transfer
  // ---------------------------------------------------------------------

  /** The guards run in the order receiver, amount, balance; any refusal leaves
      every balance and every history as it was. */
  lemma TransferGuards(s: State, sender: Username, receiver: Username, amount: int,
                       sentAt: Timestamp, receivedAt: Timestamp)
    requires Aligned(s) && sender in s.accounts
    ensures var o := TransferStep(s, sender, receiver, amount, sentAt, receivedAt);
      && (o.status == UnknownReceiver <==> receiver !in s.accounts)
      && (o.status == NonPositiveAmount <==> receiver in s.accounts && amount <= 0)
      && (o.status == InsufficientBalance <==>
            receiver in s.accounts && amount > 0 && s.accounts[sender].balance < amount)
      && (o.status == Ok <==> receiver in s.accounts && 0 < amount <= s.accounts[sender].balance)
      && (o.status != Ok ==> o.post == s)
  {
  }

  /** Between two different users: the sender loses the amount, the receiver
      gains it, and each history gains one entry naming the other party. */
  lemma TransferEffect(s: State, sender: Username, receiver: Username, amount: int,
                       sentAt: Timestamp, receivedAt: Timestamp)
    requires Aligned(s) && sender in s.accounts && sender != receiver
    requires TransferStep(s, sender, receiver, amount, sentAt, receivedAt).status == Ok
    ensures var t := TransferStep(s, sender, receiver, amount, sentAt, receivedAt).post;
      && t.accounts[sender].balance == s.accounts[sender].balance - amount >= 0
      && t.accounts[receiver].balance == s.accounts[receiver].balance + amount
      && t.accounts[sender].pin == s.accounts[sender].pin
      && t.accounts[receiver].pin == s.accounts[receiver].pin
      && t.transactions[sender] == s.transactions[sender] + [Entry(Transfer, amount, sentAt, Some(receiver))]
      && t.transactions[receiver] == s.transactions[receiver] + [Entry(Received, amount, receivedAt, Some(sender))]
      && AccountsAgreeExcept(s.accounts, t.accounts, {sender, receiver})
      && HistoriesAgreeExcept(s.transactions, t.transactions, {sender, receiver})
  {
  }

  /** A self-transfer that passes the guards leaves the balance where it was
      but appends both a Transfer and a Received entry to the one history. */
  lemma SelfTransferEffect(s: State, username: Username, amount: int, sentAt: Timestamp, receivedAt: Timestamp)
    requires Aligned(s) && username in s.accounts
    requires TransferStep(s, username, username, amount, sentAt, receivedAt).status == Ok
    ensures var t := TransferStep(s, username, username, amount, sentAt, receivedAt).post;
      && t.accounts == s.accounts
      && t.transactions[username] == s.transactions[username]
           + [Entry(Transfer, amount, sentAt, Some(username)), Entry(Received, amount, receivedAt, Some(username))]
      && HistoriesAgreeExcept(s.transactions, t.transactions, {username})
  {
  }

  lemma TransferInvariant(s: State, sender: Username, receiver: Username, amount: int,
                          sentAt: Timestamp, receivedAt: Timestamp)
    requires Valid(s) && sender in s.accounts
    ensures var t := TransferStep(s, sender, receiver, amount, sentAt, receivedAt).post;
      Valid(t) && Extends(s, t)
  {
    if receiver in s.accounts && 0 < amount <= s.accounts[sender].balance {
      var debited := Credit(s.accounts, sender, -amount);
      var credited := Credit(debited, receiver, amount);
      var e1 := NewEntry(Transfer, amount, sentAt, Some(receiver));
      var e2 := NewEntry(Received, amount, receivedAt, Some(sender));
      var sent := Log(s.transactions, sender, e1);
      NewEntryOk(credited, Transfer, amount, sentAt, Some(receiver));
      NewEntryOk(credited, Received, amount, receivedAt, Some(sender));
      LogKeepsEntriesOk(s.accounts, credited, s.transactions, sender, e1);
      LogKeepsEntriesOk(credited, credited, sent, receiver, e2);
    }
  }

  /** Transfer moves money and never creates or destroys it. */
  lemma TransferConservesTotal(s: State, sender: Username, receiver: Username, amount: int,
                               sentAt: Timestamp, receivedAt: Timestamp)
    requires Aligned(s) && sender in s.accounts
    ensures Total(TransferStep(s, sender, receiver, amount, sentAt, receivedAt).post.accounts) == Total(s.accounts)
  {
    if receiver in s.accounts && 0 < amount <= s.accounts[sender].balance {
      var debited := Credit(s.accounts, sender, -amount);
      TotalUpdate(s.accounts, sender, debited[sender]);
      TotalUpdate(debited, receiver, Credit(debited, receiver, amount)[receiver]);
    }
  }

  /** Two transfers in opposite directions between the same pair, when both
      succeed in either order, leave the same balances in either order. */
  lemma OppositeTransfersCommute(s: State, x: Username, y: Username, a: int, b: int,
                                 t1: Timestamp, t2: Timestamp, t3: Timestamp, t4: Timestamp)
    requires Aligned(s) && x in s.accounts && y in s.accounts
    ensures var xy := TransferStep(s, x, y, a, t1, t2);
      var xyyx := TransferStep(xy.post, y, x, b, t3, t4);
      var yx := TransferStep(s, y, x, b, t3, t4);
      var yxxy := TransferStep(yx.post, x, y, a, t1, t2);
      (xy.status == Ok && xyyx.status == Ok && yx.status == Ok && yxxy.status == Ok ==>
         xyyx.post.accounts == yxxy.post.accounts)
  {
  }

  // ---------------------------------------------------------------------
  // Across operations
  // ---------------------------------------------------------------------

  lemma ExtendsTransitive(s: State, t: State, u: State)
    requires Extends(s, t) && Extends(t, u)
    ensures Extends(s, u)
  {
  }

  /** A login that works keeps working in every later state of the ledger. */
  lemma ExtendsKeepsLogin(s: State, t: State, username: Username, pin: Pin)
    requires Extends(s, t) && CanLogin(s.accounts, username, pin)
    ensures CanLogin(t.accounts, username, pin)
  {
  }

  // ---------------------------------------------------------------------
  // The money in the ledger: the sum of all balances
  // ---------------------------------------------------------------------

  ghost function SumOver(accounts: map<Username, Account>, keys: set<Username>): int
    requires keys <= accounts.Keys
    decreases keys
  {
    if keys == {} then 0
    else
      var u :| u in keys;
      accounts[u].balance + SumOver(accounts, keys - {u})
  }

  ghost function Total(accounts: map<Username, Account>): int
  {
    SumOver(accounts, accounts.Keys)
  }

  /** Any key may be taken out first: the sum does not depend on the order. */
  lemma {:induction false} SumOverRemove(accounts: map<Username, Account>, keys: set<Username>, u: Username)
    requires keys <= accounts.Keys && u in keys
    ensures SumOver(accounts, keys) == accounts[u].balance + SumOver(accounts, keys - {u})
    decreases keys
  {
    var v :| v in keys && SumOver(accounts, keys) == accounts[v].balance + SumOver(accounts, keys - {v});
    if v != u {
      SumOverRemove(accounts, keys - {v}, u);
      SumOverRemove(accounts, keys - {u}, v);
      assert keys - {v} - {u} == keys - {u} - {v};
    }
  }

  /** The sum over `keys` reads only the balances of `keys`. */
  lemma {:induction false} SumOverFrame(a: map<Username, Account>, b: map<Username, Account>, keys: set<Username>)
    requires keys <= a.Keys && keys <= b.Keys
    requires forall v :: v in keys ==> a[v].balance == b[v].balance
    ensures SumOver(a, keys) == SumOver(b, keys)
    decreases keys
  {
    if keys != {} {
      var v :| v in keys;
      SumOverRemove(a, keys, v);
      SumOverRemove(b, keys, v);
      SumOverFrame(a, b, keys - {v});
    }
  }

  /** Replacing one account changes the total by the change in its balance. */
  lemma TotalUpdate(accounts: map<Username, Account>, u: Username, acct: Account)
    requires u in accounts
    ensures Total(accounts[u := acct]) == Total(accounts) - accounts[u].balance + acct.balance
  {
    var accounts' := accounts[u := acct];
    assert accounts'.Keys == accounts.Keys;
    SumOverRemove(accounts, accounts.Keys, u);
    SumOverRemove(accounts', accounts'.Keys, u);
    SumOverFrame(accounts, accounts', accounts.Keys - {u});
  }

  /** Adding a new account adds its balance to the total. */
  lemma TotalInsert(accounts: map<Username, Account>, u: Username, acct: Account)
    requires u !in accounts
    ensures Total(accounts[u := acct]) == Total(accounts) + acct.balance
  {
    var accounts' := accounts[u := acct];
    assert accounts'.Keys - {u} == accounts.Keys;
    SumOverRemove(accounts', accounts'.Keys, u);
    SumOverFrame(accounts, accounts', accounts.Keys);
  }

  // ---------------------------------------------------------------------
  // A worked example, in cents
  // ---------------------------------------------------------------------

  /** alice opens with 100.00 and bob with 0.00; alice deposits 50.00 and sends
      all 150.00 to bob; a further withdrawal of 1.00 by alice is refused. An
      opening balance of -5.00 is refused without creating anything. */
  lemma AliceAndBob(t1: Timestamp, t2: Timestamp, t3: Timestamp, t4: Timestamp)
    ensures var s1 := CreateAccountStep(Empty, "alice", "1234", 10000).post;
      var s2 := CreateAccountStep(s1, "bob", "4321", 0).post;
      var s3 := DepositStep(s2, "alice", 5000, t1).post;
      var o4 := TransferStep(s3, "alice", "bob", 15000, t2, t3);
      var o5 := WithdrawStep(o4.post, "alice", 100, t4);
      && s3.accounts["alice"].balance == 15000
      && o4.status == Ok
      && o4.post.accounts["alice"].balance == 0
      && o4.post.accounts["bob"].balance == 15000
      && o5.status == InsufficientBalance
      && o5.post == o4.post
    ensures CreateAccountStep(Empty, "alice", "1234", -500) == Outcome(Empty, NegativeBalance)
  {
  }
}
