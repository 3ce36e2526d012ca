/** The ledger object: the two dictionaries the program keeps, updated in
    place by the guarded mutators. For each of the four mutator methods, the
    new state and status are those of the matching step function in
    LedgerState, whose properties are proved there, and the method keeps the
    ledger invariant. The helper AddTransaction states its new history
    directly, and neither requires nor promises the invariant. */
module CashConnect {
  import opened LedgerState
  import History

  class Ledger {
    var accounts: map<Username, Account>
    var transactions: map<Username, seq<Entry>>

    function State(): LedgerState.State
      reads this
    {
      LedgerState.State(accounts, transactions)
    }

    ghost predicate Valid()
      reads this
    {
      LedgerState.Valid(State())
    }

    /** Both dictionaries start out empty. */
    constructor ()
      ensures Valid() && State() == Empty
    {
      accounts := map[];
      transactions := map[];
    }

    /** Build an entry stamped `now` and append it to the user's history. */
    method AddTransaction(username: Username, kind: Kind, amount: int, now: Timestamp, target: Option<Username>)
      requires username in transactions
      modifies this
      ensures accounts == old(accounts)
      ensures transactions == Log(old(transactions), username, NewEntry(kind, amount, now, target))
    {
      var entry := NewEntry(kind, amount, now, target);
      transactions := transactions[username := transactions[username] + [entry]];
    }

    method CreateAccount(username: Username, pin: Pin, initialBalance: int) returns (status: Status)
      requires Valid()
      modifies this
      ensures Valid()
      ensures Outcome(State(), status) == CreateAccountStep(old(State()), username, pin, initialBalance)
    {
      CreateAccountInvariant(State(), username, pin, initialBalance);
      if username in accounts {
        return UsernameTaken;
      }
      if initialBalance < 0 {
        return NegativeBalance;
      }
      accounts := accounts[username := Account(initialBalance, pin)];
      transactions := transactions[username := []];
      status := Ok;
    }

    method Deposit(username: Username, amount: int, now: Timestamp) returns (status: Status)
      requires Valid() && username in accounts
      modifies this
      ensures Valid()
      ensures Outcome(State(), status) == DepositStep(old(State()), username, amount, now)
    {
      DepositInvariant(State(), username, amount, now);
      if amount <= 0 {
        return NonPositiveAmount;
      }
      ghost var s0 := State();
      accounts := accounts[username := accounts[username].(balance := accounts[username].balance + amount)];
      assert accounts == Credit(s0.accounts, username, amount);
      AddTransaction(username, Kind.Deposit, amount, now, None);
      status := Ok;
    }

    method Withdraw(username: Username, amount: int, now: Timestamp) returns (status: Status)
      requires Valid() && username in accounts
      modifies this
      ensures Valid()
      ensures Outcome(State(), status) == WithdrawStep(old(State()), username, amount, now)
    {
      WithdrawInvariant(State(), username, amount, now);
      if amount <= 0 {
        return NonPositiveAmount;
      }
      if accounts[username].balance < amount {
        return InsufficientBalance;
      }
      ghost var s0 := State();
      accounts := accounts[username := accounts[username].(balance := accounts[username].balance - amount)];
      assert accounts == Credit(s0.accounts, username, -amount);
      AddTransaction(username, Kind.Withdraw, amount, now, None);
      status := Ok;
    }

    /** `sentAt` and `receivedAt` are the two clock readings taken when the
        sender's and then the receiver's entry is written. */
    method Transfer(sender: Username, receiver: Username, amount: int, sentAt: Timestamp, receivedAt: Timestamp)
      returns (status: Status)
      requires Valid() && sender in accounts
      modifies this
      ensures Valid()
      ensures Outcome(State(), status) == TransferStep(old(State()), sender, receiver, amount, sentAt, receivedAt)
    {
      TransferInvariant(State(), sender, receiver, amount, sentAt, receivedAt);
      if receiver !in accounts {
        return UnknownReceiver;
      }
      if amount <= 0 {
        return NonPositiveAmount;
      }
      if accounts[sender].balance < amount {
        return InsufficientBalance;
      }
      ghost var s0 := State();
      accounts := accounts[sender := accounts[sender].(balance := accounts[sender].balance - amount)];
      assert accounts == Credit(s0.accounts, sender, -amount);
      accounts := accounts[receiver := accounts[receiver].(balance := accounts[receiver].balance + amount)];
      assert accounts == Credit(Credit(s0.accounts, sender, -amount), receiver, amount);
      AddTransaction(sender, Kind.Transfer, amount, sentAt, Some(receiver));
      AddTransaction(receiver, Kind.Received, amount, receivedAt, Some(sender));
      status := Ok;
    }

    /** The dashboard's recent list: the user's history (empty for an unknown
        user), last five entries, newest first. */
    function RecentTransactions(username: Username): (r: seq<Entry>)
      reads this
      ensures username !in transactions ==> r == []
      ensures username in transactions ==>
        var h := transactions[username];
        |r| == History.Min(History.RecentCount, |h|) && forall i :: 0 <= i < |r| ==> r[i] == h[|h| - 1 - i]
    {
      History.Recent(if username in transactions then transactions[username] else [])
    }
  }

  /** A session against one ledger object: alice deposits, pays bob, and a
      withdrawal beyond her balance is refused without changing anything. */
  method Session(t1: Timestamp, t2: Timestamp, t3: Timestamp, t4: Timestamp)
  {
    var ledger := new Ledger();
    var st := ledger.CreateAccount("alice", "1234", 10000);
    assert st == Ok;
    st := ledger.CreateAccount("bob", "4321", 0);
    assert st == Ok;
    st := ledger.CreateAccount("carol", "0000", -500);
    assert st == NegativeBalance && "carol" !in ledger.accounts;
    st := ledger.Deposit("alice", 5000, t1);
    assert ledger.accounts["alice"].balance == 15000;
    st := ledger.Transfer("alice", "bob", 15000, t2, t3);
    assert st == Ok && ledger.accounts["alice"].balance == 0 && ledger.accounts["bob"].balance == 15000;
    var before := ledger.State();
    st := ledger.Withdraw("alice", 100, t4);
    assert st == InsufficientBalance && ledger.State() == before;
    assert CanLogin(ledger.accounts, "bob", "4321") && !CanLogin(ledger.accounts, "bob", "1234");
    assert ledger.RecentTransactions("bob") == [Entry(Received, 15000, t3, Some("alice"))];
  }
}
