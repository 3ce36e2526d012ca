# CashConnect ledger, modelled in Dafny

CashConnect is a small desktop banking application. Its logic is an in-memory
ledger made of two dictionaries: `accounts` maps a username to its balance and
PIN, and `transactions` maps a username to that user's history, oldest entry
first. Four guarded mutators change them: `create_account`, `deposit`,
`withdraw` and `transfer`. Each checks all its guards before it changes
anything. `create_account` then inserts a new account and an empty history.
The other three update balances in place and append entries through
`add_transaction`. Two pure rules sit inside the GUI callbacks: the dashboard's
"Last 5 Transactions" window, and the login check (the user exists and the PIN
matches).

The project has three modules:

- `History` (`history.dfy`): the recent-transactions window. `Window` is the
  slice `h[-5:]` and `Reversed` is `[::-1]`. `Recent` composes them. Lemmas
  say how the window moves when an entry is appended.
- `LedgerState` (`ledger_state.dfy`): the ledger as a value. It holds the
  datatypes for accounts, entries and statuses. It has one step function per
  mutator (`CreateAccountStep`, `DepositStep`, `WithdrawStep`, `TransferStep`),
  which returns the new state and a status. It defines the ledger invariant
  `Valid`, the "later state" relation `Extends`, and the money total `Total`.
  The lemmas prove the guard order, the exact effects, the preserved
  invariant, conservation of money, and a worked example.
- `CashConnect` (`cashconnect.dfy`): `class Ledger`, whose two map fields
  stand for the two global dictionaries. Its methods update those fields step
  by step, as the Python does. For each of the four mutators, `ensures` says
  that the new state and status equal those of the matching step function,
  and that `Valid()` still holds. `AddTransaction` instead states the new
  history directly: the old one plus the built entry at its end, with the
  accounts unchanged. `Session` is a client that walks through one session
  using the methods' contracts alone.

Modelling choices:

- Amounts and balances are whole cents (`int`), not floats.
- A timestamp is an uninterpreted string passed in by the caller. `transfer`
  calls `add_transaction` twice, and each call reads the clock. So
  `TransferStep` and `Ledger.Transfer` take two timestamps, `sentAt` and
  `receivedAt`. The code does not promise that they are equal.
- The Python returns `(bool, message)`. The model returns a `Status`: `Ok` or
  the guard that fired (`UsernameTaken`, `NegativeBalance`,
  `NonPositiveAmount`, `InsufficientBalance`, `UnknownReceiver`).
- `deposit`, `withdraw` and `transfer` index `accounts[username]` (or
  `accounts[sender]`) without checking that the key exists. In the model that
  existence is a `requires`. The four mutator methods also require `Valid()`.
  This is the object invariant: the constructor sets it up and each of the four
  mutator methods keeps it. The helper `AddTransaction` neither requires nor
  promises `Valid()`: given an amount of zero, its new entry would not be well
  formed. Every caller passes a positive amount.
- Deposit and withdraw have no not-found result. Transfer checks the receiver
  first, then the amount, then the sender's balance. It never checks that the
  sender exists. A self-transfer is not refused: when it passes the guards it
  leaves the balance unchanged and appends both a `Transfer` and a `Received`
  entry to the one history (`SelfTransferEffect`).

## Model

| member | source | states |
|---|---|---|
| LedgerState.NewEntry | cashconnect.py:16-20 | the entry add_transaction builds: kind, amount and time as given; the target kept only for Transfer and Received, so other kinds never carry one |
| LedgerState.CreateAccountStep | cashconnect.py:23-30 | create_account on the two tables: a refusal returns the state unchanged, and the key sets stay equal |
| LedgerState.DepositStep | cashconnect.py:32-37 | deposit on the two tables: a refusal returns the state unchanged, and the key sets stay equal |
| LedgerState.WithdrawStep | cashconnect.py:39-46 | withdraw on the two tables: a refusal returns the state unchanged, and the key sets stay equal |
| LedgerState.TransferStep | cashconnect.py:48-59 | transfer on the two tables, with one clock reading per log call: a refusal returns the state unchanged, and the key sets stay equal |
| LedgerState.CanLogin | cashconnect.py:255 | the login check: true only for a registered user, and then exactly when the stored PIN equals the one given |
| History.Reversed | cashconnect.py:168 | the result has the input's length, and element i is input element \|s\|-1-i |
| History.Window | cashconnect.py:168 | the result is the suffix of the history of length min(5, \|h\|) |
| History.Recent | cashconnect.py:168 | the recent view has min(5, \|h\|) entries, and entry i is h[\|h\|-1-i]: the last five, newest first |
| History.RecentAfterAppend | cashconnect.py:161-172 | after an append, the new entry heads the recent view, followed by the previous view less its oldest entry once it is full |
| History.RecentOfShortHistory | cashconnect.py:168 | a history of at most five entries is shown in full, reversed |
| LedgerState.NewEntryOk | cashconnect.py:16-20 | an entry built with a positive amount and, for Transfer/Received, a registered target is well formed: it carries a target exactly for those kinds, and that target is registered |
| LedgerState.LogKeepsEntriesOk | cashconnect.py:21 | appending a well-formed entry to one history keeps every history well formed |
| LedgerState.CreateAccountGuards | cashconnect.py:23-27 | a duplicate username is refused first; otherwise a negative opening balance is refused and zero accepted; a refusal leaves both tables unchanged |
| LedgerState.CreateAccountEffect | cashconnect.py:28-30 | on success the new account has exactly the given balance and PIN, its history is empty, and no other account or history changes |
| LedgerState.CreateAccountInvariant | cashconnect.py:23-30 | creation keeps the ledger invariant and yields a later state |
| LedgerState.CreateAccountTotal | cashconnect.py:28 | a successful creation adds the opening balance to the sum of all balances; a refused one adds nothing |
| LedgerState.CreateAccountLogin | cashconnect.py:255 | after creation the login check accepts exactly the new user with the new PIN plus every login that was accepted before |
| LedgerState.DepositGuards | cashconnect.py:32-34 | a deposit succeeds iff the amount is positive; otherwise it reports NonPositiveAmount and changes nothing |
| LedgerState.DepositEffect | cashconnect.py:35-37 | on success the balance rises by exactly the amount, the PIN is kept, one Deposit entry with no target is appended, and other accounts and histories are unchanged |
| LedgerState.DepositInvariant | cashconnect.py:32-37 | deposit keeps the ledger invariant and yields a later state |
| LedgerState.DepositTotal | cashconnect.py:35 | a successful deposit adds its amount to the sum of all balances |
| LedgerState.WithdrawGuards | cashconnect.py:39-43 | a non-positive amount is refused first, then a balance below the amount; success iff 0 < amount <= balance; a refusal changes nothing |
| LedgerState.WithdrawEffect | cashconnect.py:44-46 | on success the balance falls by exactly the amount and stays non-negative, one Withdraw entry is appended, and nothing else changes |
| LedgerState.WithdrawInvariant | cashconnect.py:39-46 | withdraw keeps the ledger invariant and yields a later state |
| LedgerState.WithdrawTotal | cashconnect.py:44 | a successful withdrawal takes its amount out of the sum of all balances |
| LedgerState.DepositThenWithdraw | cashconnect.py:32-46 | depositing and then withdrawing the same positive amount succeeds, restores every balance exactly, and leaves both entries in order at the end of the history |
| LedgerState.TransferGuards | cashconnect.py:48-54 | the guards fire in the order unknown receiver, non-positive amount, insufficient balance; success iff all pass; any refusal changes no balance and no history |
| LedgerState.TransferEffect | cashconnect.py:55-59 | between two users the sender loses and the receiver gains exactly the amount, the sender's history gains Transfer naming the receiver, the receiver's gains Received naming the sender, and nothing else changes |
| LedgerState.SelfTransferEffect | cashconnect.py:55-58 | a self-transfer leaves every balance unchanged and appends Transfer then Received to the one history |
| LedgerState.TransferInvariant | cashconnect.py:48-59 | transfer keeps the ledger invariant and yields a later state |
| LedgerState.TransferConservesTotal | cashconnect.py:55-56 | transfer never changes the sum of all balances |
| LedgerState.OppositeTransfersCommute | cashconnect.py:48-59 | if transfers x to y and y to x both succeed in either order, both orders leave the same balances |
| LedgerState.ExtendsTransitive | cashconnect.py:23-59 | the "later state" relation (no account lost, no PIN changed, histories only grown at their end) composes over a run of operations |
| LedgerState.ExtendsKeepsLogin | cashconnect.py:255 | a login the check accepts is still accepted in every later state |
| LedgerState.AliceAndBob | cashconnect.py:23-59 | in a worked example, alice opens with 100.00 and deposits 50.00; she sends 150.00 to bob, leaving her 0.00 and him 150.00; her withdrawal of 1.00 is then refused with nothing changed; an opening balance of -5.00 is refused and creates nothing |
| CashConnect.Ledger.constructor | cashconnect.py:10-11 | both tables start empty, and the invariant holds |
| CashConnect.Ledger.AddTransaction | cashconnect.py:16-21 | the history of that user gains exactly the built entry at its end; accounts and other histories are unchanged |
| CashConnect.Ledger.CreateAccount | cashconnect.py:23-30 | the new tables and the status are those of CreateAccountStep; the invariant is kept |
| CashConnect.Ledger.Deposit | cashconnect.py:32-37 | the new tables and the status are those of DepositStep; the invariant is kept |
| CashConnect.Ledger.Withdraw | cashconnect.py:39-46 | the new tables and the status are those of WithdrawStep; the invariant is kept |
| CashConnect.Ledger.Transfer | cashconnect.py:48-59 | the new tables and the status are those of TransferStep; the invariant is kept |
| CashConnect.Ledger.RecentTransactions | cashconnect.py:161-168 | an unknown user sees an empty list; otherwise the last min(5, \|h\|) entries of the history, newest first |

The ledger invariant `Valid` has three parts. The two tables have the same
keys. Every balance is at least zero. Every entry has a positive amount, and
it carries a target exactly when its kind is Transfer or Received; that
target is a registered user.

## Left out

- All tkinter code: windows, labels, list boxes, buttons and message boxes
  (cashconnect.py:64-263). It is presentation only. The exception is the two
  rules above, which are modelled.
- Parsing the typed amount with `float(...)` and handling its `ValueError`
  (cashconnect.py:96, 120, 149, 244). Also left out: the `:.2f` formatting and
  the exact message texts. The model works in exact cents and returns a
  `Status`. It does not reproduce float rounding or comparison, and it has no
  non-finite amounts. The program accepts those: `float("nan")` parses, and
  `nan <= 0`, `nan < 0` and `balance < nan` are all false. So create_account,
  deposit, withdraw and transfer accept a NaN amount and store a NaN balance
  (cashconnect.py:26, 33, 40-42, 51-53). `float("inf")` is accepted the same
  way, and a later withdrawal of inf leaves inf - inf, which is NaN.
- LedgerState.Valid: its non-negative balance part holds in exact cents, but
  not in the program's floats. A NaN balance is never below zero, yet it is
  not at least zero either.
- LedgerState.DepositThenWithdraw: the exact restore holds in cents, but not
  in floats: 0.2 + 0.1 - 0.1 is 0.20000000000000004.
- LedgerState.SelfTransferEffect: the unchanged balance holds in cents, but
  not in floats: a self-transfer of 0.2 from 0.9 leaves 0.8999999999999999.
- LedgerState.TransferConservesTotal: conservation holds in cents, but not in
  floats: 1e17 + 1.0 == 1e17, so a transfer of 1.0 to a balance of 1e17
  destroys money.
- `datetime.now().strftime(...)` (cashconnect.py:17): a clock read. It is a
  timestamp parameter instead.
- `.strip()` on the typed username and PIN (cashconnect.py:238-239, 253-254):
  string clean-up in the GUI before the ledger is called.
- The 4-digit PIN check in the account-creation callback (cashconnect.py:240).
  It is GUI-side validation, and `create_account` accepts any PIN.
- The full history listing and the "All Accounts Summary" list
  (cashconnect.py:74-82, 211-212). They only read state for display.
- An unknown user passed to deposit or withdraw, or an unknown sender passed
  to transfer. `DepositStep`, `WithdrawStep`, `TransferStep` and the class
  methods require that user to exist. An unknown receiver is not excluded: it
  is refused with `UnknownReceiver` (cashconnect.py:49-50). In the program an
  unknown user raises a `KeyError` only once the earlier guards have passed
  (cashconnect.py:35, 42, 53). Before that, the program refuses some of these
  calls cleanly, and the model does not cover them: a deposit or withdrawal
  of an amount <= 0 (cashconnect.py:33-34, 40-41), and a transfer that fails
  the receiver or amount guard (cashconnect.py:49-52). The precondition is
  always met in the program, because every call site passes the logged-in
  user that `dashboard` was opened for (cashconnect.py:97, 121, 150).
- Concurrency. The program runs single-threaded in the tkinter event loop and
  has no locks.
