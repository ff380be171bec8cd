/**
 The demo wallet: balances and recent transfers against the full history of accepted transfers.
 */
module Wallet {
  import opened Wrappers

  const DEFAULT_BALANCE_CENTS := 125000
  const MAX_TRANSFER_CENTS := 500000
  /** In bytes. */
  const MAX_MEMO_LEN := 180
  const RECENT := 8

  /** A Go string: its bytes. */
  type Text = seq<bv8>

  datatype Tx = Tx(id: int, to: Text, amountCents: int, memo: Text, createdAt: int)

  datatype Entry = Entry(user: int, tx: Tx)

  datatype Snapshot = Snapshot(balanceCents: int, recent: seq<Tx>)

  datatype WalletError = NoRecipient | OutOfBounds | MemoTooLong | InsufficientBalance

  // ----- the history, oldest entry first, says everything

  /** A user's transfers, newest first. */
  function TxsOf(history: seq<Entry>, user: int): seq<Tx> {
    if history == [] then []
    else
      var last := history[|history| - 1];
      (if last.user == user then [last.tx] else []) + TxsOf(history[..|history| - 1], user)
  }

  function Spent(txs: seq<Tx>): int {
    if txs == [] then 0 else txs[0].amountCents + Spent(txs[1..])
  }

  function Balance(history: seq<Entry>, user: int): int {
    DEFAULT_BALANCE_CENTS - Spent(TxsOf(history, user))
  }

  function Newest(txs: seq<Tx>): seq<Tx> {
    if |txs| > RECENT then txs[..RECENT] else txs
  }

  /** Identifiers count the accepted transfers of all users. */
  predicate Numbered(history: seq<Entry>) {
    forall i | 0 <= i < |history| :: history[i].tx.id == i + 1
  }

  lemma TxsOfOne(history: seq<Entry>, e: Entry, user: int)
    ensures TxsOf(history + [e], user) == (if e.user == user then [e.tx] else []) + TxsOf(history, user)
  {
    assert (history + [e])[..|history|] == history;
  }

  lemma {:induction false} IdsBounded(history: seq<Entry>, user: int)
    requires Numbered(history)
    ensures forall i | 0 <= i < |TxsOf(history, user)| :: 1 <= TxsOf(history, user)[i].id <= |history|
  {
    if history != [] {
      IdsBounded(history[..|history| - 1], user);
    }
  }

  predicate Falling(txs: seq<Tx>) {
    forall i, j | 0 <= i < j < |txs| :: txs[i].id > txs[j].id
  }

  /** A user's transfers, and so the recent ones, have strictly falling identifiers. */
  lemma {:induction false} IdsFall(history: seq<Entry>, user: int)
    requires Numbered(history)
    ensures Falling(TxsOf(history, user)) && Falling(Newest(TxsOf(history, user)))
  {
    if history != [] {
      var init, last := history[..|history| - 1], history[|history| - 1];
      IdsFall(init, user);
      IdsBounded(init, user);
      FallingOne(TxsOf(init, user), last.tx);
      assert [] + TxsOf(init, user) == TxsOf(init, user);
    }
    FallingNewest(TxsOf(history, user));
  }

  lemma FallingNewest(txs: seq<Tx>)
    requires Falling(txs)
    ensures Falling(Newest(txs))
  {
  }

  lemma FallingOne(txs: seq<Tx>, tx: Tx)
    requires Falling(txs) && forall i | 0 <= i < |txs| :: txs[i].id < tx.id
    ensures Falling([tx] + txs)
  {
    var longer := [tx] + txs;
    assert forall i | 1 <= i < |longer| :: longer[i] == txs[i - 1];
  }

  /** A user's transfers are those of the history that the user made. */
  lemma {:induction false} TxsAre(history: seq<Entry>, user: int, tx: Tx)
    ensures tx in TxsOf(history, user) <==> Entry(user, tx) in history
  {
    if history != [] {
      var init, last := history[..|history| - 1], history[|history| - 1];
      TxsAre(init, user, tx);
      assert history == init + [last];
    }
  }

  /** No identifier is given to two users. */
  lemma {:induction false} IdsUnique(history: seq<Entry>, a: int, b: int, i: nat, j: nat)
    requires Numbered(history) && a != b && i < |TxsOf(history, a)| && j < |TxsOf(history, b)|
    ensures TxsOf(history, a)[i].id != TxsOf(history, b)[j].id
  {
    var last := history[|history| - 1];
    var init := history[..|history| - 1];
    var k := if last.user == a then 1 else 0;
    var l := if last.user == b then 1 else 0;
    IdsBounded(init, a);
    IdsBounded(init, b);
    if i >= k && j >= l {
      IdsUnique(init, a, b, i - k, j - l);
    }
  }

  /** Money only leaves a wallet in accepted transfers: over the users seen so far, what is left and what was
      sent add up to what they were given. */
  lemma {:induction false} Conserved(history: seq<Entry>, users: seq<int>)
    requires forall i, j | 0 <= i < j < |users| :: users[i] != users[j]
    requires forall i | 0 <= i < |history| :: history[i].user in users
    ensures Balances(history, users) + Sent(history) == 125000 * |users|
    decreases |history|
  {
    if history == [] {
      AllDefault(users);
    } else {
      var init, e := history[..|history| - 1], history[|history| - 1];
      Conserved(init, users);
      assert history == init + [e];
      BalancesOne(init, e, users);
    }
  }

  function Balances(history: seq<Entry>, users: seq<int>): int {
    if users == [] then 0 else Balance(history, users[0]) + Balances(history, users[1..])
  }

  function Sent(history: seq<Entry>): int {
    if history == [] then 0 else Sent(history[..|history| - 1]) + history[|history| - 1].tx.amountCents
  }

  lemma {:induction false} AllDefault(users: seq<int>)
    ensures Balances([], users) == DEFAULT_BALANCE_CENTS * |users|
  {
    if users != [] {
      AllDefault(users[1..]);
    }
  }

  lemma BalanceOne(history: seq<Entry>, e: Entry, user: int)
    ensures Balance(history + [e], user) == Balance(history, user) - if e.user == user then e.tx.amountCents else 0
  {
    TxsOfOne(history, e, user);
    var txs := TxsOf(history, user);
    assert ([e.tx] + txs)[1..] == txs && [] + txs == txs;
  }

  lemma {:induction false} BalancesOne(history: seq<Entry>, e: Entry, users: seq<int>)
    requires forall i, j | 0 <= i < j < |users| :: users[i] != users[j]
    ensures Balances(history + [e], users) == Balances(history, users) - if e.user in users then e.tx.amountCents else 0
  {
    if users != [] {
      BalanceOne(history, e, users[0]);
      BalancesOne(history, e, users[1..]);
      assert users == [users[0]] + users[1..];
      assert e.user == users[0] ==> e.user !in users[1..];
    }
  }

  // ----- the store

  function RecentIn(txs: map<int, seq<Tx>>, user: int): seq<Tx> {
    if user in txs then txs[user] else []
  }

  /** A user's balance and recent list are what the history makes them, and the user is not overdrawn. */
  predicate Settled(balances: map<int, int>, txs: map<int, seq<Tx>>, history: seq<Entry>, user: int) {
    && (if user in balances then balances[user] == Balance(history, user) >= 0 else TxsOf(history, user) == [])
    && RecentIn(txs, user) == Newest(TxsOf(history, user))
  }

  ghost predicate Follows(balances: map<int, int>, txs: map<int, seq<Tx>>, nextID: int, history: seq<Entry>) {
    nextID == |history| && Numbered(history) && AllWithinBounds(history) && AllSettled(balances, txs, history)
  }

  predicate AllWithinBounds(history: seq<Entry>) {
    forall i | 0 <= i < |history| :: WithinBounds(history[i].tx)
  }

  /** A transfer goes to somebody, takes between one cent and 5000, and its memo has at most 180 bytes. */
  predicate WithinBounds(tx: Tx) {
    tx.to != [] && 1 <= tx.amountCents <= 500000 && |tx.memo| <= 180
  }

  ghost predicate AllSettled(balances: map<int, int>, txs: map<int, seq<Tx>>, history: seq<Entry>) {
    forall user :: Settled(balances, txs, history, user)
  }

  lemma HistoryOne(history: seq<Entry>, user: int, tx: Tx, other: int)
    ensures TxsOf(history + [Entry(user, tx)], user) == [tx] + TxsOf(history, user)
    ensures Balance(history + [Entry(user, tx)], user) == Balance(history, user) - tx.amountCents
    ensures other != user ==>
      && TxsOf(history + [Entry(user, tx)], other) == TxsOf(history, other)
      && Balance(history + [Entry(user, tx)], other) == Balance(history, other)
  {
    TxsOfOne(history, Entry(user, tx), user);
    TxsOfOne(history, Entry(user, tx), other);
    assert [] + TxsOf(history, other) == TxsOf(history, other);
    NewestOne(TxsOf(history, user), tx);
  }

  lemma SettledAfter(balances: map<int, int>, txs: map<int, seq<Tx>>, history: seq<Entry>, user: int, tx: Tx,
                     other: int)
    requires Settled(balances, txs, history, user) && Settled(balances, txs, history, other)
    requires user in balances && tx.amountCents <= balances[user]
    ensures Settled(balances[user := balances[user] - tx.amountCents], txs[user := Newest([tx] + RecentIn(txs, user))],
                    history + [Entry(user, tx)], other)
  {
    HistoryOne(history, user, tx, other);
    if other == user {
      NewestOne(TxsOf(history, user), tx);
    }
  }

  lemma NumberedOne(history: seq<Entry>, user: int, tx: Tx)
    requires Numbered(history) && tx.id == |history| + 1
    ensures Numbered(history + [Entry(user, tx)])
  {
  }

  /** An accepted transfer keeps every user's balance and recent list in step with the history. */
  lemma AllSettledAfter(balances: map<int, int>, txs: map<int, seq<Tx>>, history: seq<Entry>, user: int, tx: Tx)
    requires AllSettled(balances, txs, history)
    requires user in balances && tx.amountCents <= balances[user]
    ensures AllSettled(balances[user := balances[user] - tx.amountCents],
                       txs[user := Newest([tx] + RecentIn(txs, user))],
                       history + [Entry(user, tx)])
  {
    var balances' := balances[user := balances[user] - tx.amountCents];
    var txs', history' := txs[user := Newest([tx] + RecentIn(txs, user))], history + [Entry(user, tx)];
    assert Settled(balances, txs, history, user);
    forall other: int
      ensures Settled(balances', txs', history', other)
    {
      SettledAfter(balances, txs, history, user, tx, other);
    }
  }

  /** What accepting a transfer makes of the three maps and lists follows the longer history. */
  lemma AcceptFollows(balances: map<int, int>, txs: map<int, seq<Tx>>, nextID: int, history: seq<Entry>, user: int,
                      tx: Tx, balances': map<int, int>, txs': map<int, seq<Tx>>, history': seq<Entry>)
    requires Follows(balances, txs, nextID, history)
    requires user in balances && tx.amountCents <= balances[user] && tx.id == nextID + 1 && WithinBounds(tx)
    requires balances' == balances[user := balances[user] - tx.amountCents]
    requires txs' == txs[user := Newest([tx] + RecentIn(txs, user))] && history' == history + [Entry(user, tx)]
    ensures Follows(balances', txs', nextID + 1, history')
    ensures balances'[user] == Balance(history', user)
  {
    NumberedOne(history, user, tx);
    AllSettledAfter(balances, txs, history, user, tx);
    assert Settled(balances', txs', history', user);
  }

  class WalletStore {
    var balances: map<int, int>
    var txs: map<int, seq<Tx>>
    var nextID: int
    ghost var history: seq<Entry>

    function Recent(user: int): seq<Tx>
      reads this
    {
      RecentIn(txs, user)
    }

    ghost predicate Valid()
      reads this
    {
      Follows(balances, txs, nextID, history)
    }

    constructor ()
      ensures Valid() && history == [] && balances == map[]
    {
      balances, txs, nextID, history := map[], map[], 0, [];
    }

    method Ensure(user: int)
      requires Valid()
      modifies this`balances
      ensures Valid() && balances == old(balances)[user := Balance(history, user)]
    {
      assert Settled(balances, txs, history, user);
      ghost var before := balances;
      if user !in balances {
        balances := balances[user := DEFAULT_BALANCE_CENTS];
      }
      forall other: int
        ensures Settled(balances, txs, history, other)
      {
        assert Settled(before, txs, history, other);
      }
    }

    /** What a user is shown: the balance and recent list that the full history amounts to. */
    method TakeSnapshot(user: int) returns (s: Snapshot)
      requires Valid()
      modifies this`balances
      ensures Valid() && balances == old(balances)[user := Balance(history, user)]
      ensures s == Snapshot(Balance(history, user), Newest(TxsOf(history, user)))
      ensures |s.recent| == (if |TxsOf(history, user)| < 8 then |TxsOf(history, user)| else 8)
      ensures s.recent == TxsOf(history, user)[..|s.recent|]
    {
      Ensure(user);
      s := SnapshotLocked(user);
    }

    method SnapshotLocked(user: int) returns (s: Snapshot)
      requires Valid() && user in balances
      ensures s == Snapshot(Balance(history, user), Newest(TxsOf(history, user)))
    {
      assert Settled(balances, txs, history, user);
      s := Snapshot(balances[user], Recent(user));
    }

    /** `to` and `memo` arrive trimmed. The four refusals are tried in this order. */
    method Transfer(user: int, to: Text, amount: int, memo: Text, now: int)
      returns (r: Result<(Tx, Snapshot), WalletError>)
      requires Valid()
      modifies this
      ensures Valid()
      ensures r.Ok? <==> && to != [] && 1 <= amount <= 500000 && |memo| <= 180
                         && amount <= Balance(old(history), user)
      ensures r.Err? <==> Refusal(old(history), user, to, amount, memo).Some?
      ensures r.Err? ==> Refusal(old(history), user, to, amount, memo) == Some(r.error) && history == old(history)
      ensures to == [] ==> r == Err(NoRecipient)
      ensures to != [] && !(1 <= amount <= 500000) ==> r == Err(OutOfBounds)
      ensures to != [] && 1 <= amount <= 500000 && |memo| > 180 ==> r == Err(MemoTooLong)
      ensures to != [] && 1 <= amount <= 500000 && |memo| <= 180 && Balance(old(history), user) < amount ==>
                r == Err(InsufficientBalance)
      ensures r.Ok? || r.error.InsufficientBalance? ==> balances == old(balances)[user := Balance(history, user)]
      ensures r.Err? && !r.error.InsufficientBalance? ==> balances == old(balances)
      ensures r.Ok? ==>
        && r.value.0 == Tx(|old(history)| + 1, to, amount, memo, now)
        && history == old(history) + [Entry(user, r.value.0)]
        && r.value.1 == Snapshot(Balance(old(history), user) - amount, Newest([r.value.0] + TxsOf(old(history), user)))
    {
      if to == [] {
        return Err(NoRecipient);
      }
      if amount <= 0 || amount > MAX_TRANSFER_CENTS {
        return Err(OutOfBounds);
      }
      if |memo| > MAX_MEMO_LEN {
        return Err(MemoTooLong);
      }
      Ensure(user);
      if balances[user] < amount {
        return Err(InsufficientBalance);
      }
      var tx := Tx(nextID + 1, to, amount, memo, now);
      HistoryOne(history, user, tx, user);
      Accept(user, tx);
      var snapshot := SnapshotLocked(user);
      return Ok((tx, snapshot));
    }

    method Accept(user: int, tx: Tx)
      requires Valid() && user in balances && tx.amountCents <= balances[user] && tx.id == nextID + 1
      requires WithinBounds(tx)
      modifies this
      ensures Valid() && history == old(history) + [Entry(user, tx)]
      ensures balances == old(balances)[user := Balance(history, user)]
    {
      var recent := [tx] + Recent(user);
      nextID := nextID + 1;
      balances := balances[user := balances[user] - tx.amountCents];
      txs := txs[user := if |recent| > RECENT then recent[..RECENT] else recent];
      history := history + [Entry(user, tx)];
      AcceptFollows(old(balances), old(txs), old(nextID), old(history), user, tx, balances, txs, history);
    }
  }

  /** Why a transfer is refused, if it is. */
  function Refusal(history: seq<Entry>, user: int, to: Text, amount: int, memo: Text): Option<WalletError> {
    if to == [] then Some(NoRecipient)
    else if amount <= 0 || amount > MAX_TRANSFER_CENTS then Some(OutOfBounds)
    else if |memo| > MAX_MEMO_LEN then Some(MemoTooLong)
    else if Balance(history, user) < amount then Some(InsufficientBalance)
    else None
  }

  /** Cutting a list before and after a prepend gives what cutting it once does. */
  lemma NewestOne(txs: seq<Tx>, tx: Tx)
    ensures Newest([tx] + Newest(txs)) == Newest([tx] + txs)
    ensures Spent([tx] + txs) == tx.amountCents + Spent(txs)
  {
    assert ([tx] + txs)[1..] == txs;
  }
}
