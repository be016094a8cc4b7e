/** The effect of money transfers on the accounts table, as pure functions:
    one balance update (AddAccountBalance), one transfer (the two updates of
    TransferTx), and a serialised batch of transfers. Concurrent transfers are
    modelled by the order in which they are serialised. */
module Ledger {
  import opened Rows

  type Accounts = map<int, Account>

  /** The request of one TransferTx call. */
  datatype TransferTxParam = TransferTxParam(fromAccountId: int, toAccountId: int, amount: int)

  /** What one TransferTx call returns: the transfer row, the two account
      rows after their updates, and the two entry rows. */
  datatype TransferTxResult =
    TransferTxResult(transfer: Transfer, fromAccount: Account, toAccount: Account, fromEntry: Entry, toEntry: Entry)

  /** Two rows of the same account: everything but the balance agrees. */
  predicate SameExceptBalance(a: Account, b: Account)
  {
    a.id == b.id && a.owner == b.owner && a.currency == b.currency && a.createdAt == b.createdAt
  }

  /** `balance = balance + delta` on the row `id`. */
  function AddBalance(m: Accounts, id: int, delta: int): (r: Accounts)
    requires id in m
    ensures r.Keys == m.Keys
    ensures r[id].balance == m[id].balance + delta && SameExceptBalance(r[id], m[id])
    ensures forall k :: k in m && k != id ==> r[k] == m[k]
  {
    m[id := m[id].(balance := m[id].balance + delta)]
  }

  /** A transfer can be booked: both accounts exist. */
  predicate Feasible(m: Accounts, req: TransferTxParam)
  {
    req.fromAccountId in m && req.toAccountId in m
  }

  /** How much one transfer adds to the balance of account `id`. */
  function Flow(req: TransferTxParam, id: int): int
  {
    (if id == req.toAccountId then req.amount else 0) - (if id == req.fromAccountId then req.amount else 0)
  }

  /** The accounts table after one TransferTx: the source is debited, then the
      destination credited; when an account is missing the unit rolls back
      and nothing changes. No balance bound and no currency match is checked. */
  function Step(m: Accounts, req: TransferTxParam): (r: Accounts)
    ensures r.Keys == m.Keys
    ensures forall id :: id in m ==> SameExceptBalance(r[id], m[id])
    ensures forall id :: id in m ==>
      r[id].balance == m[id].balance + (if Feasible(m, req) then Flow(req, id) else 0)
  {
    if Feasible(m, req) then
      AddBalance(AddBalance(m, req.fromAccountId, -req.amount), req.toAccountId, req.amount)
    else m
  }

  /** The accounts table after the requests, applied one at a time in order. */
  function Replay(m: Accounts, reqs: seq<TransferTxParam>): (r: Accounts)
    ensures r.Keys == m.Keys
    ensures forall id :: id in m ==> SameExceptBalance(r[id], m[id])
  {
    if reqs == [] then m
    else Step(Replay(m, reqs[..|reqs| - 1]), reqs[|reqs| - 1])
  }

  /** The net amount the feasible requests move into account `id`. */
  function NetFlow(m: Accounts, reqs: seq<TransferTxParam>, id: int): int
  {
    if reqs == [] then 0
    else
      var last := reqs[|reqs| - 1];
      NetFlow(m, reqs[..|reqs| - 1], id) + (if Feasible(m, last) then Flow(last, id) else 0)
  }

  /** n transfers of `amount` from `fromId` to `toId`. */
  function SameDirection(fromId: int, toId: int, amount: int, n: nat): (reqs: seq<TransferTxParam>)
    ensures |reqs| == n
  {
    seq(n, _ => TransferTxParam(fromId, toId, amount))
  }

  /** n transfers of `amount` between two accounts, the odd-numbered ones reversed. */
  function Alternating(fromId: int, toId: int, amount: int, n: nat): (reqs: seq<TransferTxParam>)
    ensures |reqs| == n
  {
    seq(n, i => if i % 2 == 1 then TransferTxParam(toId, fromId, amount) else TransferTxParam(fromId, toId, amount))
  }

  /** The row shapes one TransferTx call returns when it runs on `m`. */
  predicate IsTransferTxResult(m: Accounts, req: TransferTxParam, r: TransferTxResult)
  {
    && Feasible(m, req)
    && r.transfer.id > 0
    && r.transfer.fromAccountId == req.fromAccountId
    && r.transfer.toAccountId == req.toAccountId
    && r.transfer.amount == req.amount
    && r.fromEntry.id > 0 && r.toEntry.id > 0 && r.fromEntry.id != r.toEntry.id
    && r.fromEntry.accountId == req.fromAccountId && r.fromEntry.amount == -req.amount
    && r.toEntry.accountId == req.toAccountId && r.toEntry.amount == req.amount
    && r.fromAccount == m[req.fromAccountId].(balance := m[req.fromAccountId].balance - req.amount)
    && r.toAccount == (if req.fromAccountId == req.toAccountId then m[req.toAccountId]
                       else m[req.toAccountId].(balance := m[req.toAccountId].balance + req.amount))
  }

  // ---------------------------------------------------------------------------
  // Single transfers

  /** The debit and the credit of one transfer may be applied in either order. */
  lemma BalanceUpdatesCommute(m: Accounts, fromId: int, toId: int, amount: int)
    requires fromId in m && toId in m
    ensures AddBalance(AddBalance(m, fromId, -amount), toId, amount)
         == AddBalance(AddBalance(m, toId, amount), fromId, -amount)
  {
    var a := AddBalance(AddBalance(m, fromId, -amount), toId, amount);
    var b := AddBalance(AddBalance(m, toId, amount), fromId, -amount);
    forall id | id in m ensures a[id] == b[id] {
    }
  }

  /** Two transfers have the same effect on the accounts whichever is serialised first. */
  lemma TransfersCommute(m: Accounts, x: TransferTxParam, y: TransferTxParam)
    ensures Step(Step(m, x), y) == Step(Step(m, y), x)
  {
    var a := Step(Step(m, x), y);
    var b := Step(Step(m, y), x);
    forall id | id in m ensures a[id] == b[id] {
      assert a[id].balance == b[id].balance;
    }
  }

  /** The returned account rows keep id, owner, currency and creation time,
      and for two distinct accounts the debit equals the credit, which is
      the amount. */
  lemma TransferResultBalances(m: Accounts, req: TransferTxParam, r: TransferTxResult)
    requires IsTransferTxResult(m, req, r)
    ensures SameExceptBalance(r.fromAccount, m[req.fromAccountId])
    ensures SameExceptBalance(r.toAccount, m[req.toAccountId])
    ensures req.fromAccountId != req.toAccountId ==>
      m[req.fromAccountId].balance - r.fromAccount.balance == req.amount &&
      r.toAccount.balance - m[req.toAccountId].balance == req.amount
  {
  }

  /** Whether a transfer is booked, and what it does to the balances, does
      not depend on the currencies of the accounts. */
  lemma CurrencyIrrelevant(m: Accounts, req: TransferTxParam, id: int, currency: string)
    requires id in m
    ensures Feasible(m[id := m[id].(currency := currency)], req) == Feasible(m, req)
    ensures forall k :: k in m ==>
      Step(m[id := m[id].(currency := currency)], req)[k].balance == Step(m, req)[k].balance
  {
  }

  // ---------------------------------------------------------------------------
  // Conservation of money

  /** The sum of the balances of the accounts with ids in 1..n-1. */
  function SumBelow(m: Accounts, n: int): int
    decreases n
  {
    if n <= 1 then 0
    else SumBelow(m, n - 1) + (if n - 1 in m then m[n - 1].balance else 0)
  }

  /** One balance update changes the sum by its delta when the account is counted. */
  lemma {:induction false} AddBalanceSum(m: Accounts, id: int, delta: int, n: int)
    requires id in m
    decreases n
    ensures SumBelow(AddBalance(m, id, delta), n) == SumBelow(m, n) + (if 0 < id < n then delta else 0)
  {
    if n > 1 {
      AddBalanceSum(m, id, delta, n - 1);
    }
  }

  /** Money is conserved by every transfer, booked or rolled back: the sum of
      all balances is unchanged. */
  lemma TransferConserves(m: Accounts, req: TransferTxParam, n: int)
    requires KeysBelow(m, n)
    ensures SumBelow(Step(m, req), n) == SumBelow(m, n)
  {
    if Feasible(m, req) {
      var debited := AddBalance(m, req.fromAccountId, -req.amount);
      AddBalanceSum(m, req.fromAccountId, -req.amount, n);
      AddBalanceSum(debited, req.toAccountId, req.amount, n);
    }
  }

  /** Money is conserved by any serialised batch of transfers. */
  lemma {:induction false} BatchConserves(m: Accounts, reqs: seq<TransferTxParam>, n: int)
    requires KeysBelow(m, n)
    ensures SumBelow(Replay(m, reqs), n) == SumBelow(m, n)
  {
    if reqs != [] {
      BatchConserves(m, reqs[..|reqs| - 1], n);
      TransferConserves(Replay(m, reqs[..|reqs| - 1]), reqs[|reqs| - 1], n);
    }
  }

  // ---------------------------------------------------------------------------
  // Serialised batches

  /** After a batch, each balance is its start plus the net flow into it. */
  lemma {:induction false} ReplayBalance(m: Accounts, reqs: seq<TransferTxParam>, id: int)
    requires id in m
    ensures Replay(m, reqs)[id].balance == m[id].balance + NetFlow(m, reqs, id)
  {
    if reqs != [] {
      var prefix := reqs[..|reqs| - 1];
      ReplayBalance(m, prefix, id);
      var before := Replay(m, prefix);
      assert Feasible(before, reqs[|reqs| - 1]) == Feasible(m, reqs[|reqs| - 1]);
    }
  }

  lemma NetFlowAppend(m: Accounts, reqs: seq<TransferTxParam>, req: TransferTxParam, id: int)
    ensures NetFlow(m, reqs + [req], id) == NetFlow(m, reqs, id) + (if Feasible(m, req) then Flow(req, id) else 0)
  {
    assert (reqs + [req])[..|reqs|] == reqs;
  }

  /** Replaying one request more of the same batch is one more Step. */
  lemma ReplayPrefix(m: Accounts, reqs: seq<TransferTxParam>, i: nat)
    requires i < |reqs|
    ensures Replay(m, reqs[..i + 1]) == Step(Replay(m, reqs[..i]), reqs[i])
  {
    assert reqs[..i + 1] == reqs[..i] + [reqs[i]];
    ReplayAppend(m, reqs[..i], reqs[i]);
  }

  lemma SameDirectionGrows(fromId: int, toId: int, amount: int, n: nat)
    ensures SameDirection(fromId, toId, amount, n + 1)
         == SameDirection(fromId, toId, amount, n) + [TransferTxParam(fromId, toId, amount)]
  {
  }

  /** n same-direction transfers move n * amount between two distinct accounts. */
  lemma {:induction false} SameDirectionNetFlow(m: Accounts, fromId: int, toId: int, amount: int, n: nat, id: int)
    requires fromId in m && toId in m && fromId != toId
    ensures NetFlow(m, SameDirection(fromId, toId, amount, n), id)
         == if id == fromId then -(n * amount) else if id == toId then n * amount else 0
  {
    if n > 0 {
      var req := TransferTxParam(fromId, toId, amount);
      SameDirectionNetFlow(m, fromId, toId, amount, n - 1, id);
      SameDirectionGrows(fromId, toId, amount, n - 1);
      NetFlowAppend(m, SameDirection(fromId, toId, amount, n - 1), req, id);
      NextMultiple(n - 1, amount);
    }
  }

  /** After n same-direction transfers the source holds start - n * amount and
      the destination start + n * amount, whatever the sign of the result;
      every other account, and every field but the balance, is untouched. */
  lemma SameDirectionBalances(m: Accounts, fromId: int, toId: int, amount: int, n: nat)
    requires fromId in m && toId in m && fromId != toId
    ensures Replay(m, SameDirection(fromId, toId, amount, n))[fromId].balance == m[fromId].balance - n * amount
    ensures Replay(m, SameDirection(fromId, toId, amount, n))[toId].balance == m[toId].balance + n * amount
    ensures forall id :: id in m && id != fromId && id != toId ==> Replay(m, SameDirection(fromId, toId, amount, n))[id] == m[id]
  {
    var reqs := SameDirection(fromId, toId, amount, n);
    SameDirectionNetFlow(m, fromId, toId, amount, n, fromId);
    ReplayBalance(m, reqs, fromId);
    SameDirectionNetFlow(m, fromId, toId, amount, n, toId);
    ReplayBalance(m, reqs, toId);
    forall id | id in m && id != fromId && id != toId ensures Replay(m, reqs)[id] == m[id] {
      SameDirectionNetFlow(m, fromId, toId, amount, n, id);
      ReplayBalance(m, reqs, id);
    }
  }

  lemma SameDirectionPrefix(fromId: int, toId: int, amount: int, n: nat, i: nat)
    requires i <= n
    ensures SameDirection(fromId, toId, amount, n)[..i] == SameDirection(fromId, toId, amount, i)
  {
  }

  /** Serialised, the i-th (0-based) same-direction transfer runs on the
      table `before` left by exactly i others, so the row it returns for the
      source is short by (i + 1) * amount and the destination row is ahead by
      the same. */
  lemma KthTransferDifference(m: Accounts, fromId: int, toId: int, amount: int, i: nat, r: TransferTxResult, before: Accounts)
    requires fromId in m && toId in m && fromId != toId
    requires before == Replay(m, SameDirection(fromId, toId, amount, i))
    requires IsTransferTxResult(before, TransferTxParam(fromId, toId, amount), r)
    ensures m[fromId].balance - r.fromAccount.balance == (i + 1) * amount
    ensures r.toAccount.balance - m[toId].balance == (i + 1) * amount
  {
    SameDirectionBalances(m, fromId, toId, amount, i);
    KthDebit(m[fromId].balance, before[fromId].balance, r.fromAccount.balance, i, amount);
    KthDebit(-m[toId].balance, -before[toId].balance, -r.toAccount.balance, i, amount);
  }

  lemma KthDebit(start: int, before: int, after: int, i: int, amount: int)
    requires before == start - i * amount && after == before - amount
    ensures start - after == (i + 1) * amount
  {
    NextMultiple(i, amount);
  }

  /** For a positive amount, the differences k * amount of a same-direction
      batch give every k in 1..n exactly once. */
  lemma {:induction false} EachMultipleOnce(diffs: seq<int>, amount: int)
    requires amount > 0
    requires forall i :: 0 <= i < |diffs| ==> diffs[i] == (i + 1) * amount
    ensures forall i :: 0 <= i < |diffs| ==> diffs[i] > 0 && diffs[i] % amount == 0 && 1 <= diffs[i] / amount <= |diffs|
    ensures forall i, j :: 0 <= i < j < |diffs| ==> diffs[i] / amount != diffs[j] / amount
    ensures forall i :: 0 <= i < |diffs| ==> diffs[i] / amount == i + 1
  {
    forall i | 0 <= i < |diffs| ensures diffs[i] > 0 && diffs[i] % amount == 0 && diffs[i] / amount == i + 1 {
      MultipleDivides(i + 1, amount);
    }
  }

  lemma MultipleDivides(k: int, amount: int)
    requires k > 0 && amount > 0
    ensures k * amount > 0 && (k * amount) % amount == 0 && (k * amount) / amount == k
  {
    var q := (k * amount) / amount;
    var r := (k * amount) % amount;
    assert (k - q) * amount == r;
    ScaledBounds(k - q, amount);
    ScaledBounds(k, amount);
  }

  lemma NextMultiple(k: int, amount: int)
    ensures (k + 1) * amount == k * amount + amount
  {
  }

  lemma ScaledBounds(x: int, amount: int)
    requires amount > 0
    ensures x >= 1 ==> x * amount >= amount
    ensures x <= -1 ==> x * amount <= -amount
  {
  }

  lemma ReplayAppend(m: Accounts, reqs: seq<TransferTxParam>, req: TransferTxParam)
    ensures Replay(m, reqs + [req]) == Step(Replay(m, reqs), req)
  {
    assert (reqs + [req])[..|reqs|] == reqs;
  }

  lemma AlternatingGrows(fromId: int, toId: int, amount: int, n: nat)
    requires n % 2 == 0
    ensures Alternating(fromId, toId, amount, n + 2)
         == Alternating(fromId, toId, amount, n) + [TransferTxParam(fromId, toId, amount)] + [TransferTxParam(toId, fromId, amount)]
  {
  }

  /** A transfer followed by the same amount sent back restores the accounts table. */
  lemma ThereAndBack(m: Accounts, fromId: int, toId: int, amount: int)
    ensures Step(Step(m, TransferTxParam(fromId, toId, amount)), TransferTxParam(toId, fromId, amount)) == m
  {
    var there := Step(m, TransferTxParam(fromId, toId, amount));
    var back := Step(there, TransferTxParam(toId, fromId, amount));
    forall id | id in m ensures back[id] == m[id] {
      assert back[id].balance == m[id].balance;
    }
  }

  /** An even number of transfers alternating in direction between two
      accounts leaves the whole accounts table as it was. */
  lemma {:induction false} AlternatingNetsToZero(m: Accounts, fromId: int, toId: int, amount: int, n: nat)
    requires n % 2 == 0
    ensures Replay(m, Alternating(fromId, toId, amount, n)) == m
  {
    if n > 0 {
      var fwd := TransferTxParam(fromId, toId, amount);
      var back := TransferTxParam(toId, fromId, amount);
      var shorter := Alternating(fromId, toId, amount, n - 2);
      AlternatingNetsToZero(m, fromId, toId, amount, n - 2);
      AlternatingGrows(fromId, toId, amount, n - 2);
      ReplayAppend(m, shorter, fwd);
      ReplayAppend(m, shorter + [fwd], back);
      ThereAndBack(m, fromId, toId, amount);
    }
  }

  // ---------------------------------------------------------------------------
  // Any commit order

  /** The position of an element of `s`. */
  function IndexOf<T(==)>(s: seq<T>, x: T): (k: nat)
    requires x in s
    ensures k < |s| && s[k] == x
  {
    if s[0] == x then 0 else 1 + IndexOf(s[1..], x)
  }

  /** The net flow of two batches run one after the other is the sum of their net flows. */
  lemma {:induction false} NetFlowConcat(m: Accounts, a: seq<TransferTxParam>, b: seq<TransferTxParam>, id: int)
    ensures NetFlow(m, a + b, id) == NetFlow(m, a, id) + NetFlow(m, b, id)
  {
    if b == [] {
      assert a + b == a;
    } else {
      var prefix := b[..|b| - 1];
      NetFlowConcat(m, a, prefix, id);
      assert (a + b)[..|a + b| - 1] == a + prefix;
    }
  }

  /** The net flow of a batch does not depend on the order of its requests. */
  lemma {:induction false} NetFlowPerm(m: Accounts, xs: seq<TransferTxParam>, ys: seq<TransferTxParam>, id: int)
    requires multiset(xs) == multiset(ys)
    decreases |xs|
    ensures NetFlow(m, xs, id) == NetFlow(m, ys, id)
  {
    if xs == [] {
      assert |ys| == |multiset(ys)| == 0;
    } else {
      var last := xs[|xs| - 1];
      var rest := xs[..|xs| - 1];
      assert xs == rest + [last];
      assert last in multiset(ys);
      var k := IndexOf(ys, last);
      var others := ys[..k] + ys[k + 1..];
      RemoveLast(xs);
      RemoveAt(ys, k);
      NetFlowPerm(m, rest, others, id);
      NetFlowSplit(m, ys, k, id);
    }
  }

  lemma RemoveLast<T>(s: seq<T>)
    requires s != []
    ensures multiset(s[..|s| - 1]) == multiset(s) - multiset{s[|s| - 1]}
  {
    assert s == s[..|s| - 1] + [s[|s| - 1]];
  }

  lemma RemoveAt<T>(s: seq<T>, k: nat)
    requires k < |s|
    ensures multiset(s[..k] + s[k + 1..]) == multiset(s) - multiset{s[k]}
  {
    assert s == s[..k] + [s[k]] + s[k + 1..];
  }

  /** Taking one request out of a batch takes its flow out of the net flow. */
  lemma NetFlowSplit(m: Accounts, ys: seq<TransferTxParam>, k: nat, id: int)
    requires k < |ys|
    ensures NetFlow(m, ys, id) == NetFlow(m, ys[..k] + ys[k + 1..], id) + NetFlow(m, [ys[k]], id)
  {
    assert ys == ys[..k] + [ys[k]] + ys[k + 1..];
    NetFlowConcat(m, ys[..k], [ys[k]], id);
    NetFlowConcat(m, ys[..k] + [ys[k]], ys[k + 1..], id);
    NetFlowConcat(m, ys[..k], ys[k + 1..], id);
  }

  /** Every commit order of the same requests leaves the same accounts table. */
  lemma ReplayPerm(m: Accounts, xs: seq<TransferTxParam>, ys: seq<TransferTxParam>)
    requires multiset(xs) == multiset(ys)
    ensures Replay(m, xs) == Replay(m, ys)
  {
    forall id | id in m ensures Replay(m, xs)[id] == Replay(m, ys)[id] {
      ReplayBalance(m, xs, id);
      ReplayBalance(m, ys, id);
      NetFlowPerm(m, xs, ys, id);
    }
  }

  /** However the database orders an even number of alternating transfers,
      the accounts table ends as it started. */
  lemma AnyOrderNetsToZero(m: Accounts, fromId: int, toId: int, amount: int, n: nat, reqs: seq<TransferTxParam>)
    requires n % 2 == 0 && multiset(reqs) == multiset(Alternating(fromId, toId, amount, n))
    ensures Replay(m, reqs) == m
  {
    ReplayPerm(m, reqs, Alternating(fromId, toId, amount, n));
    AlternatingNetsToZero(m, fromId, toId, amount, n);
  }

  /** The balances do not limit a transfer: a source holding less than the
      amount is left with a negative balance. */
  lemma OverdraftAllowed(m: Accounts, req: TransferTxParam)
    requires Feasible(m, req) && req.fromAccountId != req.toAccountId
    requires m[req.fromAccountId].balance < req.amount
    ensures Step(m, req)[req.fromAccountId].balance < 0
  {
  }
  // ---------------------------------------------------------------------------
  // Results of a serialised batch

  /** `r` is what the request `reqs[j]` returns when it runs on the table
      its predecessors in `reqs` left behind. */
  predicate BookedAt(m: Accounts, reqs: seq<TransferTxParam>, j: nat, r: Result<TransferTxResult>)
    requires j < |reqs|
  {
    && (r.Ok? <==> Feasible(m, reqs[j]))
    && (r.Ok? ==> IsTransferTxResult(Replay(m, reqs[..j]), reqs[j], r.value))
  }

  /** `results` are what the first |results| requests of `reqs` return when
      they are serialised in order on `m`. */
  predicate Booked(m: Accounts, reqs: seq<TransferTxParam>, results: seq<Result<TransferTxResult>>)
  {
    && |results| <= |reqs|
    && forall j :: 0 <= j < |results| ==> BookedAt(m, reqs, j, results[j])
  }

  /** The next request's result extends a booked prefix. */
  lemma BookedAppend(m: Accounts, reqs: seq<TransferTxParam>, results: seq<Result<TransferTxResult>>, r: Result<TransferTxResult>)
    requires Booked(m, reqs, results) && |results| < |reqs|
    requires BookedAt(m, reqs, |results|, r)
    ensures Booked(m, reqs, results + [r])
  {
    var next := results + [r];
    forall j | 0 <= j < |next|
      ensures BookedAt(m, reqs, j, next[j])
    {
      if j < |results| {
        assert next[j] == results[j];
      }
    }
  }

  /** The amount each result's source row is short of `start`. */
  function Debits(start: int, results: seq<Result<TransferTxResult>>): (diffs: seq<int>)
    ensures |diffs| == |results|
  {
    seq(|results|, i requires 0 <= i < |results| =>
      if results[i].Ok? then start - results[i].value.fromAccount.balance else 0)
  }

  /** One result of a transfer of `amount` from `fromId` to `toId` echoes the
      request in its transfer row and its two entries, and its account rows
      are those of the two accounts of `m` (same id, owner, currency and
      creation time). */
  predicate EchoesSameDirection(m: Accounts, fromId: int, toId: int, amount: int, v: TransferTxResult)
    requires fromId in m && toId in m
  {
    && v.transfer.fromAccountId == fromId && v.transfer.toAccountId == toId && v.transfer.amount == amount
    && v.fromEntry.accountId == fromId && v.fromEntry.amount == -amount
    && v.toEntry.accountId == toId && v.toEntry.amount == amount
    && SameExceptBalance(v.fromAccount, m[fromId]) && SameExceptBalance(v.toAccount, m[toId])
  }

  /** In a booked batch of same-direction transfers every transfer succeeds,
      and the i-th one leaves both accounts (i + 1) * amount away from their
      starting balances. */
  lemma SameDirectionResults(m: Accounts, fromId: int, toId: int, amount: int, n: nat,
                             results: seq<Result<TransferTxResult>>)
    requires fromId in m && toId in m && fromId != toId
    requires |results| == n && Booked(m, SameDirection(fromId, toId, amount, n), results)
    ensures forall i :: 0 <= i < n ==> results[i].Ok?
    ensures forall i :: 0 <= i < n ==>
      && m[fromId].balance - results[i].value.fromAccount.balance == (i + 1) * amount
      && results[i].value.toAccount.balance - m[toId].balance == (i + 1) * amount
    ensures amount > 0 ==> forall i :: 0 <= i < n ==>
      var d := Debits(m[fromId].balance, results)[i];
      d > 0 && d % amount == 0 && 1 <= d / amount <= n
    ensures amount > 0 ==> forall i, j :: 0 <= i < j < n ==>
      Debits(m[fromId].balance, results)[i] / amount != Debits(m[fromId].balance, results)[j] / amount
    ensures forall i :: 0 <= i < n ==> EchoesSameDirection(m, fromId, toId, amount, results[i].value)
  {
    var reqs := SameDirection(fromId, toId, amount, n);
    forall i | 0 <= i < n
      ensures results[i].Ok?
      ensures && m[fromId].balance - results[i].value.fromAccount.balance == (i + 1) * amount
              && results[i].value.toAccount.balance - m[toId].balance == (i + 1) * amount
      ensures EchoesSameDirection(m, fromId, toId, amount, results[i].value)
    {
      assert reqs[i] == TransferTxParam(fromId, toId, amount);
      SameDirectionPrefix(fromId, toId, amount, n, i);
      KthTransferDifference(m, fromId, toId, amount, i, results[i].value, Replay(m, reqs[..i]));
      TransferResultBalances(Replay(m, reqs[..i]), reqs[i], results[i].value);
    }
    if amount > 0 {
      EachMultipleOnce(Debits(m[fromId].balance, results), amount);
    }
  }

  /** In a booked batch of alternating transfers between two accounts,
      committed in any order, each transfer succeeds exactly when both
      accounts exist. */
  lemma AlternatingResults(m: Accounts, fromId: int, toId: int, amount: int, n: nat,
                           reqs: seq<TransferTxParam>, results: seq<Result<TransferTxResult>>)
    requires multiset(reqs) == multiset(Alternating(fromId, toId, amount, n))
    requires |results| == |reqs| && Booked(m, reqs, results)
    ensures |results| == n
    ensures forall i :: 0 <= i < n ==> (results[i].Ok? <==> fromId in m && toId in m)
  {
    var alternating := Alternating(fromId, toId, amount, n);
    assert |reqs| == |multiset(reqs)| == |multiset(alternating)| == n;
    forall i | 0 <= i < n
      ensures results[i].Ok? <==> fromId in m && toId in m
    {
      assert reqs[i] in multiset(alternating);
      var j := IndexOf(alternating, reqs[i]);
      assert BookedAt(m, reqs, i, results[i]);
    }
  }

  // ---------------------------------------------------------------------------
  // Rows a batch inserts

  /** The ids of the transfer rows the successful results inserted. */
  function TransferIds(results: seq<Result<TransferTxResult>>): set<int>
  {
    if results == [] then {}
    else
      var last := results[|results| - 1];
      TransferIds(results[..|results| - 1]) + (if last.Ok? then {last.value.transfer.id} else {})
  }

  /** The ids of the entry rows the successful results inserted, two per result. */
  function EntryIds(results: seq<Result<TransferTxResult>>): set<int>
  {
    if results == [] then {}
    else
      var last := results[|results| - 1];
      EntryIds(results[..|results| - 1]) + (if last.Ok? then {last.value.fromEntry.id, last.value.toEntry.id} else {})
  }

  /** The number of successful results. */
  function OkCount(results: seq<Result<TransferTxResult>>): nat
  {
    if results == [] then 0
    else OkCount(results[..|results| - 1]) + (if results[|results| - 1].Ok? then 1 else 0)
  }

  /** When every result succeeded the count is the length, and when none did it is zero. */
  lemma {:induction false} OkCountUniform(results: seq<Result<TransferTxResult>>)
    ensures (forall j :: 0 <= j < |results| ==> results[j].Ok?) ==> OkCount(results) == |results|
    ensures (forall j :: 0 <= j < |results| ==> results[j].Err?) ==> OkCount(results) == 0
  {
    if results != [] {
      var prefix := results[..|results| - 1];
      OkCountUniform(prefix);
      assert forall j :: 0 <= j < |prefix| ==> prefix[j] == results[j];
    }
  }

  /** The inserted ids of one more result are those of the results so far and its own. */
  lemma InsertedIdsAppend(results: seq<Result<TransferTxResult>>, r: Result<TransferTxResult>)
    ensures TransferIds(results + [r]) == TransferIds(results) + (if r.Ok? then {r.value.transfer.id} else {})
    ensures EntryIds(results + [r]) == EntryIds(results) + (if r.Ok? then {r.value.fromEntry.id, r.value.toEntry.id} else {})
    ensures OkCount(results + [r]) == OkCount(results) + (if r.Ok? then 1 else 0)
  {
    assert (results + [r])[..|results|] == results;
  }
}
