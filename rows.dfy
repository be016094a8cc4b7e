/** Rows of the four ledger tables, the errors the queries report, and the
    LIMIT/OFFSET paging shared by the three list queries. */
module Rows {

  /** Seconds on the database clock; 0 stands for Go's zero time.Time. */
  type Timestamp = int

  const ZeroTime: Timestamp := 0

  datatype Account = Account(id: int, owner: string, balance: int, currency: string, createdAt: Timestamp)

  datatype Entry = Entry(id: int, accountId: int, amount: int, createdAt: Timestamp)

  datatype Transfer = Transfer(id: int, fromAccountId: int, toAccountId: int, amount: int, createdAt: Timestamp)

  datatype User = User(username: string, hashedPassword: string, fullName: string, email: string,
                       passwordChangedAt: Timestamp, createdAt: Timestamp)

  /** The database errors a query can report. */
  datatype DbError =
    | ErrNoRows             // a `:one` query matched no row (sql.ErrNoRows)
    | ForeignKeyViolation   // a row names an account that does not exist, or a referenced account is deleted
    | UniqueViolation       // a second user with the same username

  /** The (row, error) pair of a Go query: on an error there is no row at all. */
  datatype Result<T> = Ok(value: T) | Err(error: DbError)

  /** The error of an `:exec` query, which returns no row. */
  datatype Outcome = Done | Failed(error: DbError)

  /** Every key of `m` lies in 1..n-1, as it does when the keys are ids
      handed out by a counter that is now at `n`. */
  ghost predicate KeysBelow<T>(m: map<int, T>, n: int)
  {
    forall id :: id in m ==> 0 < id < n
  }

  /** The ids in `m` that lie in 1..n-1. */
  ghost function IdsIn<T>(m: map<int, T>, n: int): set<int>
  {
    set id | id in m && 0 < id < n
  }

  /** The ids in `m` that lie in 1..n-1, in ascending order: the ids a
      counter below `n` may have handed out and that are still present. */
  function IdsBelow<T>(m: map<int, T>, n: int): (ids: seq<int>)
    decreases n
    ensures forall i :: 0 <= i < |ids| ==> ids[i] in m && 0 < ids[i] < n
    ensures forall id :: id in m && 0 < id < n ==> id in ids
    ensures forall i, j :: 0 <= i < j < |ids| ==> ids[i] < ids[j]
  {
    if n <= 1 then []
    else if n - 1 in m then IdsBelow(m, n - 1) + [n - 1]
    else IdsBelow(m, n - 1)
  }

  /** IdsBelow lists every id of IdsIn exactly once. */
  lemma {:induction false} IdsBelowCount<T>(m: map<int, T>, n: int)
    decreases n
    ensures |IdsBelow(m, n)| == |IdsIn(m, n)|
  {
    if n <= 1 {
      assert IdsIn(m, n) == {};
    } else {
      IdsBelowCount(m, n - 1);
      IdsInStep(m, n);
    }
  }

  /** Raising the bound by one adds at most the id n-1. */
  lemma IdsInStep<T>(m: map<int, T>, n: int)
    requires n > 1
    ensures |IdsIn(m, n)| == |IdsIn(m, n - 1)| + (if n - 1 in m then 1 else 0)
  {
    if n - 1 in m {
      assert IdsIn(m, n) == IdsIn(m, n - 1) + {n - 1};
    } else {
      assert IdsIn(m, n) == IdsIn(m, n - 1);
    }
  }

  /** The rows of `m` with ids in 1..n-1, in id order. */
  function Listing<T>(m: map<int, T>, n: int): (rows: seq<T>)
    ensures |rows| == |IdsBelow(m, n)|
    ensures forall i :: 0 <= i < |rows| ==> rows[i] == m[IdsBelow(m, n)[i]]
  {
    var ids := IdsBelow(m, n);
    seq(|ids|, i requires 0 <= i < |ids| => m[ids[i]])
  }

  /** When every id of `m` lies in 1..n-1, the listing holds every row once. */
  lemma ListingCount<T>(m: map<int, T>, n: int)
    requires KeysBelow(m, n)
    ensures |Listing(m, n)| == |m|
  {
    IdsBelowCount(m, n);
    assert IdsIn(m, n) == m.Keys;
  }

  /** Number of rows a LIMIT `limit` OFFSET `offset` query returns from `total` rows. */
  function PageSize(total: nat, limit: nat, offset: nat): nat
  {
    if offset >= total then 0 else if total - offset < limit then total - offset else limit
  }

  /** The rows a LIMIT/OFFSET query returns from the full result `rows`. */
  function Page<T>(rows: seq<T>, limit: nat, offset: nat): (page: seq<T>)
    ensures |page| == PageSize(|rows|, limit, offset)
    ensures offset + limit <= |rows| ==> |page| == limit
    ensures forall i :: 0 <= i < |page| ==> page[i] == rows[offset + i]
  {
    if offset >= |rows| then []
    else if |rows| - offset < limit then rows[offset..]
    else rows[offset..offset + limit]
  }
}
