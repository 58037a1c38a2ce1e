/** The server's `transactions` table and the meaning of the SQL statements the
    request handlers run against it: the AUTOINCREMENT insert with its default
    date, the UPDATE and DELETE by id, the read-back by id, the list ordered by
    date, and the summary aggregate. */
module Store {
  import opened Types

  /** The largest rowid SQLite hands out; an AUTOINCREMENT insert past it fails. */
  const MaxRowId: int := 0x7FFF_FFFF_FFFF_FFFF

  /** The rows in insertion order, and the id the next insert receives: one more
      than the largest id ever issued, so a deleted id is never issued again. */
  datatype Table = Table(rows: seq<Transaction>, nextId: int)

  /** The freshly created table: no rows, and the first id is 1. */
  const Empty: Table := Table([], 1)

  /** Why a statement failed: the `type` CHECK constraint, a NULL amount
      against `amount REAL NOT NULL`, or rowids exhausted. */
  datatype StoreError = CheckViolated | NotNullViolated | Full

  /** Every id was issued by the counter, and no two rows share one. */
  predicate Valid(t: Table)
  {
    && 1 <= t.nextId
    && (forall i | 0 <= i < |t.rows| :: 1 <= t.rows[i].id < t.nextId)
    && UniqueIds(t.rows)
  }

  lemma EmptyValid()
    ensures Valid(Empty)
  {
  }

  /** The CHECK(type IN ('income', 'expense')) constraint on the `type` column. */
  function CheckType(text: string): (r: Option<TxType>)
    ensures r.Some? <==> text == "income" || text == "expense"
    ensures r.Some? ==> TypeText(r.value) == text
  {
    if text == "income" then Some(Income)
    else if text == "expense" then Some(Expense)
    else None
  }

  predicate HasId(rows: seq<Transaction>, id: int)
  {
    exists i | 0 <= i < |rows| :: rows[i].id == id
  }

  /** INSERT INTO transactions (description, amount, type, category) VALUES (?, ?, ?, ?):
      the row gets the next id and, since no date is given, `now`. A `None`
      amount is SQL NULL. The new rowid is drawn before any constraint is
      checked, and NOT NULL is checked before CHECK. */
  function Insert(t: Table, description: string, amount: Option<real>, typeText: string,
                  category: string, now: Date): (r: Result<(Table, Transaction), StoreError>)
    ensures r.Success? <==> amount.Some? && CheckType(typeText).Some? && t.nextId <= MaxRowId
    ensures t.nextId > MaxRowId ==> r == Failure(Full)
    ensures t.nextId <= MaxRowId && amount.None? ==> r == Failure(NotNullViolated)
    ensures t.nextId <= MaxRowId && amount.Some? && CheckType(typeText).None? ==> r == Failure(CheckViolated)
    ensures r.Success? ==>
      var (t', row) := r.value;
      && t'.rows == t.rows + [row]
      && t'.nextId == t.nextId + 1
      && row.id == t.nextId
      && row.description == description
      && row.amount == amount.value
      && TypeText(row.txType) == typeText
      && row.category == category
      && row.date == now
    ensures r.Success? && Valid(t) ==>
      !HasId(t.rows, r.value.1.id) && Valid(r.value.0)
  {
    if t.nextId > MaxRowId then Failure(Full)
    else if amount.None? then Failure(NotNullViolated)
    else
      match CheckType(typeText)
      case None => Failure(CheckViolated)
      case Some(k) =>
        var row := Transaction(t.nextId, description, amount.value, k, category, now);
        Success((Table(t.rows + [row], t.nextId + 1), row))
  }

  /** SELECT * FROM transactions WHERE id = ?: the row with that id, if any. */
  function Find(rows: seq<Transaction>, id: int): (r: Option<Transaction>)
    ensures r.Some? <==> HasId(rows, id)
    ensures r.Some? ==> r.value in rows && r.value.id == id
  {
    if rows == [] then None
    else if rows[0].id == id then Some(rows[0])
    else Find(rows[1..], id)
  }

  /** Reading back a row just appended under a fresh id finds that row. */
  lemma {:induction false} FindAppendFresh(rows: seq<Transaction>, x: Transaction)
    requires !HasId(rows, x.id)
    ensures Find(rows + [x], x.id) == Some(x)
  {
    if rows != [] {
      assert (rows + [x])[1..] == rows[1..] + [x];
      assert rows[0] == (rows + [x])[0];
      assert !HasId(rows[1..], x.id) by {
        assert forall i | 0 <= i < |rows[1..]| :: rows[1..][i] == rows[i + 1];
      }
      FindAppendFresh(rows[1..], x);
    }
  }

  /** The four mutable columns of every row with the given id set to the new values. */
  function ReplaceFields(rows: seq<Transaction>, id: int, description: string, amount: real,
                         k: TxType, category: string): (r: seq<Transaction>)
    ensures |r| == |rows|
    ensures forall i | 0 <= i < |rows| :: r[i].id == rows[i].id && r[i].date == rows[i].date
    ensures forall i | 0 <= i < |rows| && rows[i].id != id :: r[i] == rows[i]
    ensures forall i | 0 <= i < |rows| && rows[i].id == id ::
      && r[i].description == description
      && r[i].amount == amount
      && r[i].txType == k
      && r[i].category == category
  {
    if rows == [] then []
    else
      var head := if rows[0].id == id
        then rows[0].(description := description, amount := amount, txType := k, category := category)
        else rows[0];
      [head] + ReplaceFields(rows[1..], id, description, amount, k, category)
  }

  /** UPDATE transactions SET description = ?, amount = ?, type = ?, category = ? WHERE id = ?.
      When no row has the id nothing is written, so neither NOT NULL nor the
      CHECK is ever evaluated. */
  function Update(t: Table, id: int, description: string, amount: Option<real>, typeText: string,
                  category: string): (r: Result<Table, StoreError>)
    ensures !HasId(t.rows, id) ==> r == Success(t)
    ensures HasId(t.rows, id) ==> (r.Success? <==> amount.Some? && CheckType(typeText).Some?)
    ensures HasId(t.rows, id) && amount.None? ==> r == Failure(NotNullViolated)
    ensures HasId(t.rows, id) && amount.Some? && CheckType(typeText).None? ==> r == Failure(CheckViolated)
    ensures r.Success? && HasId(t.rows, id) ==>
      r.value == Table(ReplaceFields(t.rows, id, description, amount.value, CheckType(typeText).value, category), t.nextId)
  {
    if !HasId(t.rows, id) then Success(t)
    else if amount.None? then Failure(NotNullViolated)
    else
      match CheckType(typeText)
      case None => Failure(CheckViolated)
      case Some(k) => Success(Table(ReplaceFields(t.rows, id, description, amount.value, k, category), t.nextId))
  }

  lemma ReplaceFieldsKeepsValid(t: Table, id: int, description: string, amount: real, k: TxType, category: string)
    requires Valid(t)
    ensures Valid(Table(ReplaceFields(t.rows, id, description, amount, k, category), t.nextId))
  {
  }

  /** No two rows share an id. */
  predicate UniqueIds(rows: seq<Transaction>)
  {
    forall i, j | 0 <= i < j < |rows| :: rows[i].id != rows[j].id
  }

  lemma UniqueIdsTail(rows: seq<Transaction>)
    requires rows != [] && UniqueIds(rows)
    ensures UniqueIds(rows[1..])
    ensures !HasId(rows[1..], rows[0].id)
  {
    assert forall i | 0 <= i < |rows[1..]| :: rows[1..][i] == rows[i + 1];
  }

  lemma UniqueIdsCons(x: Transaction, s: seq<Transaction>)
    requires UniqueIds(s) && !HasId(s, x.id)
    ensures UniqueIds([x] + s)
  {
    assert forall i | 1 <= i < |[x] + s| :: ([x] + s)[i] == s[i - 1];
  }

  /** The number of rows with the given id: what DELETE reports as `changes`. */
  function CountId(rows: seq<Transaction>, id: int): (n: nat)
    ensures n <= |rows|
    ensures n == 0 <==> !HasId(rows, id)
  {
    if rows == [] then 0
    else
      assert forall i | 1 <= i < |rows| :: rows[i] == rows[1..][i - 1];
      (if rows[0].id == id then 1 else 0) + CountId(rows[1..], id)
  }

  /** DELETE FROM transactions WHERE id = ?: every other row, in its order. */
  function Remove(rows: seq<Transaction>, id: int): (r: seq<Transaction>)
    ensures |r| == |rows| - CountId(rows, id)
    ensures forall x :: multiset(r)[x] == if x.id == id then 0 else multiset(rows)[x]
  {
    if rows == [] then []
    else
      assert rows == [rows[0]] + rows[1..];
      if rows[0].id == id then Remove(rows[1..], id)
      else [rows[0]] + Remove(rows[1..], id)
  }

  /** Ids are unique in a valid table, so a delete reports one change exactly
      when the row was there and none otherwise. */
  lemma {:induction false} CountIdUnique(rows: seq<Transaction>, id: int)
    requires UniqueIds(rows)
    ensures CountId(rows, id) <= 1
    ensures CountId(rows, id) == 1 <==> HasId(rows, id)
  {
    if rows != [] {
      UniqueIdsTail(rows);
      CountIdUnique(rows[1..], id);
    }
  }

  lemma {:induction false} RemoveAbsent(rows: seq<Transaction>, id: int)
    requires !HasId(rows, id)
    ensures Remove(rows, id) == rows
  {
    if rows != [] {
      assert !HasId(rows[1..], id) by {
        assert forall i | 0 <= i < |rows[1..]| :: rows[1..][i] == rows[i + 1];
      }
      RemoveAbsent(rows[1..], id);
    }
  }

  lemma {:induction false} RemoveKeepsUnique(rows: seq<Transaction>, id: int)
    requires UniqueIds(rows)
    ensures UniqueIds(Remove(rows, id))
  {
    if rows != [] {
      UniqueIdsTail(rows);
      RemoveKeepsUnique(rows[1..], id);
      if rows[0].id != id {
        var rest := Remove(rows[1..], id);
        assert !HasId(rest, rows[0].id) by {
          forall i | 0 <= i < |rest| ensures rest[i].id != rows[0].id {
            assert rest[i] in multiset(rest);
            assert rest[i] in multiset(rows[1..]);
            var j :| 0 <= j < |rows[1..]| && rows[1..][j] == rest[i];
          }
        }
        UniqueIdsCons(rows[0], rest);
      }
    }
  }

  lemma RemoveKeepsValid(t: Table, id: int)
    requires Valid(t)
    ensures Valid(Table(Remove(t.rows, id), t.nextId))
  {
    RemoveKeepsUnique(t.rows, id);
    var r := Remove(t.rows, id);
    forall i | 0 <= i < |r| ensures 1 <= r[i].id < t.nextId {
      assert r[i] in multiset(r);
      assert r[i] in multiset(t.rows);
    }
  }

  // ---------------------------------------------------------------------------
  // SELECT * FROM transactions ORDER BY date DESC

  /** Later dates come first. */
  predicate DateDescending(rows: seq<Transaction>)
  {
    forall i, j | 0 <= i < j < |rows| :: NotAfter(rows[j].date, rows[i].date)
  }

  /** Places `x` before the first row that is not later than it. Rows with equal
      dates keep their insertion order; SQLite leaves that order open. */
  function InsertByDate(x: Transaction, s: seq<Transaction>): (r: seq<Transaction>)
    ensures multiset(r) == multiset(s) + multiset{x}
  {
    if s == [] then [x]
    else if NotAfter(s[0].date, x.date) then [x] + s
    else
      assert s == [s[0]] + s[1..];
      [s[0]] + InsertByDate(x, s[1..])
  }

  /** Every row of `s` is dated at or before `d`. */
  predicate AllNotAfter(s: seq<Transaction>, d: Date)
  {
    forall j | 0 <= j < |s| :: NotAfter(s[j].date, d)
  }

  lemma {:induction false} InsertByDateSorted(x: Transaction, s: seq<Transaction>)
    requires DateDescending(s)
    ensures DateDescending(InsertByDate(x, s))
  {
    var r := InsertByDate(x, s);
    if s == [] {
    } else if NotAfter(s[0].date, x.date) {
      assert AllNotAfter(s, x.date) by {
        forall j | 0 <= j < |s| ensures NotAfter(s[j].date, x.date) {
          if j > 0 { NotAfterTransitive(s[j].date, s[0].date, x.date); }
        }
      }
      assert forall j | 1 <= j < |r| :: r[j] == s[j - 1];
    } else {
      var rest := InsertByDate(x, s[1..]);
      assert DateDescending(s[1..]) by {
        assert forall j | 0 <= j < |s[1..]| :: s[1..][j] == s[j + 1];
      }
      InsertByDateSorted(x, s[1..]);
      assert AllNotAfter(rest, s[0].date) by {
        forall j | 0 <= j < |rest| ensures NotAfter(rest[j].date, s[0].date) {
          assert rest[j] in multiset(rest);
          if rest[j] != x {
            assert rest[j] in multiset(s[1..]);
            var k :| 0 <= k < |s[1..]| && s[1..][k] == rest[j];
            assert s[k + 1] == rest[j];
          } else {
            NotAfterTotal(s[0].date, x.date);
          }
        }
      }
      assert forall j | 1 <= j < |r| :: r[j] == rest[j - 1];
    }
  }

  /** The rows as the list endpoint returns them: every row once, latest first. */
  function SortByDateDesc(rows: seq<Transaction>): (r: seq<Transaction>)
    ensures multiset(r) == multiset(rows)
    ensures |r| == |rows|
    ensures DateDescending(r)
  {
    if rows == [] then []
    else
      assert rows == [rows[0]] + rows[1..];
      var rest := SortByDateDesc(rows[1..]);
      InsertByDateSorted(rows[0], rest);
      InsertByDate(rows[0], rest)
  }

  // ---------------------------------------------------------------------------
  // The summary aggregate

  /** The row's term of SUM(CASE WHEN type = k THEN amount ELSE 0 END). */
  function Contribution(x: Transaction, k: TxType): real
  {
    if x.txType == k then x.amount else 0.0
  }

  /** The sum of the amounts of the rows of direction `k`; 0 when there are none. */
  function TotalOf(rows: seq<Transaction>, k: TxType): real
  {
    if rows == [] then 0.0 else Contribution(rows[0], k) + TotalOf(rows[1..], k)
  }

  /** SQL SUM over the table: NULL on an empty table. */
  function SqlSum(rows: seq<Transaction>, k: TxType): Option<real>
  {
    if rows == [] then None else Some(TotalOf(rows, k))
  }

  /** SQL subtraction: NULL when either side is NULL. */
  function SqlMinus(a: Option<real>, b: Option<real>): Option<real>
  {
    if a.Some? && b.Some? then Some(a.value - b.value) else None
  }

  /** JavaScript's `column || 0` on a query result: NULL becomes 0. */
  function OrZero(v: Option<real>): real
  {
    if v.Some? then v.value else 0.0
  }

  /** The summary row, each column NULL-coalesced to 0 as the handler does. */
  function Aggregate(rows: seq<Transaction>): (r: Summary)
    ensures r.totalIncome == TotalOf(rows, Income)
    ensures r.totalExpenses == TotalOf(rows, Expense)
    ensures r.balance == r.totalIncome - r.totalExpenses
    ensures rows == [] ==> r == Summary(0.0, 0.0, 0.0)
  {
    var income := SqlSum(rows, Income);
    var expenses := SqlSum(rows, Expense);
    Summary(OrZero(income), OrZero(expenses), OrZero(SqlMinus(income, expenses)))
  }

  lemma {:induction false} TotalOfAppend(rows: seq<Transaction>, x: Transaction, k: TxType)
    ensures TotalOf(rows + [x], k) == TotalOf(rows, k) + Contribution(x, k)
  {
    if rows != [] {
      assert (rows + [x])[1..] == rows[1..] + [x];
      TotalOfAppend(rows[1..], x, k);
    }
  }

  /** A row's contribution is counted once, wherever the insertion places it. */
  lemma {:induction false} TotalOfInsertByDate(x: Transaction, s: seq<Transaction>, k: TxType)
    ensures TotalOf(InsertByDate(x, s), k) == Contribution(x, k) + TotalOf(s, k)
  {
    if s != [] && !NotAfter(s[0].date, x.date) {
      var r := InsertByDate(x, s);
      assert r[1..] == InsertByDate(x, s[1..]);
      TotalOfInsertByDate(x, s[1..], k);
    }
  }

  /** Listing reorders the rows but the totals are the same. */
  lemma {:induction false} TotalOfSorted(rows: seq<Transaction>, k: TxType)
    ensures TotalOf(SortByDateDesc(rows), k) == TotalOf(rows, k)
  {
    if rows != [] {
      TotalOfSorted(rows[1..], k);
      TotalOfInsertByDate(rows[0], SortByDateDesc(rows[1..]), k);
    }
  }

  /** Deleting a row takes exactly its contribution out of each total. */
  lemma {:induction false} TotalOfRemove(rows: seq<Transaction>, id: int, i: int, k: TxType)
    requires UniqueIds(rows)
    requires 0 <= i < |rows| && rows[i].id == id
    ensures TotalOf(rows, k) == TotalOf(Remove(rows, id), k) + Contribution(rows[i], k)
  {
    UniqueIdsTail(rows);
    if i == 0 {
      RemoveAbsent(rows[1..], id);
    } else {
      assert rows[1..][i - 1] == rows[i];
      assert rows[0].id != id;
      TotalOfRemove(rows[1..], id, i - 1, k);
    }
  }
}
