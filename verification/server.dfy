/** The REST handlers of the server: GET/POST /api/transactions,
    PUT/DELETE /api/transactions/:id and GET /api/summary. Each handler maps
    the request body onto one statement of the store and the statement's
    outcome onto an HTTP status and a JSON body. */
module Server {
  import opened Types
  import Store

  /** The amount of a request body. The guard tests only `amount === undefined`,
      so a null amount passes it; `parseFloat` turns null (and any text that is
      not a number) into NaN, which SQLite binds as NULL. */
  datatype AmountField =
    | NoAmount             // the key is absent
    | NullAmount           // null, or a value `parseFloat` maps to NaN
    | Amount(value: real)  // the number `parseFloat` yields

  /** The value bound to the statement's amount parameter; `None` is SQL NULL. */
  function Bound(a: AmountField): Option<real>
  {
    if a.Amount? then Some(a.value) else None
  }

  /** A request body as parsed from JSON. An absent or null text field is `None`. */
  datatype Payload = Payload(
    description: Option<string>,
    amount: AmountField,
    txType: Option<string>,
    category: Option<string>)

  /** JavaScript falsiness of a text field: absent, null or empty. */
  predicate Falsy(f: Option<string>)
  {
    f.None? || f.value == ""
  }

  /** The guard of the create and update handlers: description, type and
      category truthy, amount not undefined. An amount of 0 passes, and so
      does a null one. */
  predicate HasRequiredFields(p: Payload)
  {
    !Falsy(p.description) && !p.amount.NoAmount? && !Falsy(p.txType) && !Falsy(p.category)
  }

  const MissingFields: string := "Missing required fields"

  /** The JSON the handler sends. */
  datatype Body =
    | RowList(rows: seq<Transaction>)
    | RowBody(row: Transaction)
    | NoBody                               // res.json(undefined): an empty body
    | DeletedCount(deleted: nat)
    | SummaryBody(summary: Summary)
    | ErrorMessage(message: string)
    | StoreFailure(error: Store.StoreError)  // the engine's err.message

  datatype Response = Response(status: int, body: Body)

  /** The table after a request, and the response sent for it. */
  datatype Outcome = Outcome(table: Store.Table, response: Response)

  /** GET /api/transactions */
  function HandleList(t: Store.Table): (r: Response)
    ensures r.status == 200 && r.body.RowList?
    ensures multiset(r.body.rows) == multiset(t.rows)
    ensures Store.DateDescending(r.body.rows)
  {
    Response(200, RowList(Store.SortByDateDesc(t.rows)))
  }

  /** POST /api/transactions: validate, insert, read the new row back by its id. */
  function HandleCreate(t: Store.Table, p: Payload, now: Date): (r: Outcome)
    ensures !HasRequiredFields(p) ==> r == Outcome(t, Response(400, ErrorMessage(MissingFields)))
    ensures HasRequiredFields(p) && Store.CheckType(p.txType.value).None? ==>
      r.table == t && r.response.status == 500
    ensures HasRequiredFields(p) && p.amount.NullAmount? ==>
      r.table == t && r.response.status == 500
    ensures HasRequiredFields(p) && t.nextId > Store.MaxRowId ==>
      r == Outcome(t, Response(500, StoreFailure(Store.Full)))
    ensures HasRequiredFields(p) && t.nextId <= Store.MaxRowId && p.amount.NullAmount? ==>
      r == Outcome(t, Response(500, StoreFailure(Store.NotNullViolated)))
    ensures r.response.status == 201 <==>
      && HasRequiredFields(p) && p.amount.Amount?
      && Store.CheckType(p.txType.value).Some? && t.nextId <= Store.MaxRowId
    ensures r.response.status != 201 ==> r.table == t
    ensures r.response.status == 201 ==>
      && r.table.nextId == t.nextId + 1
      && |r.table.rows| == |t.rows| + 1
      && r.table.rows[..|t.rows|] == t.rows
    ensures r.response.status == 201 && Store.Valid(t) ==>
      && r.response.body.RowBody?
      && var row := r.response.body.row;
      && r.table.rows == t.rows + [row]
      && row.id == t.nextId
      && !Store.HasId(t.rows, row.id)
      && row.description == p.description.value
      && row.amount == p.amount.value
      && TypeText(row.txType) == p.txType.value
      && row.category == p.category.value
      && row.date == now
    ensures Store.Valid(t) ==> Store.Valid(r.table)
  {
    if !HasRequiredFields(p) then Outcome(t, Response(400, ErrorMessage(MissingFields)))
    else
      match Store.Insert(t, p.description.value, Bound(p.amount), p.txType.value, p.category.value, now)
      case Failure(e) => Outcome(t, Response(500, StoreFailure(e)))
      case Success((t', row)) =>
        assert t'.rows[|t'.rows| - 1] == row;
        assert t'.rows[..|t.rows|] == t.rows;
        var back := Store.Find(t'.rows, row.id);
        assert Store.Valid(t) ==> back == Some(row) by {
          if Store.Valid(t) {
            Store.FindAppendFresh(t.rows, row);
          }
        }
        Outcome(t', Response(201, RowBody(back.value)))
  }

  /** PUT /api/transactions/:id: validate, update, read the row back. An id no
      row has changes nothing and is answered with 200 and an empty body. */
  function HandleUpdate(t: Store.Table, id: int, p: Payload): (r: Outcome)
    ensures !HasRequiredFields(p) ==> r == Outcome(t, Response(400, ErrorMessage(MissingFields)))
    ensures r.table.nextId == t.nextId && |r.table.rows| == |t.rows|
    ensures forall i | 0 <= i < |t.rows| ::
      r.table.rows[i].id == t.rows[i].id && r.table.rows[i].date == t.rows[i].date
    ensures forall i | 0 <= i < |t.rows| && t.rows[i].id != id :: r.table.rows[i] == t.rows[i]
    ensures HasRequiredFields(p) && !Store.HasId(t.rows, id) ==> r == Outcome(t, Response(200, NoBody))
    ensures HasRequiredFields(p) && Store.HasId(t.rows, id) && p.amount.NullAmount? ==>
      r == Outcome(t, Response(500, StoreFailure(Store.NotNullViolated)))
    ensures HasRequiredFields(p) && Store.HasId(t.rows, id) && p.amount.Amount?
            && Store.CheckType(p.txType.value).None? ==>
      r == Outcome(t, Response(500, StoreFailure(Store.CheckViolated)))
    ensures HasRequiredFields(p) && Store.HasId(t.rows, id) && p.amount.Amount?
            && Store.CheckType(p.txType.value).Some? ==>
      && r.response.status == 200
      && r.table == Store.Table(
           Store.ReplaceFields(t.rows, id, p.description.value, p.amount.value,
                               Store.CheckType(p.txType.value).value, p.category.value),
           t.nextId)
    ensures r.response.status == 200 && Store.HasId(t.rows, id) ==>
      && (forall i | 0 <= i < |t.rows| && t.rows[i].id == id ::
            && r.table.rows[i].description == p.description.value
            && r.table.rows[i].amount == p.amount.value
            && TypeText(r.table.rows[i].txType) == p.txType.value
            && r.table.rows[i].category == p.category.value)
      && r.response.body.RowBody?
      && r.response.body.row in r.table.rows
      && r.response.body.row.id == id
    ensures Store.Valid(t) ==> Store.Valid(r.table)
  {
    if !HasRequiredFields(p) then Outcome(t, Response(400, ErrorMessage(MissingFields)))
    else
      match Store.Update(t, id, p.description.value, Bound(p.amount), p.txType.value, p.category.value)
      case Failure(e) => Outcome(t, Response(500, StoreFailure(e)))
      case Success(t') =>
        assert Store.Valid(t) ==> Store.Valid(t') by {
          if Store.Valid(t) && Store.HasId(t.rows, id) {
            Store.ReplaceFieldsKeepsValid(t, id, p.description.value, p.amount.value,
              Store.CheckType(p.txType.value).value, p.category.value);
          }
        }
        assert Store.HasId(t.rows, id) ==> Store.HasId(t'.rows, id) by {
          if Store.HasId(t.rows, id) {
            var i :| 0 <= i < |t.rows| && t.rows[i].id == id;
            assert t'.rows[i].id == id;
          }
        }
        match Store.Find(t'.rows, id)
        case Some(row) => Outcome(t', Response(200, RowBody(row)))
        case None => Outcome(t', Response(200, NoBody))
  }

  /** DELETE /api/transactions/:id: answers the number of rows removed. */
  function HandleDelete(t: Store.Table, id: int): (r: Outcome)
    ensures r.response.status == 200 && r.response.body.DeletedCount?
    ensures r.table.nextId == t.nextId
    ensures |r.table.rows| == |t.rows| - r.response.body.deleted
    ensures forall x :: multiset(r.table.rows)[x] == if x.id == id then 0 else multiset(t.rows)[x]
    ensures Store.Valid(t) ==>
      && Store.Valid(r.table)
      && (r.response.body.deleted == 1 <==> Store.HasId(t.rows, id))
      && (r.response.body.deleted == 0 <==> !Store.HasId(t.rows, id))
  {
    assert Store.Valid(t) ==>
      && Store.Valid(Store.Table(Store.Remove(t.rows, id), t.nextId))
      && (Store.CountId(t.rows, id) == 1 <==> Store.HasId(t.rows, id))
    by {
      if Store.Valid(t) {
        Store.CountIdUnique(t.rows, id);
        Store.RemoveKeepsValid(t, id);
      }
    }
    Outcome(Store.Table(Store.Remove(t.rows, id), t.nextId),
            Response(200, DeletedCount(Store.CountId(t.rows, id))))
  }

  /** GET /api/summary */
  function HandleSummary(t: Store.Table): (r: Response)
    ensures r.status == 200 && r.body.SummaryBody?
    ensures r.body.summary.totalIncome == Store.TotalOf(t.rows, Income)
    ensures r.body.summary.totalExpenses == Store.TotalOf(t.rows, Expense)
    ensures r.body.summary.balance == r.body.summary.totalIncome - r.body.summary.totalExpenses
    ensures t.rows == [] ==> r.body.summary == Summary(0.0, 0.0, 0.0)
  {
    Response(200, SummaryBody(Store.Aggregate(t.rows)))
  }

  // ---------------------------------------------------------------------------
  // A run of the server

  datatype Request =
    | GetTransactions
    | PostTransaction(payload: Payload)
    | PutTransaction(id: int, payload: Payload)
    | DeleteTransaction(id: int)
    | GetSummary

  /** A request and the clock reading at the moment its statement runs. */
  datatype Call = Call(request: Request, now: Date)

  function Handle(t: Store.Table, c: Call): (r: Outcome)
    ensures r.table.nextId == t.nextId || r.table.nextId == t.nextId + 1
    ensures r.table.nextId == t.nextId + 1 <==> r.response.status == 201
    ensures r.response.status == 201 && Store.Valid(t) ==>
      r.response.body.RowBody? && r.response.body.row.id == t.nextId
    ensures Store.Valid(t) ==> Store.Valid(r.table)
  {
    match c.request
    case GetTransactions => Outcome(t, HandleList(t))
    case PostTransaction(p) => HandleCreate(t, p, c.now)
    case PutTransaction(id, p) => HandleUpdate(t, id, p)
    case DeleteTransaction(id) => HandleDelete(t, id)
    case GetSummary => Outcome(t, HandleSummary(t))
  }

  datatype Run = Run(table: Store.Table, responses: seq<Response>)

  /** The calls handled one after another, each statement seeing the last one's table. */
  function Serve(t: Store.Table, calls: seq<Call>): (r: Run)
    ensures |r.responses| == |calls|
    decreases |calls|
  {
    if calls == [] then Run(t, [])
    else
      var o := Handle(t, calls[0]);
      var rest := Serve(o.table, calls[1..]);
      Run(rest.table, [o.response] + rest.responses)
  }

  /** The ids of the rows that the successful creates among `rs` answered with. */
  function Issued(rs: seq<Response>): seq<int>
  {
    if rs == [] then []
    else if rs[0].status == 201 && rs[0].body.RowBody? then [rs[0].body.row.id] + Issued(rs[1..])
    else Issued(rs[1..])
  }

  predicate StrictlyIncreasing(s: seq<int>)
  {
    forall i, j | 0 <= i < j < |s| :: s[i] < s[j]
  }

  /** AUTOINCREMENT: over any run from a valid table, the ids the creates hand
      out increase strictly and all lie above every id issued before the run,
      so no id is handed out twice, not even one whose row was deleted. */
  lemma {:induction false} ServeIssuesFreshIds(t: Store.Table, calls: seq<Call>)
    requires Store.Valid(t)
    ensures var r := Serve(t, calls);
      && Store.Valid(r.table)
      && t.nextId <= r.table.nextId
      && StrictlyIncreasing(Issued(r.responses))
      && forall i | 0 <= i < |Issued(r.responses)| ::
           t.nextId <= Issued(r.responses)[i] < r.table.nextId
    decreases |calls|
  {
    if calls != [] {
      var o := Handle(t, calls[0]);
      var rest := Serve(o.table, calls[1..]);
      ServeIssuesFreshIds(o.table, calls[1..]);
      assert Serve(t, calls) == Run(rest.table, [o.response] + rest.responses);
      IssuedCons(o.response, rest.responses);
      var head := Issued([o.response]);
      assert forall i | 0 <= i < |head| :: head[i] == t.nextId && o.table.nextId == t.nextId + 1;
      IncreasingConcat(head, Issued(rest.responses), t.nextId, o.table.nextId, rest.table.nextId);
    }
  }

  /** Two increasing runs, the first wholly below the second, make one. */
  lemma IncreasingConcat(head: seq<int>, tail: seq<int>, lo: int, mid: int, hi: int)
    requires |head| <= 1 && StrictlyIncreasing(tail)
    requires forall i | 0 <= i < |head| :: lo <= head[i] < mid
    requires forall i | 0 <= i < |tail| :: mid <= tail[i] < hi
    requires lo <= mid <= hi
    ensures StrictlyIncreasing(head + tail)
    ensures forall i | 0 <= i < |head + tail| :: lo <= (head + tail)[i] < hi
  {
    var c := head + tail;
    assert forall i | |head| <= i < |c| :: c[i] == tail[i - |head|];
  }

  lemma IssuedCons(r0: Response, rs: seq<Response>)
    ensures Issued([r0] + rs) == Issued([r0]) + Issued(rs)
    ensures |Issued([r0])| <= 1
    ensures |Issued([r0])| == 1 ==> r0.status == 201 && Issued([r0])[0] == r0.body.row.id
  {
    assert ([r0] + rs)[1..] == rs;
    assert [r0][1..] == [];
  }

  // ---------------------------------------------------------------------------
  // How the endpoints relate

  /** A created row shows up exactly once in the next listing. */
  lemma CreateThenList(t: Store.Table, p: Payload, now: Date)
    requires Store.Valid(t)
    requires HandleCreate(t, p, now).response.status == 201
    ensures var o := HandleCreate(t, p, now);
      multiset(HandleList(o.table).body.rows)[o.response.body.row] == 1
  {
    var o := HandleCreate(t, p, now);
    var row := o.response.body.row;
    forall i | 0 <= i < |t.rows| ensures t.rows[i] != row {
      assert t.rows[i].id < row.id;
    }
  }

  /** A successful create adds its amount to the total of its direction and
      leaves the other total alone. */
  lemma {:induction false} CreateThenSummary(t: Store.Table, p: Payload, now: Date)
    requires Store.Valid(t)
    requires HandleCreate(t, p, now).response.status == 201
    ensures var o := HandleCreate(t, p, now);
      var before := HandleSummary(t).body.summary;
      var after := HandleSummary(o.table).body.summary;
      && after.totalIncome == before.totalIncome + Store.Contribution(o.response.body.row, Income)
      && after.totalExpenses == before.totalExpenses + Store.Contribution(o.response.body.row, Expense)
  {
    var o := HandleCreate(t, p, now);
    Store.TotalOfAppend(t.rows, o.response.body.row, Income);
    Store.TotalOfAppend(t.rows, o.response.body.row, Expense);
  }

  /** Deleting an existing row takes its amount out of the summary. */
  lemma {:induction false} DeleteThenSummary(t: Store.Table, id: int, i: int)
    requires Store.Valid(t)
    requires 0 <= i < |t.rows| && t.rows[i].id == id
    ensures var after := HandleSummary(HandleDelete(t, id).table).body.summary;
      var before := HandleSummary(t).body.summary;
      && before.totalIncome == after.totalIncome + Store.Contribution(t.rows[i], Income)
      && before.totalExpenses == after.totalExpenses + Store.Contribution(t.rows[i], Expense)
  {
    Store.TotalOfRemove(t.rows, id, i, Income);
    Store.TotalOfRemove(t.rows, id, i, Expense);
  }

  /** The summary does not depend on the order the list shows the rows in. */
  lemma ListedRowsGiveSameSummary(t: Store.Table)
    ensures Store.Aggregate(HandleList(t).body.rows) == HandleSummary(t).body.summary
  {
    Store.TotalOfSorted(t.rows, Income);
    Store.TotalOfSorted(t.rows, Expense);
  }

  /** Income 100 and expense 40 give totals 100 and 40 and a balance of 60. */
  lemma SummaryExample(now: Date)
    ensures var t1 := HandleCreate(Store.Empty, Payload(Some("pay"), Amount(100.0), Some("income"), Some("salary")), now).table;
      var t2 := HandleCreate(t1, Payload(Some("food"), Amount(40.0), Some("expense"), Some("groceries")), now).table;
      HandleSummary(t2).body.summary == Summary(100.0, 40.0, 60.0)
  {
    var a := Transaction(1, "pay", 100.0, Income, "salary", now);
    var b := Transaction(2, "food", 40.0, Expense, "groceries", now);
    Store.EmptyValid();
    var t1 := HandleCreate(Store.Empty, Payload(Some("pay"), Amount(100.0), Some("income"), Some("salary")), now).table;
    assert t1 == Store.Table([a], 2);
    var t2 := HandleCreate(t1, Payload(Some("food"), Amount(40.0), Some("expense"), Some("groceries")), now).table;
    assert t2 == Store.Table([a, b], 3);
    TwoRowTotals(a, b);
  }

  lemma TwoRowTotals(a: Transaction, b: Transaction)
    requires a.txType == Income && a.amount == 100.0
    requires b.txType == Expense && b.amount == 40.0
    ensures Store.TotalOf([a, b], Income) == 100.0 && Store.TotalOf([a, b], Expense) == 40.0
  {
    assert [a, b][1..] == [b];
    assert [b][1..] == [];
    assert Store.TotalOf([b], Income) == 0.0 + Store.TotalOf([], Income);
    assert Store.TotalOf([b], Expense) == 40.0 + Store.TotalOf([], Expense);
  }

  /** A row dated earlier and created first is listed after a later one. */
  lemma ListOrderExample(early: Date, late: Date)
    requires NotAfter(early, late) && early != late
    ensures var a := HandleCreate(Store.Empty, Payload(Some("a"), Amount(1.0), Some("income"), Some("other")), early);
      var b := HandleCreate(a.table, Payload(Some("b"), Amount(2.0), Some("expense"), Some("other")), late);
      var ra := Transaction(1, "a", 1.0, Income, "other", early);
      var rb := Transaction(2, "b", 2.0, Expense, "other", late);
      && a.response == Response(201, RowBody(ra))
      && b.response == Response(201, RowBody(rb))
      && HandleList(b.table).body.rows == [rb, ra]
  {
    var ra := Transaction(1, "a", 1.0, Income, "other", early);
    var rb := Transaction(2, "b", 2.0, Expense, "other", late);
    Store.EmptyValid();
    var a := HandleCreate(Store.Empty, Payload(Some("a"), Amount(1.0), Some("income"), Some("other")), early);
    assert a == Outcome(Store.Table([ra], 2), Response(201, RowBody(ra)));
    var b := HandleCreate(a.table, Payload(Some("b"), Amount(2.0), Some("expense"), Some("other")), late);
    assert b == Outcome(Store.Table([ra, rb], 3), Response(201, RowBody(rb)));
    SortTwoExample(ra, rb);
  }

  lemma SortTwoExample(ra: Transaction, rb: Transaction)
    requires NotAfter(ra.date, rb.date) && ra.date != rb.date
    ensures Store.SortByDateDesc([ra, rb]) == [rb, ra]
  {
    assert [ra, rb][1..] == [rb];
    assert [rb][1..] == [];
    assert Store.SortByDateDesc([rb]) == [rb];
    assert !NotAfter(rb.date, ra.date);
    assert Store.InsertByDate(ra, [rb]) == [rb] + Store.InsertByDate(ra, []);
  }

  /** Amount 0 passes the guard and a missing one does not; a null amount
      passes the guard and is refused by NOT NULL on insert, while an update of
      a missing id never reaches the constraint; an unknown type is refused by
      the CHECK. */
  lemma ValidationExamples(now: Date)
    ensures HandleCreate(Store.Empty, Payload(Some("x"), Amount(0.0), Some("income"), Some("gifts")), now).response.status == 201
    ensures HandleCreate(Store.Empty, Payload(Some(""), Amount(5.0), Some("income"), Some("gifts")), now).response.status == 400
    ensures HandleCreate(Store.Empty, Payload(Some("x"), NoAmount, Some("income"), Some("gifts")), now).response.status == 400
    ensures HandleCreate(Store.Empty, Payload(Some("x"), Amount(5.0), Some("refund"), Some("gifts")), now)
      == Outcome(Store.Empty, Response(500, StoreFailure(Store.CheckViolated)))
    ensures HandleCreate(Store.Empty, Payload(Some("x"), NullAmount, Some("income"), Some("gifts")), now)
      == Outcome(Store.Empty, Response(500, StoreFailure(Store.NotNullViolated)))
    ensures HandleUpdate(Store.Empty, 1, Payload(Some("x"), NullAmount, Some("income"), Some("gifts")))
      == Outcome(Store.Empty, Response(200, NoBody))
  {
  }
}
