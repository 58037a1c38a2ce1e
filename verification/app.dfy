/** The client's top-level component: the fetched list and summary with their
    loading flag, the add and delete flows, the edit dialog, and the
    current-month list handed to the expense chart. Each network call is an
    outcome given as a parameter. */
module App {
  import opened Types
  import Store
  import Server
  import TransactionList
  import TransactionForm

  datatype AppState = AppState(
    transactions: seq<Transaction>,
    summary: Summary,
    loading: bool,
    editOpen: bool,
    editing: Option<Transaction>,
    editSaving: bool)

  /** The state on mount, before the first fetch has answered. */
  const Initial: AppState := AppState([], Summary(0.0, 0.0, 0.0), true, false, None, false)

  // ---------------------------------------------------------------------------
  // fetchData

  /** The list and summary requests together: both answered, or the combined
      promise rejected. */
  datatype FetchOutcome = Fetched(txs: seq<Transaction>, summary: Summary) | FetchFailed

  /** The state while the two requests are in flight. */
  function Fetching(s: AppState): AppState
  {
    s.(loading := true)
  }

  /** fetchData from start to end: new data only when both requests answered,
      the loading flag cleared in every case, and no error passed on. */
  function FetchData(s: AppState, o: FetchOutcome): (r: AppState)
    ensures !r.loading
    ensures o.Fetched? ==> r.transactions == o.txs && r.summary == o.summary
    ensures o.FetchFailed? ==> r.transactions == s.transactions && r.summary == s.summary
    ensures r.editOpen == s.editOpen && r.editing == s.editing && r.editSaving == s.editSaving
  {
    var busy := Fetching(s);
    match o
    case Fetched(txs, summary) => busy.(transactions := txs, summary := summary, loading := false)
    case FetchFailed => busy.(loading := false)
  }

  /** A failed fetch leaves what the last good one showed; a good one replaces
      it whatever came before. */
  lemma FetchKeepsLastGoodData(s: AppState, o1: FetchOutcome, o2: FetchOutcome)
    ensures o2.FetchFailed? ==> FetchData(FetchData(s, o1), o2) == FetchData(s, o1)
    ensures o2.Fetched? ==> FetchData(FetchData(s, o1), o2) == FetchData(s, o2)
  {
  }

  /** While a refetch runs, the list keeps showing its rows; the spinner only
      appears when there were none. */
  lemma RefetchShowsSpinnerOnlyWhenEmpty(s: AppState, st: TransactionList.ListState)
    ensures TransactionList.Render(Fetching(s).transactions, Fetching(s).loading, st).Spinner?
      <==> s.transactions == []
  {
  }

  // ---------------------------------------------------------------------------
  // Writes

  /** What the client asks the server for. */
  datatype ApiRequest =
    | AddRequest(data: FormData)
    | DeleteRequest(id: int)
    | UpdateRequest(id: int, data: FormData)

  /** The state after a handler, and the write request it sent, if any. */
  datatype Step = Step(state: AppState, sent: Option<ApiRequest>)

  /** After a write: refetch when it succeeded, otherwise log and keep the state. */
  function AfterWrite(s: AppState, ok: bool, o: FetchOutcome): AppState
  {
    if ok then FetchData(s, o) else s
  }

  /** handleAddTransaction, with the data the entry form handed over. */
  function AddTransaction(s: AppState, data: FormData, ok: bool, o: FetchOutcome): (r: Step)
    ensures r.sent == Some(AddRequest(data))
    ensures !ok ==> r.state == s
    ensures ok ==> r.state == FetchData(s, o)
    ensures ok ==> !r.state.loading && (o.Fetched? ==> r.state.transactions == o.txs)
    ensures ok && o.FetchFailed? ==> r.state.transactions == s.transactions && r.state.summary == s.summary
    ensures r.state.editOpen == s.editOpen && r.state.editing == s.editing
  {
    Step(AfterWrite(s, ok, o), Some(AddRequest(data)))
  }

  /** handleDeleteTransaction */
  function DeleteTransaction(s: AppState, id: int, ok: bool, o: FetchOutcome): (r: Step)
    ensures r.sent == Some(DeleteRequest(id))
    ensures !ok ==> r.state == s
    ensures ok ==> r.state == FetchData(s, o)
    ensures ok ==> !r.state.loading && (o.Fetched? ==> r.state.transactions == o.txs)
    ensures ok && o.FetchFailed? ==> r.state.transactions == s.transactions && r.state.summary == s.summary
    ensures r.state.editOpen == s.editOpen && r.state.editing == s.editing
  {
    Step(AfterWrite(s, ok, o), Some(DeleteRequest(id)))
  }

  /** A submit of the entry form: the form clears and the add request goes out
      exactly when the form's guard accepts. */
  lemma MainFormSubmit(s: AppState, f: FormData, ok: bool, o: FetchOutcome)
    ensures var sub := TransactionForm.HandleSubmit(f);
      sub.sent.Some? ==> AddTransaction(s, sub.sent.value, ok, o).sent == Some(AddRequest(f)) && sub.form == TransactionForm.Blank
  {
  }

  // ---------------------------------------------------------------------------
  // The edit dialog

  /** handleEditClick */
  function EditClick(s: AppState, t: Transaction): (r: AppState)
    ensures r.editOpen && r.editing == Some(t)
    ensures r.transactions == s.transactions && r.summary == s.summary && r.loading == s.loading
    ensures r.editSaving == s.editSaving
  {
    s.(editing := Some(t), editOpen := true)
  }

  /** handleEditCancel */
  function EditCancel(s: AppState): (r: AppState)
    ensures !r.editOpen && r.editing.None?
    ensures r.transactions == s.transactions && r.summary == s.summary && r.loading == s.loading
    ensures r.editSaving == s.editSaving
  {
    s.(editOpen := false, editing := None)
  }

  /** Cancel undoes a click on a closed dialog. */
  lemma CancelUndoesClick(s: AppState, t: Transaction)
    requires !s.editOpen && s.editing.None?
    ensures EditCancel(EditClick(s, t)) == s
  {
  }

  /** The state while the update request is in flight. */
  function Saving(s: AppState): AppState
  {
    s.(editSaving := true)
  }

  /** handleEditSave with the dialog form's data: nothing without a stored
      transaction; otherwise the update of the stored row's id, then a refetch
      when it succeeded. The refetch reports no error, so the dialog closes
      whenever the update succeeded, and stays open, stored row and all, when
      it failed. */
  function EditSave(s: AppState, data: FormData, ok: bool, o: FetchOutcome): (r: Step)
    ensures s.editing.None? ==> r == Step(s, None)
    ensures s.editing.Some? ==> r.sent == Some(UpdateRequest(s.editing.value.id, data))
    ensures s.editing.Some? ==> !r.state.editSaving
    ensures s.editing.Some? && ok ==> !r.state.editOpen && r.state.editing.None? && !r.state.loading
    ensures s.editing.Some? && ok && o.Fetched? ==> r.state.transactions == o.txs && r.state.summary == o.summary
    ensures s.editing.Some? && ok && o.FetchFailed? ==>
      r.state.transactions == s.transactions && r.state.summary == s.summary
    ensures s.editing.Some? && !ok ==> r.state == s.(editSaving := false)
  {
    match s.editing
    case None => Step(s, None)
    case Some(t) =>
      var busy := Saving(s);
      var after :=
        if ok then FetchData(busy, o).(editOpen := false, editing := None)
        else busy;
      Step(after.(editSaving := false), Some(UpdateRequest(t.id, data)))
  }

  /** While the update is in flight the dialog's submit button is disabled, so
      the same edit cannot be sent twice. */
  lemma SavingDisablesSubmit(s: AppState, f: FormData)
    ensures TransactionForm.SubmitDisabled(f, Saving(s).editSaving)
  {
  }

  /** The values the dialog's form is opened with; `amountText` is the amount
      as `String` writes it. */
  function EditFormValues(t: Transaction, amountText: string): FormData
  {
    FormData(t.description, amountText, t.txType, t.category)
  }

  /** The dialog's form starts from the stored row: its description, type and
      category, and the amount's text; only an empty category falls back to
      the default. */
  lemma EditFormStartsFromRow(t: Transaction, amountText: string)
    ensures var f := TransactionForm.Initial(Some(EditFormValues(t, amountText)));
      && f.description == t.description && f.amount == amountText && f.txType == t.txType
      && (t.category != "" ==> f.category == t.category)
      && (t.category == "" ==> f.category == TransactionForm.DefaultCategory)
  {
  }

  /** A save the server refuses keeps the dialog open on the same row, but the
      form has already cleared itself on submit, so the dialog shows a blank
      form. */
  lemma FailedSaveShowsBlankForm(s: AppState, f: FormData, o: FetchOutcome)
    requires s.editing.Some?
    requires TransactionForm.HandleSubmit(f).sent.Some?
    ensures var r := EditSave(s, f, false, o);
      && r.state.editOpen == s.editOpen && r.state.editing == s.editing
      && TransactionForm.HandleSubmit(f).form == TransactionForm.Blank
  {
  }

  // ---------------------------------------------------------------------------
  // The list's events

  /** The list's `onEdit` and `onDelete` wired to the handlers. */
  function OnListEvent(s: AppState, e: TransactionList.Event, ok: bool, o: FetchOutcome): Step
  {
    match e
    case EditRequested(t) => Step(EditClick(s, t), None)
    case DeleteRequested(id) => DeleteTransaction(s, id, ok, o)
  }

  /** The edit button of the k-th row shown opens the dialog on the row at
      position page·size + k of the list; its delete button asks to delete
      that row's id. */
  lemma RowButtonsActOnThatRow(s: AppState, st: TransactionList.ListState, k: int, ok: bool, o: FetchOutcome)
    requires 0 <= k < |TransactionList.PageRows(s.transactions, st)|
    ensures var i := TransactionList.PageStart(st) + k;
      && i < |s.transactions|
      && var v := TransactionList.Render(s.transactions, s.loading, st);
      && var edit := OnListEvent(s, TransactionList.Click(v, k, TransactionList.EditButton).value, ok, o);
      && var del := OnListEvent(s, TransactionList.Click(v, k, TransactionList.DeleteButton).value, ok, o);
      && edit.state.editOpen && edit.state.editing == Some(s.transactions[i])
      && del.sent == Some(DeleteRequest(s.transactions[i].id))
  {
    TransactionList.ClickForwardsRow(s.transactions, s.loading, st, k);
  }

  // ---------------------------------------------------------------------------
  // The list and the summary agree

  /** A row's amount with the sign the list prints before it. */
  function SignedAmount(t: Transaction): real
  {
    if TransactionList.Sign(t) == '+' then t.amount else -t.amount
  }

  function SignedTotal(txs: seq<Transaction>): real
  {
    if txs == [] then 0.0 else SignedAmount(txs[0]) + SignedTotal(txs[1..])
  }

  /** The signed amounts the list prints add up to income minus expenses. */
  lemma {:induction false} SignedTotalIsBalance(txs: seq<Transaction>)
    ensures SignedTotal(txs) == Store.TotalOf(txs, Income) - Store.TotalOf(txs, Expense)
  {
    if txs != [] {
      SignedTotalIsBalance(txs[1..]);
    }
  }

  /** After a fetch both of whose answers come from the same table, the signed
      amounts in the list add up to the balance the summary shows. */
  lemma FetchedListMatchesBalance(s: AppState, t: Store.Table)
    ensures var r := FetchData(s, Fetched(Server.HandleList(t).body.rows, Server.HandleSummary(t).body.summary));
      SignedTotal(r.transactions) == r.summary.balance
  {
    var rows := Server.HandleList(t).body.rows;
    SignedTotalIsBalance(rows);
    Server.ListedRowsGiveSameSummary(t);
  }

  // ---------------------------------------------------------------------------
  // The current month

  /** The row's date lies in the year and month of `now`. */
  predicate InMonth(t: Transaction, now: Date)
  {
    t.date.year == now.year && t.date.month == now.month
  }

  /** The rows of the month of `now`, in list order: what the expense chart is
      given. */
  function CurrentMonth(txs: seq<Transaction>, now: Date): (r: seq<Transaction>)
    ensures |r| <= |txs|
    ensures forall x | x in r :: x in txs && InMonth(x, now)
    ensures forall x | x in txs && InMonth(x, now) :: x in r
    ensures forall x :: multiset(r)[x] == if InMonth(x, now) then multiset(txs)[x] else 0
  {
    if txs == [] then []
    else
      assert txs == [txs[0]] + txs[1..];
      (if InMonth(txs[0], now) then [txs[0]] else []) + CurrentMonth(txs[1..], now)
  }

  /** Filtering a list in two parts is filtering each part, which is what keeps
      the rows in their order. */
  lemma {:induction false} CurrentMonthAppend(a: seq<Transaction>, b: seq<Transaction>, now: Date)
    ensures CurrentMonth(a + b, now) == CurrentMonth(a, now) + CurrentMonth(b, now)
  {
    if a == [] {
      assert a + b == b;
    } else {
      assert (a + b)[0] == a[0];
      assert (a + b)[1..] == a[1..] + b;
      CurrentMonthAppend(a[1..], b, now);
    }
  }

  /** A list already within the month is kept whole, so filtering twice is
      filtering once. */
  lemma {:induction false} CurrentMonthKeepsMonth(txs: seq<Transaction>, now: Date)
    requires forall i | 0 <= i < |txs| :: InMonth(txs[i], now)
    ensures CurrentMonth(txs, now) == txs
  {
    if txs != [] {
      CurrentMonthKeepsMonth(txs[1..], now);
    }
  }

  lemma CurrentMonthIdempotent(txs: seq<Transaction>, now: Date)
    ensures CurrentMonth(CurrentMonth(txs, now), now) == CurrentMonth(txs, now)
  {
    var r := CurrentMonth(txs, now);
    assert forall i | 0 <= i < |r| :: r[i] in r;
    CurrentMonthKeepsMonth(r, now);
  }
}
