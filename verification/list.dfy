/** The transaction table of the client: a spinner, an empty-state message or
    one page of rows, each with its signed amount and its edit and delete
    buttons; pagination is done on the client. */
module TransactionList {
  import opened Types

  /** The component's own state: the page shown and the page size. */
  datatype ListState = ListState(page: nat, rowsPerPage: nat)

  const Initial: ListState := ListState(0, 5)

  /** The page sizes the pagination control offers. */
  const RowsPerPageOptions: seq<nat> := [5, 10, 25]

  lemma InitialIsOffered()
    ensures Initial.page == 0 && Initial.rowsPerPage in RowsPerPageOptions
    ensures forall i | 0 <= i < |RowsPerPageOptions| :: RowsPerPageOptions[i] > 0
  {
  }

  /** handleChangePage */
  function ChangePage(s: ListState, newPage: nat): (r: ListState)
    ensures r.page == newPage && r.rowsPerPage == s.rowsPerPage
  {
    s.(page := newPage)
  }

  /** handleChangeRowsPerPage: a new page size sends the view back to the first page. */
  function ChangeRowsPerPage(s: ListState, size: nat): (r: ListState)
    ensures r.page == 0 && r.rowsPerPage == size
  {
    ListState(0, size)
  }

  function Min(a: int, b: int): int
  {
    if a <= b then a else b
  }

  /** `Array.prototype.slice(start, end)` for bounds that are not negative:
      both are clamped to the length. */
  function Slice<T>(s: seq<T>, start: nat, end: nat): (r: seq<T>)
    ensures start < |s| && start <= end ==> |r| == Min(end, |s|) - start
    ensures start >= |s| || end <= start ==> r == []
    ensures forall k | 0 <= k < |r| :: start + k < |s| && r[k] == s[start + k]
  {
    var lo := Min(start, |s|);
    var hi := Min(end, |s|);
    if lo <= hi then s[lo..hi] else []
  }

  function PageStart(st: ListState): nat
  {
    st.page * st.rowsPerPage
  }

  /** The rows of the page shown: positions [page·size, page·size + size) of the
      list, cut at its end, in list order. */
  function PageRows(txs: seq<Transaction>, st: ListState): (r: seq<Transaction>)
    ensures |r| <= st.rowsPerPage
    ensures PageStart(st) >= |txs| ==> r == []
    ensures PageStart(st) < |txs| ==> |r| == Min(|txs|, PageStart(st) + st.rowsPerPage) - PageStart(st)
    ensures forall k | 0 <= k < |r| :: PageStart(st) + k < |txs| && r[k] == txs[PageStart(st) + k]
  {
    Slice(txs, PageStart(st), PageStart(st) + st.rowsPerPage)
  }

  /** A new page size shows the first `size` rows of the list. */
  lemma ResizeShowsFirstRows(txs: seq<Transaction>, s: ListState, size: nat)
    ensures PageRows(txs, ChangeRowsPerPage(s, size)) == txs[..Min(|txs|, size)]
  {
  }

  // ---------------------------------------------------------------------------
  // The pages together

  /** The number of pages the pagination control counts, ⌈n / size⌉. */
  function PageCount(n: nat, rowsPerPage: nat): nat
    requires rowsPerPage > 0
  {
    (n + rowsPerPage - 1) / rowsPerPage
  }

  lemma MulLe(a: nat, b: nat, c: nat)
    requires a <= b
    ensures a * c <= b * c
  {
    var d := b - a;
    assert b * c == a * c + d * c;
  }

  lemma PageCountBounds(n: nat, rowsPerPage: nat)
    requires rowsPerPage > 0
    ensures n <= PageCount(n, rowsPerPage) * rowsPerPage
    ensures PageCount(n, rowsPerPage) > 0 ==> (PageCount(n, rowsPerPage) - 1) * rowsPerPage < n
  {
    var q := PageCount(n, rowsPerPage);
    var m := (n + rowsPerPage - 1) % rowsPerPage;
    assert n + rowsPerPage - 1 == q * rowsPerPage + m;
    if q > 0 {
      assert (q - 1) * rowsPerPage == q * rowsPerPage - rowsPerPage;
    }
  }

  /** Pages 0 .. k-1 one after another. */
  function Pages(txs: seq<Transaction>, rowsPerPage: nat, k: nat): seq<Transaction>
  {
    if k == 0 then [] else Pages(txs, rowsPerPage, k - 1) + PageRows(txs, ListState(k - 1, rowsPerPage))
  }

  /** A prefix followed by the slice that starts where it ends is a longer prefix. */
  lemma PrefixThenSlice(txs: seq<Transaction>, lo: nat, size: nat)
    ensures txs[..Min(|txs|, lo)] + Slice(txs, lo, lo + size) == txs[..Min(|txs|, lo + size)]
  {
    if lo < |txs| {
      var top := Min(|txs|, lo + size);
      assert Slice(txs, lo, lo + size) == txs[lo..top];
      assert txs[..lo] + txs[lo..top] == txs[..top];
    }
  }

  lemma MulPred(k: nat, c: nat, lo: int, hi: int)
    requires k > 0 && lo == (k - 1) * c && hi == k * c
    ensures 0 <= lo && hi == lo + c
  {
  }

  /** One more page extends the prefix the earlier pages make by that page. */
  lemma PagesStep(txs: seq<Transaction>, rowsPerPage: nat, k: nat, lo: nat)
    requires k > 0 && lo == (k - 1) * rowsPerPage
    requires Pages(txs, rowsPerPage, k - 1) == txs[..Min(|txs|, lo)]
    ensures Pages(txs, rowsPerPage, k) == txs[..Min(|txs|, lo + rowsPerPage)]
  {
    assert PageRows(txs, ListState(k - 1, rowsPerPage)) == Slice(txs, lo, lo + rowsPerPage);
    PrefixThenSlice(txs, lo, rowsPerPage);
  }

  lemma {:induction false} PagesArePrefix(txs: seq<Transaction>, rowsPerPage: nat, k: nat)
    ensures Pages(txs, rowsPerPage, k) == txs[..Min(|txs|, k * rowsPerPage)]
  {
    if k > 0 {
      var j: nat := k - 1;
      var lo := j * rowsPerPage;
      var hi := k * rowsPerPage;
      MulPred(k, rowsPerPage, lo, hi);
      PagesArePrefix(txs, rowsPerPage, j);
      PagesStep(txs, rowsPerPage, k, lo);
    }
  }

  /** For one page size, the pages 0 .. ⌈n / size⌉ - 1 put together give the
      whole list back, each row once and in order. */
  lemma AllPagesGiveTheList(txs: seq<Transaction>, rowsPerPage: nat)
    requires rowsPerPage > 0
    ensures Pages(txs, rowsPerPage, PageCount(|txs|, rowsPerPage)) == txs
  {
    PageCountBounds(|txs|, rowsPerPage);
    PagesArePrefix(txs, rowsPerPage, PageCount(|txs|, rowsPerPage));
  }

  /** A page has rows exactly when it is one of the counted pages. */
  lemma PageNonEmptyIff(txs: seq<Transaction>, rowsPerPage: nat, p: nat)
    requires rowsPerPage > 0
    ensures PageRows(txs, ListState(p, rowsPerPage)) != [] <==> p < PageCount(|txs|, rowsPerPage)
  {
    var q := PageCount(|txs|, rowsPerPage);
    PageCountBounds(|txs|, rowsPerPage);
    var start := PageStart(ListState(p, rowsPerPage));
    if p < q {
      MulLe(p, q - 1, rowsPerPage);
      assert start < |txs|;
    } else {
      MulLe(q, p, rowsPerPage);
      assert start >= |txs|;
    }
  }

  /** Position `i` of a list of `n` is shown on page `p`. */
  predicate OnPage(n: nat, rowsPerPage: nat, p: nat, i: nat)
  {
    p * rowsPerPage <= i < Min(n, p * rowsPerPage + rowsPerPage)
  }

  /** No position is shown on two pages. */
  lemma PagesDisjoint(n: nat, rowsPerPage: nat, p: nat, q: nat, i: nat)
    requires p != q
    ensures !(OnPage(n, rowsPerPage, p, i) && OnPage(n, rowsPerPage, q, i))
  {
    if p < q {
      MulLe(p + 1, q, rowsPerPage);
      assert (p + 1) * rowsPerPage == p * rowsPerPage + rowsPerPage;
    } else {
      MulLe(q + 1, p, rowsPerPage);
      assert (q + 1) * rowsPerPage == q * rowsPerPage + rowsPerPage;
    }
  }

  // ---------------------------------------------------------------------------
  // What is rendered

  /** One table row: its cells, and what its edit and delete buttons pass up. */
  datatype RowView = RowView(
    date: Date,
    description: string,
    category: string,
    typeLabel: string,
    sign: char,
    amount: real,
    editPayload: Transaction,
    deletePayload: int)

  /** The amount is prefixed with '+' for income and '-' for anything else. */
  function Sign(t: Transaction): (c: char)
    ensures c == '+' <==> t.txType == Income
    ensures c == '+' || c == '-'
  {
    if t.txType == Income then '+' else '-'
  }

  function RowOf(t: Transaction): (r: RowView)
    ensures r.editPayload == t && r.deletePayload == t.id
    ensures r.sign == Sign(t) && r.amount == t.amount
  {
    RowView(t.date, t.description, t.category, TypeText(t.txType), Sign(t), t.amount, t, t.id)
  }

  function RowsOf(txs: seq<Transaction>): (r: seq<RowView>)
    ensures |r| == |txs|
    ensures forall k | 0 <= k < |txs| :: r[k] == RowOf(txs[k])
  {
    if txs == [] then [] else [RowOf(txs[0])] + RowsOf(txs[1..])
  }

  datatype View =
    | Spinner
    | NoTransactions
    | Table(rows: seq<RowView>, count: nat, state: ListState)

  /** A spinner while loading with nothing to show, the empty-state message when
      there is nothing at all, and otherwise the table, even while loading. */
  function Render(txs: seq<Transaction>, loading: bool, st: ListState): (v: View)
    ensures v.Spinner? <==> loading && |txs| == 0
    ensures v.NoTransactions? <==> !loading && |txs| == 0
    ensures v.Table? <==> |txs| > 0
    ensures v.Table? ==> v.count == |txs| && v.state == st && v.rows == RowsOf(PageRows(txs, st))
  {
    if loading && |txs| == 0 then Spinner
    else if |txs| == 0 then NoTransactions
    else Table(RowsOf(PageRows(txs, st)), |txs|, st)
  }

  datatype Button = EditButton | DeleteButton

  /** What the component passes up. */
  datatype Event = EditRequested(tx: Transaction) | DeleteRequested(id: int)

  /** A click on a button of the k-th row shown, if the table shows one. */
  function Click(v: View, k: int, b: Button): Option<Event>
  {
    if v.Table? && 0 <= k < |v.rows| then
      match b
      case EditButton => Some(EditRequested(v.rows[k].editPayload))
      case DeleteButton => Some(DeleteRequested(v.rows[k].deletePayload))
    else None
  }

  /** The buttons of the k-th row on a page pass up the transaction at position
      page·size + k of the list, and its id, unchanged. */
  lemma ClickForwardsRow(txs: seq<Transaction>, loading: bool, st: ListState, k: int)
    requires 0 <= k < |PageRows(txs, st)|
    ensures PageStart(st) + k < |txs|
    ensures Click(Render(txs, loading, st), k, EditButton) == Some(EditRequested(txs[PageStart(st) + k]))
    ensures Click(Render(txs, loading, st), k, DeleteButton) == Some(DeleteRequested(txs[PageStart(st) + k].id))
  {
  }

  /** A page beyond the list's end (after a delete removed the last row of the
      last page, say) still shows the table, with no rows in it. */
  lemma PastTheEndShowsEmptyTable(txs: seq<Transaction>, loading: bool, st: ListState)
    requires |txs| > 0 && PageStart(st) >= |txs|
    ensures Render(txs, loading, st).Table? && Render(txs, loading, st).rows == []
  {
  }
}
