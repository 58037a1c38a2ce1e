/** The "Expenses by Category" chart: the expense rows grouped by category with
    their magnitudes summed, largest first, and the axis label of a category. */
module ExpenseChart {
  import opened Types

  /** One bar: a category and the summed magnitude of its expenses. */
  datatype Bar = Bar(name: string, amount: real)

  function Abs(x: real): (r: real)
    ensures 0.0 <= r && (r == x || r == -x)
  {
    if x < 0.0 then -x else x
  }

  // ---------------------------------------------------------------------------
  // The group-by

  /** `acc[category] += Math.abs(amount)`, the entry first set to 0 when missing.
      A category seen for the first time goes last: object keys keep the order
      they were added in. */
  function AddTo(acc: seq<Bar>, category: string, v: real): seq<Bar>
  {
    if acc == [] then [Bar(category, v)]
    else if acc[0].name == category then [Bar(category, acc[0].amount + v)] + acc[1..]
    else [acc[0]] + AddTo(acc[1..], category, v)
  }

  /** One step of the reduce: an income row leaves the accumulator as it is. */
  function Step(acc: seq<Bar>, t: Transaction): seq<Bar>
  {
    if t.txType == Expense then AddTo(acc, t.category, Abs(t.amount)) else acc
  }

  /** `transactions.reduce(Step, {})`, a left fold; `Object.entries` of the result. */
  function CategoryTotals(txs: seq<Transaction>): seq<Bar>
  {
    if txs == [] then [] else Step(CategoryTotals(txs[..|txs| - 1]), txs[|txs| - 1])
  }

  /** The bar a name has in `bars`, read as 0 when it has none. */
  function AmountOf(bars: seq<Bar>, name: string): real
  {
    if bars == [] then 0.0
    else if bars[0].name == name then bars[0].amount
    else AmountOf(bars[1..], name)
  }

  function Names(bars: seq<Bar>): set<string>
  {
    if bars == [] then {} else {bars[0].name} + Names(bars[1..])
  }

  /** No name has two bars. */
  predicate DistinctNames(bars: seq<Bar>)
  {
    bars == [] || (bars[0].name !in Names(bars[1..]) && DistinctNames(bars[1..]))
  }

  // The reference the chart is measured against.

  /** The summed magnitude of the expense rows of one category. */
  function ExpenseSum(txs: seq<Transaction>, category: string): real
  {
    if txs == [] then 0.0
    else
      var t := txs[|txs| - 1];
      ExpenseSum(txs[..|txs| - 1], category)
        + (if t.txType == Expense && t.category == category then Abs(t.amount) else 0.0)
  }

  /** The categories of the expense rows. */
  function ExpenseCategories(txs: seq<Transaction>): set<string>
  {
    if txs == [] then {}
    else
      var t := txs[|txs| - 1];
      ExpenseCategories(txs[..|txs| - 1]) + (if t.txType == Expense then {t.category} else {})
  }

  /** The expense rows, in order. */
  function Expenses(txs: seq<Transaction>): (r: seq<Transaction>)
    ensures forall i | 0 <= i < |r| :: r[i].txType == Expense
    ensures forall x :: multiset(r)[x] == if x.txType == Expense then multiset(txs)[x] else 0
  {
    if txs == [] then []
    else
      var t := txs[|txs| - 1];
      assert txs == txs[..|txs| - 1] + [t];
      Expenses(txs[..|txs| - 1]) + (if t.txType == Expense then [t] else [])
  }

  lemma {:induction false} ExpenseSumNonNegative(txs: seq<Transaction>, category: string)
    ensures 0.0 <= ExpenseSum(txs, category)
  {
    if txs != [] {
      ExpenseSumNonNegative(txs[..|txs| - 1], category);
    }
  }

  lemma {:induction false} AddToFacts(acc: seq<Bar>, category: string, v: real)
    ensures Names(AddTo(acc, category, v)) == Names(acc) + {category}
    ensures DistinctNames(acc) ==> DistinctNames(AddTo(acc, category, v))
    ensures forall n ::
      (AmountOf(AddTo(acc, category, v), n) == AmountOf(acc, n) + (if n == category then v else 0.0))
  {
    if acc != [] && acc[0].name != category {
      AddToFacts(acc[1..], category, v);
      assert AddTo(acc, category, v)[1..] == AddTo(acc[1..], category, v);
    } else if acc != [] {
      assert AddTo(acc, category, v)[1..] == acc[1..];
    }
  }

  /** The fold keeps one bar per name, holding exactly that category's sum. */
  lemma {:induction false} CategoryTotalsFacts(txs: seq<Transaction>)
    ensures DistinctNames(CategoryTotals(txs))
    ensures Names(CategoryTotals(txs)) == ExpenseCategories(txs)
    ensures forall n :: AmountOf(CategoryTotals(txs), n) == ExpenseSum(txs, n)
  {
    if txs != [] {
      var t := txs[|txs| - 1];
      CategoryTotalsFacts(txs[..|txs| - 1]);
      if t.txType == Expense {
        AddToFacts(CategoryTotals(txs[..|txs| - 1]), t.category, Abs(t.amount));
      }
    }
  }

  /** In a list without repeated names, each bar is the amount its name reads. */
  lemma {:induction false} AmountOfDistinct(bars: seq<Bar>, i: int)
    requires DistinctNames(bars) && 0 <= i < |bars|
    ensures AmountOf(bars, bars[i].name) == bars[i].amount
  {
    if i > 0 {
      assert bars[1..][i - 1] == bars[i];
      NameInNames(bars[1..], i - 1);
      AmountOfDistinct(bars[1..], i - 1);
    }
  }

  lemma {:induction false} NameInNames(bars: seq<Bar>, i: int)
    requires 0 <= i < |bars|
    ensures bars[i].name in Names(bars)
  {
    if i > 0 {
      assert bars[1..][i - 1] == bars[i];
      NameInNames(bars[1..], i - 1);
    }
  }

  lemma {:induction false} NamesHaveBars(bars: seq<Bar>, n: string)
    requires n in Names(bars)
    ensures exists i | 0 <= i < |bars| :: bars[i].name == n
  {
    if bars[0].name != n {
      NamesHaveBars(bars[1..], n);
      var i :| 0 <= i < |bars[1..]| && bars[1..][i].name == n;
      assert bars[i + 1].name == n;
    }
  }

  /** Income rows change nothing: the totals of the rows are those of their expenses. */
  lemma {:induction false} OnlyExpensesCount(txs: seq<Transaction>)
    ensures CategoryTotals(txs) == CategoryTotals(Expenses(txs))
  {
    if txs != [] {
      var t := txs[|txs| - 1];
      var pre := txs[..|txs| - 1];
      OnlyExpensesCount(pre);
      if t.txType == Expense {
        var e := Expenses(pre) + [t];
        assert e[..|e| - 1] == Expenses(pre) && e[|e| - 1] == t;
      } else {
        assert Expenses(txs) == Expenses(pre) + [];
        assert Expenses(pre) + [] == Expenses(pre);
      }
    }
  }

  // ---------------------------------------------------------------------------
  // The sort: chartData.sort((a, b) => b.amount - a.amount), a stable sort

  predicate AmountDescending(bars: seq<Bar>)
  {
    forall i, j | 0 <= i < j < |bars| :: bars[j].amount <= bars[i].amount
  }

  /** Places `x` before the first bar that is not larger; ties keep their order. */
  function InsertByAmount(x: Bar, s: seq<Bar>): (r: seq<Bar>)
    ensures multiset(r) == multiset(s) + multiset{x}
    ensures Names(r) == Names(s) + {x.name}
  {
    if s == [] then [x]
    else if s[0].amount <= x.amount then [x] + s
    else
      assert s == [s[0]] + s[1..];
      var rest := InsertByAmount(x, s[1..]);
      assert ([s[0]] + rest)[1..] == rest;
      [s[0]] + rest
  }

  /** Inserting a bar no larger than `bound` into bars no larger than `bound`
      gives bars no larger than `bound`. */
  lemma {:induction false} InsertByAmountBounded(x: Bar, s: seq<Bar>, bound: real)
    requires x.amount <= bound
    requires forall j | 0 <= j < |s| :: s[j].amount <= bound
    ensures forall j | 0 <= j < |InsertByAmount(x, s)| :: InsertByAmount(x, s)[j].amount <= bound
  {
    if s != [] && x.amount < s[0].amount {
      InsertByAmountBounded(x, s[1..], bound);
      var rest := InsertByAmount(x, s[1..]);
      assert InsertByAmount(x, s) == [s[0]] + rest;
    }
  }

  lemma {:induction false} InsertByAmountSorted(x: Bar, s: seq<Bar>)
    requires AmountDescending(s)
    ensures AmountDescending(InsertByAmount(x, s))
  {
    var r := InsertByAmount(x, s);
    if s == [] {
    } else if s[0].amount <= x.amount {
      assert forall j | 1 <= j < |r| :: r[j] == s[j - 1];
    } else {
      var tail := s[1..];
      assert forall j | 0 <= j < |tail| :: tail[j] == s[j + 1];
      InsertByAmountSorted(x, tail);
      InsertByAmountBounded(x, tail, s[0].amount);
      var rest := InsertByAmount(x, tail);
      assert r == [s[0]] + rest;
    }
  }

  lemma {:induction false} InsertByAmountDistinct(x: Bar, s: seq<Bar>)
    requires DistinctNames(s) && x.name !in Names(s)
    ensures DistinctNames(InsertByAmount(x, s))
  {
    var r := InsertByAmount(x, s);
    if s == [] {
    } else if s[0].amount <= x.amount {
      assert r[1..] == s;
    } else {
      assert r[1..] == InsertByAmount(x, s[1..]);
      InsertByAmountDistinct(x, s[1..]);
    }
  }

  function SortByAmount(bars: seq<Bar>): (r: seq<Bar>)
    ensures multiset(r) == multiset(bars)
    ensures Names(r) == Names(bars)
    ensures AmountDescending(r)
    ensures DistinctNames(bars) ==> DistinctNames(r)
  {
    if bars == [] then []
    else
      assert bars == [bars[0]] + bars[1..];
      var rest := SortByAmount(bars[1..]);
      InsertByAmountSorted(bars[0], rest);
      assert DistinctNames(bars) ==> DistinctNames(InsertByAmount(bars[0], rest)) by {
        if DistinctNames(bars) { InsertByAmountDistinct(bars[0], rest); }
      }
      InsertByAmount(bars[0], rest)
  }

  /** The bars the chart draws: one per category of the expense rows, each the
      summed magnitude of that category's expenses, largest first. */
  function ChartData(txs: seq<Transaction>): (r: seq<Bar>)
    ensures DistinctNames(r)
    ensures Names(r) == ExpenseCategories(txs)
    ensures forall i | 0 <= i < |r| :: r[i].amount == ExpenseSum(txs, r[i].name)
    ensures forall i | 0 <= i < |r| :: 0.0 <= r[i].amount
    ensures AmountDescending(r)
  {
    var totals := CategoryTotals(txs);
    CategoryTotalsFacts(txs);
    var r := SortByAmount(totals);
    assert forall i | 0 <= i < |r| :: r[i].amount == ExpenseSum(txs, r[i].name) && 0.0 <= r[i].amount by {
      forall i | 0 <= i < |r| ensures r[i].amount == ExpenseSum(txs, r[i].name) && 0.0 <= r[i].amount {
        AmountOfDistinct(r, i);
        AmountOfPermutation(totals, r, r[i].name);
        ExpenseSumNonNegative(txs, r[i].name);
      }
    }
    r
  }

  /** Two lists with the same bars and no repeated names read the same amounts. */
  lemma AmountOfPermutation(a: seq<Bar>, b: seq<Bar>, n: string)
    requires multiset(a) == multiset(b) && DistinctNames(a) && DistinctNames(b)
    ensures AmountOf(a, n) == AmountOf(b, n)
  {
    if n in Names(a) {
      NamesHaveBars(a, n);
      var i :| 0 <= i < |a| && a[i].name == n;
      AmountOfDistinct(a, i);
      assert a[i] in multiset(b);
      var j :| 0 <= j < |b| && b[j] == a[i];
      AmountOfDistinct(b, j);
    } else {
      AmountOfAbsent(a, n);
      assert n !in Names(b) by {
        if n in Names(b) {
          NamesHaveBars(b, n);
          var j :| 0 <= j < |b| && b[j].name == n;
          assert b[j] in multiset(a);
          var i :| 0 <= i < |a| && a[i] == b[j];
          NameInNames(a, i);
          assert false;
        }
      }
      AmountOfAbsent(b, n);
    }
  }

  lemma {:induction false} AmountOfAbsent(bars: seq<Bar>, n: string)
    requires n !in Names(bars)
    ensures AmountOf(bars, n) == 0.0
  {
    if bars != [] {
      AmountOfAbsent(bars[1..], n);
    }
  }

  /** `if (chartData.length === 0) return null`: the chart, or nothing. */
  function Render(txs: seq<Transaction>): (r: Option<seq<Bar>>)
    ensures r.None? <==> ExpenseCategories(txs) == {}
    ensures r.Some? ==> r.value == ChartData(txs)
  {
    var data := ChartData(txs);
    assert data == [] <==> Names(data) == {} by {
      if data != [] { NameInNames(data, 0); }
    }
    if |data| == 0 then None else Some(data)
  }

  /** Nothing is drawn exactly when there is no expense row. */
  lemma {:induction false} RenderNothingIffNoExpense(txs: seq<Transaction>)
    ensures Render(txs).None? <==> forall i | 0 <= i < |txs| :: txs[i].txType != Expense
  {
    if txs != [] {
      var pre := txs[..|txs| - 1];
      RenderNothingIffNoExpense(pre);
      assert forall i | 0 <= i < |pre| :: pre[i] == txs[i];
    }
  }

  /** Three expenses in two categories and an income in one of them. */
  lemma ChartExample(d: Date)
    ensures ChartData([
      Transaction(1, "a", 20.0, Expense, "groceries", d),
      Transaction(2, "b", 10.0, Expense, "dining", d),
      Transaction(3, "c", 5.0, Expense, "groceries", d),
      Transaction(4, "d", 100.0, Income, "groceries", d)])
      == [Bar("groceries", 25.0), Bar("dining", 10.0)]
  {
    var t1 := Transaction(1, "a", 20.0, Expense, "groceries", d);
    var t2 := Transaction(2, "b", 10.0, Expense, "dining", d);
    var t3 := Transaction(3, "c", 5.0, Expense, "groceries", d);
    var t4 := Transaction(4, "d", 100.0, Income, "groceries", d);
    var txs := [t1, t2, t3, t4];
    assert txs[..3] == [t1, t2, t3];
    assert [t1, t2, t3][..2] == [t1, t2];
    assert [t1, t2][..1] == [t1];
    assert [t1][..0] == [];
    assert CategoryTotals([t1]) == [Bar("groceries", 20.0)];
    assert [Bar("groceries", 20.0)][1..] == [];
    assert CategoryTotals([t1, t2]) == AddTo([Bar("groceries", 20.0)], "dining", 10.0);
    assert AddTo([Bar("groceries", 20.0)], "dining", 10.0) == [Bar("groceries", 20.0)] + AddTo([], "dining", 10.0);
    assert CategoryTotals([t1, t2]) == [Bar("groceries", 20.0), Bar("dining", 10.0)];
    var totals := [Bar("groceries", 25.0), Bar("dining", 10.0)];
    assert [Bar("groceries", 20.0), Bar("dining", 10.0)][1..] == [Bar("dining", 10.0)];
    assert CategoryTotals([t1, t2, t3]) == AddTo([Bar("groceries", 20.0), Bar("dining", 10.0)], "groceries", 5.0);
    assert CategoryTotals([t1, t2, t3]) == totals;
    assert CategoryTotals(txs) == totals;
    assert totals[1..] == [Bar("dining", 10.0)];
    assert SortByAmount([Bar("dining", 10.0)]) == [Bar("dining", 10.0)];
  }

  // ---------------------------------------------------------------------------
  // formatCategory: split on '-', upper-case each piece's first character, join with ' '

  /** `toUpperCase` on one character; only the ASCII letters a-z are mapped. */
  function Upper(c: char): (r: char)
    ensures r != '-' || c == '-'
  {
    if 'a' <= c <= 'z' then (c as int - 32) as char else c
  }

  /** `s.split('-')`: always at least one piece, possibly empty ones. */
  function Split(s: string): (r: seq<string>)
    ensures |r| >= 1
  {
    if s == [] then [[]]
    else
      var rest := Split(s[1..]);
      if s[0] == '-' then [[]] + rest
      else [[s[0]] + rest[0]] + rest[1..]
  }

  /** `word.charAt(0).toUpperCase() + word.slice(1)` */
  function Capitalize(w: string): string
  {
    if w == [] then [] else [Upper(w[0])] + w[1..]
  }

  function CapitalizeAll(ws: seq<string>): (r: seq<string>)
    ensures |r| == |ws|
  {
    if ws == [] then [] else [Capitalize(ws[0])] + CapitalizeAll(ws[1..])
  }

  /** `pieces.join(sep)` */
  function Join(ws: seq<string>, sep: char): string
  {
    if ws == [] then []
    else if |ws| == 1 then ws[0]
    else ws[0] + [sep] + Join(ws[1..], sep)
  }

  function FormatCategory(category: string): string
  {
    Join(CapitalizeAll(Split(category)), ' ')
  }

  function Count(s: string, c: char): nat
  {
    if s == [] then 0 else (if s[0] == c then 1 else 0) + Count(s[1..], c)
  }

  /** There is one piece more than there are dashes, no piece holds a dash, and
      joining the pieces with '-' gives back the text. */
  lemma {:induction false} SplitFacts(s: string)
    ensures |Split(s)| == Count(s, '-') + 1
    ensures forall i | 0 <= i < |Split(s)| :: '-' !in Split(s)[i]
    ensures Join(Split(s), '-') == s
  {
    if s != [] {
      SplitFacts(s[1..]);
      var rest := Split(s[1..]);
      if s[0] == '-' {
        assert Split(s)[1..] == rest;
      } else {
        var r := Split(s);
        assert r[1..] == rest[1..];
        assert forall i | 1 <= i < |r| :: r[i] == rest[i];
        if |rest| == 1 {
          assert Join(r, '-') == [s[0]] + rest[0];
        } else {
          assert Join(rest, '-') == rest[0] + ['-'] + Join(rest[1..], '-');
          assert Join(r, '-') == [s[0]] + rest[0] + ['-'] + Join(rest[1..], '-');
        }
        assert s == [s[0]] + s[1..];
      }
    }
  }

  /** The character of the label at position `i` of the category text: a dash
      becomes a space, a character that starts a piece is upper-cased. */
  function LabelChar(s: string, i: int, atStart: bool): char
    requires 0 <= i < |s|
  {
    if s[i] == '-' then ' '
    else if (i == 0 && atStart) || (i > 0 && s[i - 1] == '-') then Upper(s[i])
    else s[i]
  }

  /** The label read left to right; `atStart` tells whether a piece begins here. */
  function Scan(s: string, atStart: bool): (r: string)
    ensures |r| == |s|
    ensures forall i | 0 <= i < |s| :: r[i] == LabelChar(s, i, atStart)
  {
    if s == [] then []
    else
      var rest := Scan(s[1..], s[0] == '-');
      var head := if s[0] == '-' then ' ' else if atStart then Upper(s[0]) else s[0];
      assert forall i | 1 <= i < |s| :: LabelChar(s, i, atStart) == LabelChar(s[1..], i - 1, s[0] == '-');
      [head] + rest
  }

  function CapitalizeIf(b: bool, w: string): string
  {
    if b then Capitalize(w) else w
  }

  lemma JoinPrefix(x: string, w: string, ws: seq<string>, sep: char)
    ensures Join([x + w] + ws, sep) == x + Join([w] + ws, sep)
  {
    if ws != [] {
      assert ([x + w] + ws)[1..] == ws;
      assert ([w] + ws)[1..] == ws;
    }
  }

  lemma {:induction false} ScanIsJoin(s: string, b: bool)
    ensures Scan(s, b) == Join([CapitalizeIf(b, Split(s)[0])] + CapitalizeAll(Split(s)[1..]), ' ')
  {
    if s != [] {
      var rest := Split(s[1..]);
      if s[0] == '-' {
        ScanIsJoin(s[1..], true);
        assert Split(s)[0] == [] && Split(s)[1..] == rest;
        assert CapitalizeAll(rest) == [Capitalize(rest[0])] + CapitalizeAll(rest[1..]);
        var ws := [CapitalizeIf(b, [])] + CapitalizeAll(rest);
        assert ws[1..] == CapitalizeAll(rest);
      } else {
        ScanIsJoin(s[1..], false);
        assert Split(s)[0] == [s[0]] + rest[0] && Split(s)[1..] == rest[1..];
        var h := if b then Upper(s[0]) else s[0];
        assert CapitalizeIf(b, [s[0]] + rest[0]) == [h] + rest[0];
        JoinPrefix([h], rest[0], CapitalizeAll(rest[1..]), ' ');
      }
    }
  }

  /** The axis label of a category, character by character: the same length,
      each '-' a space, the first character of each piece upper-cased, the rest
      as they were; so no '-' is left. */
  lemma FormatCategoryPointwise(s: string)
    ensures |FormatCategory(s)| == |s|
    ensures forall i | 0 <= i < |s| :: FormatCategory(s)[i] == LabelChar(s, i, true)
    ensures '-' !in FormatCategory(s)
  {
    ScanIsJoin(s, true);
    var ps := Split(s);
    assert CapitalizeAll(ps) == [Capitalize(ps[0])] + CapitalizeAll(ps[1..]);
    var r := FormatCategory(s);
    forall i | 0 <= i < |r| ensures r[i] != '-' {
      assert r[i] == LabelChar(s, i, true);
    }
  }

  lemma {:induction false} SplitPiece(w: string, rest: string)
    requires '-' !in w
    ensures Split(w + "-" + rest) == [w] + Split(rest)
    ensures rest == "" ==> Split(w) == [w]
  {
    if w != [] {
      SplitPiece(w[1..], rest);
      assert (w + "-" + rest)[1..] == w[1..] + "-" + rest;
      assert w == [w[0]] + w[1..];
    }
  }

  /** Two dash-free words joined by a dash are labelled as the two words
      capitalised and joined by a space. */
  lemma FormatTwoWords(a: string, b: string)
    requires '-' !in a && '-' !in b
    ensures FormatCategory(a + "-" + b) == Capitalize(a) + " " + Capitalize(b)
  {
    SplitPiece(a, b);
    SplitPiece(b, "");
    assert Split(a + "-" + b) == [a, b];
    assert CapitalizeAll([a, b]) == [Capitalize(a), Capitalize(b)] by {
      assert [a, b][1..] == [b];
    }
    assert [Capitalize(a), Capitalize(b)][1..] == [Capitalize(b)];
    assert Join([Capitalize(a), Capitalize(b)], ' ') == Capitalize(a) + [' '] + Capitalize(b);
  }

  /** "eating-out" is labelled "Eating Out". */
  lemma FormatCategoryExample()
    ensures FormatCategory("eating" + "-" + "out") == "Eating Out"
  {
    FormatTwoWords("eating", "out");
    assert Capitalize("eating") == "Eating" by { assert "eating"[1..] == "ating"; }
    assert Capitalize("out") == "Out" by { assert "out"[1..] == "ut"; }
  }

  // ---------------------------------------------------------------------------
  // The reduce as written: `acc` is a plain object literal, so `acc[category]`
  // also finds the members it inherits from Object.prototype.

  /** The function-valued members every object inherits. */
  const InheritedMethods: set<string> := {
    "constructor", "hasOwnProperty", "isPrototypeOf", "propertyIsEnumerable",
    "toLocaleString", "toString", "valueOf",
    "__defineGetter__", "__defineSetter__", "__lookupGetter__", "__lookupSetter__"}

  /** The accessor for the prototype itself; assigning it a string is ignored. */
  const ProtoKey: string := "__proto__"

  /** An own property's value: a number, or the text an inherited method turns
      into when a number is added to it. */
  datatype Slot = Number(n: real) | Text

  datatype Entry = Entry(name: string, slot: Slot)

  function PlusSlot(s: Slot, v: real): Slot
  {
    match s
    case Number(n) => Number(n + v)
    case Text => Text
  }

  /** `acc[c] += v` with `acc[c]` first set to 0 when falsy: an inherited method
      is truthy, so the sum becomes the method's source text followed by `v`. */
  function AddOwn(acc: seq<Entry>, c: string, v: real): seq<Entry>
  {
    if acc == [] then [Entry(c, if c in InheritedMethods then Text else Number(v))]
    else if acc[0].name == c then [Entry(c, PlusSlot(acc[0].slot, v))] + acc[1..]
    else [acc[0]] + AddOwn(acc[1..], c, v)
  }

  function StepAsWritten(acc: seq<Entry>, t: Transaction): seq<Entry>
  {
    if t.txType != Expense then acc
    else if t.category == ProtoKey then acc
    else AddOwn(acc, t.category, Abs(t.amount))
  }

  function EntriesAsWritten(txs: seq<Transaction>): seq<Entry>
  {
    if txs == [] then [] else StepAsWritten(EntriesAsWritten(txs[..|txs| - 1]), txs[|txs| - 1])
  }

  function HasText(es: seq<Entry>): bool
  {
    exists i | 0 <= i < |es| :: es[i].slot.Text?
  }

  function ToBars(es: seq<Entry>): seq<Bar>
  {
    if es == [] then []
    else [Bar(es[0].name, if es[0].slot.Number? then es[0].slot.n else 0.0)] + ToBars(es[1..])
  }

  /** The chart data as written; `None` when `value.toFixed(2)` meets a text
      value and throws, which takes the page down with it. */
  function ChartDataAsWritten(txs: seq<Transaction>): Option<seq<Bar>>
  {
    var es := EntriesAsWritten(txs);
    if HasText(es) then None else Some(SortByAmount(ToBars(es)))
  }

  function Lift(bars: seq<Bar>): (r: seq<Entry>)
    ensures !HasText(r)
    ensures ToBars(r) == bars
  {
    if bars == [] then []
    else
      var rest := Lift(bars[1..]);
      assert ([Entry(bars[0].name, Number(bars[0].amount))] + rest)[1..] == rest;
      [Entry(bars[0].name, Number(bars[0].amount))] + rest
  }

  lemma {:induction false} AddOwnLift(acc: seq<Bar>, c: string, v: real)
    requires c !in InheritedMethods
    ensures AddOwn(Lift(acc), c, v) == Lift(AddTo(acc, c, v))
  {
    if acc != [] && acc[0].name != c {
      AddOwnLift(acc[1..], c, v);
    }
  }

  lemma {:induction false} EntriesAsWrittenLift(txs: seq<Transaction>)
    requires forall i | 0 <= i < |txs| && txs[i].txType == Expense ::
      txs[i].category !in InheritedMethods && txs[i].category != ProtoKey
    ensures EntriesAsWritten(txs) == Lift(CategoryTotals(txs))
  {
    if txs != [] {
      var pre := txs[..|txs| - 1];
      assert forall i | 0 <= i < |pre| :: pre[i] == txs[i];
      EntriesAsWrittenLift(pre);
      var t := txs[|txs| - 1];
      if t.txType == Expense {
        AddOwnLift(CategoryTotals(pre), t.category, Abs(t.amount));
      }
    }
  }

  /** While no expense is filed under an inherited member's name, the code as
      written draws exactly the corrected chart. */
  lemma AsWrittenAgreesOnOrdinaryNames(txs: seq<Transaction>)
    requires forall i | 0 <= i < |txs| && txs[i].txType == Expense ::
      txs[i].category !in InheritedMethods && txs[i].category != ProtoKey
    ensures ChartDataAsWritten(txs) == Some(ChartData(txs))
  {
    EntriesAsWrittenLift(txs);
  }

  /** One expense filed under "toString" makes the code as written throw, where
      the corrected chart draws one bar. */
  lemma InheritedNameBreaksChart(d: Date)
    ensures ChartDataAsWritten([Transaction(1, "book", 5.0, Expense, "toString", d)]).None?
    ensures ChartData([Transaction(1, "book", 5.0, Expense, "toString", d)]) == [Bar("toString", 5.0)]
  {
    var txs := [Transaction(1, "book", 5.0, Expense, "toString", d)];
    assert txs[..0] == [];
    assert EntriesAsWritten(txs) == [Entry("toString", Text)];
    assert EntriesAsWritten(txs)[0].slot.Text?;
    assert CategoryTotals(txs) == [Bar("toString", 5.0)];
    assert SortByAmount([Bar("toString", 5.0)]) == [Bar("toString", 5.0)] by {
      assert [Bar("toString", 5.0)][1..] == [];
    }
  }

  /** One expense filed under "__proto__" vanishes in the code as written, so
      nothing is drawn although there is an expense. */
  lemma ProtoNameVanishes(d: Date)
    ensures ChartDataAsWritten([Transaction(1, "book", 5.0, Expense, "__proto__", d)]) == Some([])
    ensures Render([Transaction(1, "book", 5.0, Expense, "__proto__", d)]).Some?
  {
    var txs := [Transaction(1, "book", 5.0, Expense, "__proto__", d)];
    assert txs[..0] == [];
    assert EntriesAsWritten(txs) == [];
    assert !HasText([]);
    assert ToBars([]) == [] && SortByAmount([]) == [];
    RenderNothingIffNoExpense(txs);
    assert txs[0].txType == Expense;
  }
}
