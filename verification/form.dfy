/** The entry form of the client: its initial values, field changes, the submit
    guard with its reset, the state of the submit button, and the category
    options it offers. */
module TransactionForm {
  import opened Types

  // ---------------------------------------------------------------------------
  // Category options

  datatype CategoryOption = CategoryOption(value: string, caption: string)

  /** The category the form starts on and falls back to. */
  const DefaultCategory: string := "other"

  const Categories: seq<CategoryOption> := [
    CategoryOption("salary", "Salary"),
    CategoryOption("freelance", "Freelance"),
    CategoryOption("investments", "Investments"),
    CategoryOption("gifts", "Gifts"),
    CategoryOption("groceries", "Groceries"),
    CategoryOption("dining", "Dining Out"),
    CategoryOption("transportation", "Transportation"),
    CategoryOption("entertainment", "Entertainment"),
    CategoryOption("utilities", "Utilities"),
    CategoryOption("shopping", "Shopping"),
    CategoryOption("health", "Health"),
    CategoryOption("other", "Other")
  ]

  /** Twelve options, no value offered twice (they are the menu's keys), and the
      default category is one of them. */
  lemma CategoriesFacts()
    ensures |Categories| == 12
    ensures forall i, j | 0 <= i < j < |Categories| :: Categories[i].value != Categories[j].value
    ensures Categories[11].value == DefaultCategory
  {
  }

  // ---------------------------------------------------------------------------
  // Initial state

  /** The form with nothing typed: no description, no amount, an expense in the
      default category. */
  const Blank: FormData := FormData("", "", Expense, DefaultCategory)

  /** JavaScript's `s || fallback` on a string: the empty string is falsy. */
  function OrElse(s: string, fallback: string): (r: string)
    ensures r == s || r == fallback
    ensures r == "" ==> s == "" && fallback == ""
  {
    if s == "" then fallback else s
  }

  /** The state the form starts in, from the optional initial values. */
  function Initial(iv: Option<FormData>): (f: FormData)
    ensures iv.None? ==> f == Blank
    ensures iv.Some? ==> f.description == iv.value.description && f.amount == iv.value.amount
    ensures iv.Some? ==> f.txType == iv.value.txType
    ensures iv.Some? && iv.value.category != "" ==> f.category == iv.value.category
    ensures iv.Some? && iv.value.category == "" ==> f.category == DefaultCategory
  {
    match iv
    case None => FormData("", "", Expense, DefaultCategory)
    case Some(v) => FormData(OrElse(v.description, ""), OrElse(v.amount, ""), v.txType, OrElse(v.category, DefaultCategory))
  }

  /** The starting state never has an empty category. */
  lemma InitialCategoryNonEmpty(iv: Option<FormData>)
    ensures Initial(iv).category != ""
  {
  }

  // ---------------------------------------------------------------------------
  // Field changes

  /** An input's change event: the field named and the value it now shows. The
      type field is a menu of the two directions. */
  datatype Change =
    | SetDescription(text: string)
    | SetAmount(text: string)
    | SetType(kind: TxType)
    | SetCategory(text: string)

  function HandleChange(f: FormData, c: Change): (r: FormData)
    ensures c.SetDescription? ==> r == FormData(c.text, f.amount, f.txType, f.category)
    ensures c.SetAmount? ==> r == FormData(f.description, c.text, f.txType, f.category)
    ensures c.SetType? ==> r == FormData(f.description, f.amount, c.kind, f.category)
    ensures c.SetCategory? ==> r == FormData(f.description, f.amount, f.txType, c.text)
  {
    match c
    case SetDescription(v) => f.(description := v)
    case SetAmount(v) => f.(amount := v)
    case SetType(k) => f.(txType := k)
    case SetCategory(v) => f.(category := v)
  }

  /** The field a change names. */
  function FieldOf(c: Change): nat
  {
    match c
    case SetDescription(_) => 0
    case SetAmount(_) => 1
    case SetType(_) => 2
    case SetCategory(_) => 3
  }

  /** Changes to different fields can come in either order; of two changes to
      the same field the later one wins. */
  lemma ChangesCommuteOrOverwrite(f: FormData, a: Change, b: Change)
    ensures FieldOf(a) != FieldOf(b) ==> HandleChange(HandleChange(f, a), b) == HandleChange(HandleChange(f, b), a)
    ensures FieldOf(a) == FieldOf(b) ==> HandleChange(HandleChange(f, a), b) == HandleChange(f, b)
  {
  }

  // ---------------------------------------------------------------------------
  // String.prototype.trim

  /** The characters `trim` removes: ECMAScript's white space and line
      terminators. */
  predicate IsSpace(c: char)
  {
    var n := c as int;
    || (9 <= n <= 13) || n == 32 || n == 0xA0 || n == 0x1680
    || (0x2000 <= n <= 0x200A) || n == 0x2028 || n == 0x2029
    || n == 0x202F || n == 0x205F || n == 0x3000 || n == 0xFEFF
  }

  /** `s` holds a character `trim` keeps. */
  predicate HasVisible(s: string)
  {
    exists i :: 0 <= i < |s| && !IsSpace(s[i])
  }

  /** `s` without its leading white space. */
  function TrimStart(s: string): (r: string)
    ensures |r| <= |s| && r == s[|s| - |r|..]
    ensures r != [] ==> !IsSpace(r[0])
    ensures forall i | 0 <= i < |s| - |r| :: IsSpace(s[i])
  {
    if s != [] && IsSpace(s[0]) then TrimStart(s[1..]) else s
  }

  /** `s` without its trailing white space. */
  function TrimEnd(s: string): (r: string)
    ensures |r| <= |s| && r == s[..|r|]
    ensures r != [] ==> !IsSpace(r[|r| - 1])
    ensures forall i | |r| <= i < |s| :: IsSpace(s[i])
  {
    if s != [] && IsSpace(s[|s| - 1]) then TrimEnd(s[..|s| - 1]) else s
  }

  function Trim(s: string): string
  {
    TrimEnd(TrimStart(s))
  }

  /** Where the trimmed text starts in `s`. */
  function TrimOffset(s: string): nat
  {
    |s| - |TrimStart(s)|
  }

  /** `trim` gives a piece of `s` that neither starts nor ends with white
      space, and only white space was cut off around it. */
  lemma {:induction false} TrimIsInfix(s: string)
    ensures TrimOffset(s) + |Trim(s)| <= |s|
    ensures Trim(s) == s[TrimOffset(s)..TrimOffset(s) + |Trim(s)|]
    ensures forall i | 0 <= i < TrimOffset(s) :: IsSpace(s[i])
    ensures forall i | TrimOffset(s) + |Trim(s)| <= i < |s| :: IsSpace(s[i])
    ensures Trim(s) != [] ==> !IsSpace(Trim(s)[0]) && !IsSpace(Trim(s)[|Trim(s)| - 1])
  {
    var a := TrimStart(s);
    var i := |s| - |a|;
    TrimEndInSuffix(s, i);
  }

  /** Trimming the end of the suffix from `i` on: a piece of `s` from `i`, with
      only white space after it. */
  lemma TrimEndInSuffix(s: string, i: nat)
    requires i <= |s|
    ensures i + |TrimEnd(s[i..])| <= |s|
    ensures TrimEnd(s[i..]) == s[i..i + |TrimEnd(s[i..])|]
    ensures forall j | i + |TrimEnd(s[i..])| <= j < |s| :: IsSpace(s[j])
  {
    var a := s[i..];
    var r := TrimEnd(a);
    assert r == a[..|r|];
    forall j | i + |r| <= j < |s|
      ensures IsSpace(s[j])
    {
      assert s[j] == a[j - i];
    }
  }

  /** `trim` leaves nothing exactly when `s` is all white space. */
  lemma {:induction false} TrimEmptyIff(s: string)
    ensures Trim(s) == [] <==> !HasVisible(s)
  {
    var a := TrimStart(s);
    var r := TrimEnd(a);
    if a == [] {
      assert forall i | 0 <= i < |s| :: IsSpace(s[i]);
    } else {
      assert !IsSpace(a[0]);
      assert r != [];
      var k := |s| - |a|;
      assert s[k] == a[0];
    }
  }

  // ---------------------------------------------------------------------------
  // Submitting

  /** The submit guard: a description with something besides white space, and
      an amount typed. */
  predicate CanSubmit(f: FormData)
  {
    Trim(f.description) != "" && f.amount != ""
  }

  lemma CanSubmitIff(f: FormData)
    ensures CanSubmit(f) <==> HasVisible(f.description) && f.amount != ""
  {
    TrimEmptyIff(f.description);
  }

  /** The result of a submit: the form's new state and what it handed to
      `onSubmit`, if anything. */
  datatype Submitted = Submitted(form: FormData, sent: Option<FormData>)

  /** handleSubmit: an accepted submit hands the current data over once and
      clears the form; a rejected one does nothing. */
  function HandleSubmit(f: FormData): (r: Submitted)
    ensures r.sent.Some? <==> HasVisible(f.description) && f.amount != ""
    ensures r.sent.Some? ==> r.sent.value == f && r.form == Blank
    ensures r.sent.None? ==> r.form == f
  {
    CanSubmitIff(f);
    if CanSubmit(f) then Submitted(Blank, Some(f)) else Submitted(f, None)
  }

  /** The cleared form cannot be submitted again straight away. */
  lemma BlankIsRejected(f: FormData)
    ensures HandleSubmit(Blank).sent.None?
    ensures HandleSubmit(HandleSubmit(f).form).sent.None?
  {
    assert !HasVisible(Blank.description);
  }

  /** The submit button's `disabled` property. */
  function SubmitDisabled(f: FormData, submitLoading: bool): (d: bool)
    ensures d <==> !HasVisible(f.description) || f.amount == "" || submitLoading
  {
    TrimEmptyIff(f.description);
    Trim(f.description) == "" || f.amount == "" || submitLoading
  }

  /** An enabled button always leads to an accepted submit; a disabled one
      while nothing is saving means the guard would reject. */
  lemma ButtonAgreesWithGuard(f: FormData, submitLoading: bool)
    ensures !SubmitDisabled(f, submitLoading) ==> HandleSubmit(f).sent == Some(f)
    ensures SubmitDisabled(f, false) ==> HandleSubmit(f).sent.None?
  {
  }
}
