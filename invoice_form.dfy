/**
 * The state of the invoice form (components/invoices/invoice-form.tsx): the
 * form data with its list of line items, the handlers that edit the list,
 * the running total, and the validation done on submit.
 *
 * Quantities, prices and amounts are JavaScript numbers in the source; here
 * they are exact `real`s, so there is no rounding, no NaN and no infinity.
 */
module InvoiceForm {
  import opened Wrappers
  import opened Seqs
  import opened Text

  datatype Status = Draft | Sent | Paid | Overdue

  /** `InvoiceItem`; `id` is only present on items loaded from a stored invoice. */
  datatype Item = Item(id: Option<string>, description: string, quantity: real, unitPrice: real, amount: real)

  /** `InvoiceFormData`. */
  datatype FormData = FormData(
    invoiceNumber: string,
    clientName: string,
    clientEmail: string,
    issueDate: string,
    dueDate: string,
    status: Status,
    notes: string,
    items: seq<Item>)

  /** The item the form starts with and the one "add item" appends. */
  const BlankItem := Item(None, "", 1.0, 0.0, 0.0)

  /** The form before anything is typed or loaded. */
  const Blank := FormData("", "", "", "", "", Draft, "", [BlankItem])

  /** `formData.items.reduce((sum, item) => sum + item.amount, 0)`: a left fold from 0. */
  function Total(items: seq<Item>): (r: real)
    ensures (forall i :: 0 <= i < |items| ==> items[i].amount >= 0.0) ==> r >= 0.0
  {
    if items == [] then 0.0 else Total(items[..|items| - 1]) + items[|items| - 1].amount
  }

  /** The total of two lists one after the other is the sum of their totals. */
  lemma {:induction false} TotalConcat(a: seq<Item>, b: seq<Item>)
    ensures Total(a + b) == Total(a) + Total(b)
  {
    if b != [] {
      assert (a + b)[..|a + b| - 1] == a + b[..|b| - 1];
      TotalConcat(a, b[..|b| - 1]);
    } else {
      assert a + b == a;
    }
  }

  lemma TotalSingle(x: Item)
    ensures Total([x]) == x.amount
  {
    assert [x][..0] == [];
  }

  /** Removing the item at `index` subtracts its amount from the total. */
  lemma TotalRemove(items: seq<Item>, index: nat)
    requires index < |items|
    ensures Total(RemoveAt(items, index)) == Total(items) - items[index].amount
  {
    var a, x, b := items[..index], items[index], items[index + 1..];
    assert items == a + ([x] + b);
    assert RemoveAt(items, index) == a + b;
    TotalConcat(a, [x] + b);
    TotalConcat([x], b);
    TotalSingle(x);
    TotalConcat(a, b);
  }

  /** Replacing the item at `index` changes the total by the change in its amount. */
  lemma TotalReplace(items: seq<Item>, index: nat, y: Item)
    requires index < |items|
    ensures Total(items[index := y]) == Total(items) - items[index].amount + y.amount
  {
    var a, x, b := items[..index], items[index], items[index + 1..];
    assert items == a + ([x] + b);
    assert items[index := y] == a + ([y] + b);
    TotalConcat(a, [x] + b);
    TotalConcat([x], b);
    TotalSingle(x);
    TotalConcat(a, [y] + b);
    TotalConcat([y], b);
    TotalSingle(y);
  }

  /**
   * `formData.items.filter((_, i) => i !== index)`: every item but the one at
   * `index`, in order; an index outside the list keeps every item.
   */
  function RemoveAt(items: seq<Item>, index: int): (r: seq<Item>)
    ensures 0 <= index < |items| ==> |r| == |items| - 1
    ensures 0 <= index < |items| ==> forall j :: 0 <= j < |r| ==> r[j] == if j < index then items[j] else items[j + 1]
    ensures !(0 <= index < |items|) ==> r == items
  {
    if 0 <= index < |items| then items[..index] + items[index + 1..] else items
  }

  /** The field an `updateItemAmount` call writes, with the value written. */
  datatype Field = Description(text: string) | Quantity(q: real) | UnitPrice(p: real) | Amount(a: real)

  /**
   * The item after `updateItemAmount` writes one field: a new quantity or
   * unit price also sets the amount to their product; any other field
   * leaves the amount as it was unless it is the amount itself.
   */
  function EditItem(item: Item, f: Field): (r: Item)
    ensures r.id == item.id
    ensures f.Quantity? || f.UnitPrice? ==> r.amount == r.quantity * r.unitPrice
    ensures r.description == if f.Description? then f.text else item.description
    ensures r.quantity == if f.Quantity? then f.q else item.quantity
    ensures r.unitPrice == if f.UnitPrice? then f.p else item.unitPrice
    ensures f.Description? ==> r.amount == item.amount
    ensures f.Amount? ==> r.amount == f.a
  {
    match f
    case Description(text) => item.(description := text)
    case Amount(a) => item.(amount := a)
    case Quantity(q) => item.(quantity := q, amount := q * item.unitPrice)
    case UnitPrice(p) => item.(unitPrice := p, amount := item.quantity * p)
  }

  /** The errors `handleSubmit` reports, in the order it checks for them. */
  const Errors := [
    "Invoice number is required",
    "Client name is required",
    "Client email is required",
    "Issue date is required",
    "Due date is required",
    "At least one valid item is required"]

  /** An item survives submission: a description that is not blank, and a positive quantity and unit price. */
  predicate ValidItem(item: Item)
  {
    Trim(item.description) != [] && item.quantity > 0.0 && item.unitPrice > 0.0
  }

  function ValidItems(items: seq<Item>): (r: seq<Item>)
    ensures forall x :: x in r <==> x in items && ValidItem(x)
  {
    Filter(ValidItem, items)
  }

  /** Check `k` of the six that `handleSubmit` makes, in order. */
  predicate Passes(data: FormData, k: nat)
    requires k < |Errors|
  {
    match k
    case 0 => Trim(data.invoiceNumber) != []
    case 1 => Trim(data.clientName) != []
    case 2 => Trim(data.clientEmail) != []
    case 3 => data.issueDate != []
    case 4 => data.dueDate != []
    case _ => ValidItems(data.items) != []
  }

  /** What submitting does: report one error, or hand the data to `onSave`. */
  datatype Submission = Rejected(error: string) | Saved(data: FormData)

  /** `handleSubmit`: each check in turn, then the form data with only its valid items. */
  function Submit(data: FormData): (r: Submission)
    ensures r.Saved? ==> r.data == data.(items := ValidItems(data.items)) && r.data.items != []
  {
    if Trim(data.invoiceNumber) == [] then Rejected(Errors[0])
    else if Trim(data.clientName) == [] then Rejected(Errors[1])
    else if Trim(data.clientEmail) == [] then Rejected(Errors[2])
    else if data.issueDate == [] then Rejected(Errors[3])
    else if data.dueDate == [] then Rejected(Errors[4])
    else
      var valid := ValidItems(data.items);
      if valid == [] then Rejected(Errors[5]) else Saved(data.(items := valid))
  }

  /**
   * Submitting saves exactly when all six checks pass; otherwise it reports
   * the error of the first check that fails, and `onSave` is not called.
   */
  lemma SubmitReportsFirstFailure(data: FormData)
    ensures Submit(data).Saved? <==> forall k :: 0 <= k < |Errors| ==> Passes(data, k)
    ensures Submit(data).Rejected? ==>
      exists k :: 0 <= k < |Errors| && !Passes(data, k) && Submit(data).error == Errors[k]
                  && forall j :: 0 <= j < k ==> Passes(data, j)
  {
    var r := Submit(data);
    if !Passes(data, 0) {
      assert r.error == Errors[0];
    } else if !Passes(data, 1) {
      assert r.error == Errors[1];
    } else if !Passes(data, 2) {
      assert r.error == Errors[2];
    } else if !Passes(data, 3) {
      assert r.error == Errors[3];
    } else if !Passes(data, 4) {
      assert r.error == Errors[4];
    } else if !Passes(data, 5) {
      assert r.error == Errors[5];
    } else {
      forall k | 0 <= k < |Errors| ensures Passes(data, k) {
        assert k < 6;
      }
    }
  }

  /** A blank invoice number is reported first, whatever else is wrong. */
  lemma BlankNumberReportedFirst(data: FormData)
    requires AllSpace(data.invoiceNumber)
    ensures Submit(data) == Rejected("Invoice number is required")
  {
    TrimEmptyIff(data.invoiceNumber);
  }

  /** The blank item is never valid, so items added and left untouched are dropped on submit. */
  lemma BlankItemsDropped(items: seq<Item>, n: nat)
    ensures ValidItems(items + seq(n, _ => BlankItem)) == ValidItems(items)
  {
    var blanks := seq(n, _ => BlankItem);
    FilterAppend(ValidItem, items, blanks);
    FilterNone(ValidItem, blanks);
  }

  /** When every item is valid and the fields are filled in, submitting keeps the data as it is. */
  lemma ValidItemsKept(data: FormData)
    requires forall k :: 0 <= k < 5 ==> Passes(data, k)
    requires data.items != [] && forall i :: 0 <= i < |data.items| ==> ValidItem(data.items[i])
    ensures Submit(data) == Saved(data)
  {
    FilterAll(ValidItem, data.items);
    assert Passes(data, 0) && Passes(data, 1) && Passes(data, 2) && Passes(data, 3) && Passes(data, 4);
  }

  /** The fields of an `InvoiceItem` as they come from a stored invoice, any of them missing. */
  datatype StoredItem = StoredItem(
    id: Option<string>,
    description: Option<string>,
    quantity: Option<real>,
    unitPrice: Option<real>,
    amount: Option<real>)

  /** A stored invoice passed in for editing, any field missing. */
  datatype Invoice = Invoice(
    invoiceNumber: Option<string>,
    clientName: Option<string>,
    clientEmail: Option<string>,
    issueDate: Option<string>,
    dueDate: Option<string>,
    status: Option<Status>,
    notes: Option<string>,
    items: Option<seq<StoredItem>>)

  /** `x || d` on a string: a missing or empty value gives `d`. */
  function StringOr(x: Option<string>, d: string): string
  {
    if x.Some? && x.value != "" then x.value else d
  }

  /** `x || d` on a number: a missing or zero value gives `d`. */
  function NumberOr(x: Option<real>, d: real): real
  {
    if x.Some? && x.value != 0.0 then x.value else d
  }

  /** `x ? dateOnly(x) : ''`, where `dateOnly` is `new Date(x).toISOString().split('T')[0]`. */
  function DateField(x: Option<string>, dateOnly: string -> string): string
  {
    if x.Some? && x.value != "" then dateOnly(x.value) else ""
  }

  /** One stored item as the form holds it. */
  function LoadItem(s: StoredItem): (r: Item)
    ensures r.id == s.id
    ensures r.quantity != 0.0
    ensures s.quantity.Some? && s.quantity.value != 0.0 ==> r.quantity == s.quantity.value
    ensures !(s.quantity.Some? && s.quantity.value != 0.0) ==> r.quantity == 1.0
    ensures r.description == if s.description.Some? && s.description.value != "" then s.description.value else ""
    ensures s.unitPrice.Some? ==> r.unitPrice == s.unitPrice.value
    ensures s.amount.Some? ==> r.amount == s.amount.value
    ensures s.unitPrice.None? ==> r.unitPrice == 0.0
    ensures s.amount.None? ==> r.amount == 0.0
  {
    Item(s.id, StringOr(s.description, ""), NumberOr(s.quantity, 1.0), NumberOr(s.unitPrice, 0.0), NumberOr(s.amount, 0.0))
  }

  /**
   * The form data for editing a stored invoice: missing text becomes "",
   * dates keep their day part, the status defaults to draft, and an invoice
   * without items gets the blank item.
   */
  function FromInvoice(inv: Invoice, dateOnly: string -> string): (r: FormData)
    ensures |r.items| >= 1
    ensures inv.items.Some? && inv.items.value != [] ==>
      |r.items| == |inv.items.value| && forall i :: 0 <= i < |r.items| ==> r.items[i] == LoadItem(inv.items.value[i])
    ensures !(inv.items.Some? && inv.items.value != []) ==> r.items == [BlankItem]
    ensures r.status == if inv.status.Some? then inv.status.value else Draft
    ensures inv.invoiceNumber.Some? && inv.invoiceNumber.value != "" ==> r.invoiceNumber == inv.invoiceNumber.value
    ensures r.invoiceNumber == "" <==> inv.invoiceNumber.None? || inv.invoiceNumber.value == ""
    ensures inv.clientName.Some? && inv.clientName.value != "" ==> r.clientName == inv.clientName.value
    ensures r.clientName == "" <==> inv.clientName.None? || inv.clientName.value == ""
    ensures inv.clientEmail.Some? && inv.clientEmail.value != "" ==> r.clientEmail == inv.clientEmail.value
    ensures r.clientEmail == "" <==> inv.clientEmail.None? || inv.clientEmail.value == ""
    ensures inv.notes.Some? && inv.notes.value != "" ==> r.notes == inv.notes.value
    ensures r.notes == "" <==> inv.notes.None? || inv.notes.value == ""
    ensures inv.issueDate.Some? && inv.issueDate.value != "" ==> r.issueDate == dateOnly(inv.issueDate.value)
    ensures inv.issueDate.None? || inv.issueDate.value == "" ==> r.issueDate == ""
    ensures inv.dueDate.Some? && inv.dueDate.value != "" ==> r.dueDate == dateOnly(inv.dueDate.value)
    ensures inv.dueDate.None? || inv.dueDate.value == "" ==> r.dueDate == ""
  {
    FormData(
      StringOr(inv.invoiceNumber, ""),
      StringOr(inv.clientName, ""),
      StringOr(inv.clientEmail, ""),
      DateField(inv.issueDate, dateOnly),
      DateField(inv.dueDate, dateOnly),
      if inv.status.Some? then inv.status.value else Draft,
      StringOr(inv.notes, ""),
      if inv.items.Some? && |inv.items.value| > 0 then seq(|inv.items.value|, i requires 0 <= i < |inv.items.value| => LoadItem(inv.items.value[i]))
      else [BlankItem])
  }

  /** No loaded item has a zero quantity, and a loaded invoice keeps the ids of its items. */
  lemma LoadedItems(inv: Invoice, dateOnly: string -> string)
    requires inv.items.Some?
    ensures var r := FromInvoice(inv, dateOnly);
      && (forall x :: x in r.items ==> x.quantity != 0.0)
      && (forall i :: 0 <= i < |inv.items.value| ==> r.items[i].id == inv.items.value[i].id)
  {
    var r := FromInvoice(inv, dateOnly);
    forall x | x in r.items ensures x.quantity != 0.0 {
      var i :| 0 <= i < |r.items| && r.items[i] == x;
      if inv.items.value == [] {
        assert x == BlankItem;
      }
    }
  }

  /**
   * The form component's state. Every handler replaces `formData`; the item
   * list is never left empty.
   */
  class Form {
    var formData: FormData

    ghost predicate Valid()
      reads this
    {
      |formData.items| >= 1
    }

    /** The `total` shown under the items. */
    function CurrentTotal(): real
      reads this
    {
      Total(formData.items)
    }

    /** `useState` with the blank form. */
    constructor()
      ensures formData == Blank && Valid()
    {
      formData := Blank;
    }

    /** The effect that loads an invoice passed in for editing. */
    method Load(inv: Invoice, dateOnly: string -> string)
      modifies this
      ensures formData == FromInvoice(inv, dateOnly)
      ensures Valid()
    {
      formData := FromInvoice(inv, dateOnly);
    }

    /** `addItem`: append the blank item; the total does not change. */
    method AddItem()
      requires Valid()
      modifies this
      ensures Valid()
      ensures formData == old(formData).(items := old(formData.items) + [BlankItem])
      ensures CurrentTotal() == old(CurrentTotal())
    {
      TotalConcat(formData.items, [BlankItem]);
      formData := formData.(items := formData.items + [BlankItem]);
    }

    /**
     * `removeItem`: drop the item at `index` unless it is the only one; the
     * total loses that item's amount.
     */
    method RemoveItem(index: int)
      requires Valid()
      modifies this
      ensures Valid()
      ensures formData == if |old(formData.items)| > 1 then old(formData).(items := RemoveAt(old(formData.items), index))
                          else old(formData)
      ensures |old(formData.items)| > 1 && 0 <= index < |old(formData.items)| ==>
                CurrentTotal() == old(CurrentTotal()) - old(formData.items[index].amount)
    {
      if |formData.items| > 1 {
        if 0 <= index < |formData.items| {
          TotalRemove(formData.items, index);
        }
        formData := formData.(items := RemoveAt(formData.items, index));
      }
    }

    /**
     * `updateItemAmount`: copy the items, write the field of item `index`,
     * recompute its amount when the quantity or the unit price changed, and
     * store the copy. No other item changes, and the total moves by the
     * change in that item's amount.
     */
    method UpdateItemAmount(index: nat, f: Field)
      requires Valid() && index < |formData.items|
      modifies this
      ensures Valid()
      ensures formData == old(formData).(items := old(formData.items)[index := EditItem(old(formData.items[index]), f)])
      ensures CurrentTotal() == old(CurrentTotal()) - old(formData.items[index].amount) + formData.items[index].amount
    {
      var newItems := formData.items;
      var original := newItems[index];
      var item := original;
      match f {
        case Description(text) => item := item.(description := text);
        case Amount(a) => item := item.(amount := a);
        case Quantity(q) => item := item.(quantity := q);
        case UnitPrice(p) => item := item.(unitPrice := p);
      }
      if f.Quantity? || f.UnitPrice? {
        var quantity := if f.Quantity? then f.q else item.quantity;
        var unitPrice := if f.UnitPrice? then f.p else item.unitPrice;
        item := item.(amount := quantity * unitPrice);
      }
      assert item == EditItem(original, f);
      newItems := newItems[index := item];
      TotalReplace(formData.items, index, item);
      formData := formData.(items := newItems);
    }
  }
}
