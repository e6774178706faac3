/**
 * The create, get-by-id, update and delete handlers of the expense controller, over a
 * document store modelled as a map from record id to record. Form fields stay the strings
 * the multipart body carries; casting them is the schema's business.
 */
module ExpenseHandlers {
  import opened Options

  type Id = string

  /** One stored expense document; `None` is a field that is unset or null. */
  datatype Expense = Expense(
    id: Id,
    description: Option<string>,
    category: Option<string>,
    amount: Option<string>,
    expenseDate: Option<string>,
    paymentMethod: Option<string>,
    receipt: Option<string>,
    notes: Option<string>)

  /** The fields of a request body; `None` is a field the client did not send. */
  datatype Body = Body(
    description: Option<string>,
    category: Option<string>,
    amount: Option<string>,
    expenseDate: Option<string>,
    paymentMethod: Option<string>,
    receipt: Option<string>,
    notes: Option<string>)

  /** The uploaded file as the upload middleware describes it. */
  datatype Upload = Upload(originalname: string)

  /** A handler's outcome: the 200/201 payload, a 404, or a 500. */
  datatype Result<T> = Ok(value: T) | NotFound | Failed

  /** The receipt path recorded for an uploaded file. */
  function UploadPath(file: Upload): (p: string)
    ensures |p| == 9 + |file.originalname| && p[..9] == "/uploads/" && p[9..] == file.originalname
  {
    "/uploads/" + file.originalname
  }

  /** The receipt of a new record: the upload's path when a file came with the form, null otherwise. */
  function NewReceipt(file: Option<Upload>): (r: Option<string>)
    ensures r.None? <==> file.None?
    ensures file.Some? ==> r == Some(UploadPath(file.value)) && Truthy(r)
  {
    match file
    case Some(f) => Some(UploadPath(f))
    case None => None
  }

  /** The record the create handler builds from the body and the optional file. */
  function NewRecord(id: Id, body: Body, file: Option<Upload>): (e: Expense)
    ensures e.id == id
    ensures e.description == body.description && e.category == body.category
    ensures e.amount == body.amount && e.expenseDate == body.expenseDate
    ensures e.paymentMethod == body.paymentMethod && e.notes == body.notes
    ensures e.receipt == NewReceipt(file)
  {
    Expense(id, body.description, body.category, body.amount, body.expenseDate,
            body.paymentMethod, NewReceipt(file), body.notes)
  }

  /** `findByIdAndUpdate`: every field present in `data` is set, every other field is kept. */
  function ApplyUpdate(e: Expense, data: Body): (r: Expense)
    ensures r.id == e.id
    ensures data.description.Some? ==> r.description == data.description
    ensures data.description.None? ==> r.description == e.description
    ensures data.category.Some? ==> r.category == data.category
    ensures data.category.None? ==> r.category == e.category
    ensures data.amount.Some? ==> r.amount == data.amount
    ensures data.amount.None? ==> r.amount == e.amount
    ensures data.expenseDate.Some? ==> r.expenseDate == data.expenseDate
    ensures data.expenseDate.None? ==> r.expenseDate == e.expenseDate
    ensures data.paymentMethod.Some? ==> r.paymentMethod == data.paymentMethod
    ensures data.paymentMethod.None? ==> r.paymentMethod == e.paymentMethod
    ensures data.receipt.Some? ==> r.receipt == data.receipt
    ensures data.receipt.None? ==> r.receipt == e.receipt
    ensures data.notes.Some? ==> r.notes == data.notes
    ensures data.notes.None? ==> r.notes == e.notes
  {
    Expense(e.id, data.description.Or(e.description), data.category.Or(e.category),
            data.amount.Or(e.amount), data.expenseDate.Or(e.expenseDate),
            data.paymentMethod.Or(e.paymentMethod), data.receipt.Or(e.receipt),
            data.notes.Or(e.notes))
  }

  /** The update handler's data: the body, with the receipt overridden by the upload or by the existing receipt. */
  function UpdateData(existing: Expense, body: Body, file: Option<Upload>): Body {
    if file.Some? then body.(receipt := Some(UploadPath(file.value)))
    else if Truthy(existing.receipt) then body.(receipt := existing.receipt)
    else body
  }

  /** The record the update handler stores. */
  function Updated(existing: Expense, body: Body, file: Option<Upload>): (r: Expense)
    ensures r.id == existing.id
    // A supplied file sets the receipt to its upload path.
    ensures file.Some? ==> r.receipt == Some(UploadPath(file.value))
    // Without a file an existing receipt is kept, whatever the body says.
    ensures file.None? && Truthy(existing.receipt) ==> r.receipt == existing.receipt
    // Without a file or an existing receipt, a receipt field in the body is taken as sent.
    ensures file.None? && !Truthy(existing.receipt) ==>
              r.receipt == (if body.receipt.Some? then body.receipt else existing.receipt)
    // Every other body field passes through; fields absent from the body are kept.
    ensures r.description == body.description.Or(existing.description)
    ensures r.category == body.category.Or(existing.category)
    ensures r.amount == body.amount.Or(existing.amount)
    ensures r.expenseDate == body.expenseDate.Or(existing.expenseDate)
    ensures r.paymentMethod == body.paymentMethod.Or(existing.paymentMethod)
    ensures r.notes == body.notes.Or(existing.notes)
  {
    ApplyUpdate(existing, UpdateData(existing, body, file))
  }

  /** Every record is stored under its own id. */
  ghost predicate WellKeyed(store: map<Id, Expense>) {
    forall k :: k in store ==> store[k].id == k
  }

  class ExpenseStore {
    var expenses: map<Id, Expense>

    ghost predicate Valid()
      reads this
    {
      WellKeyed(expenses)
    }

    constructor ()
      ensures Valid() && expenses == map[]
    {
      expenses := map[];
    }

    /**
     * `createExpense`: stores the new record under the id the object mapper generated.
     * An id already in use fails the insert (a duplicate key) and changes nothing.
     */
    method Create(id: Id, body: Body, file: Option<Upload>) returns (r: Result<Expense>)
      requires Valid()
      modifies this
      ensures Valid()
      ensures id in old(expenses) ==> r == Failed && expenses == old(expenses)
      ensures id !in old(expenses) ==>
                r == Ok(NewRecord(id, body, file)) && expenses == old(expenses)[id := r.value]
    {
      var receipt := if file.Some? then Some(UploadPath(file.value)) else None;
      var newExpense := Expense(id, body.description, body.category, body.amount,
                                body.expenseDate, body.paymentMethod, receipt, body.notes);
      if id in expenses {
        return Failed;
      }
      expenses := expenses[id := newExpense];
      r := Ok(newExpense);
    }

    /** `getExpenseById`: the record, or not-found. */
    method GetById(id: Id) returns (r: Result<Expense>)
      requires Valid()
      ensures r.NotFound? <==> id !in expenses
      ensures r.Ok? ==> r.value == expenses[id] && r.value.id == id
      ensures !r.Failed?
    {
      if id !in expenses {
        return NotFound;
      }
      r := Ok(expenses[id]);
    }

    /**
     * `updateExpense`: not-found leaves the store unchanged; otherwise only the record under
     * `id` changes, to the merge of the body and the receipt rule over the existing record.
     */
    method Update(id: Id, body: Body, file: Option<Upload>) returns (r: Result<Expense>)
      requires Valid()
      modifies this
      ensures Valid()
      ensures id !in old(expenses) ==> r == NotFound && expenses == old(expenses)
      ensures id in old(expenses) ==>
                && r == Ok(Updated(old(expenses)[id], body, file))
                && expenses == old(expenses)[id := r.value]
    {
      var updateData := body;
      if file.Some? {
        updateData := updateData.(receipt := Some(UploadPath(file.value)));
      }
      if id !in expenses {
        return NotFound;
      }
      var existingExpense := expenses[id];
      if file.None? && Truthy(existingExpense.receipt) {
        updateData := updateData.(receipt := existingExpense.receipt);
      }
      var updatedExpense := ApplyUpdate(existingExpense, updateData);
      expenses := expenses[id := updatedExpense];
      r := Ok(updatedExpense);
    }

    /** `deleteExpense`: not-found leaves the store unchanged; otherwise exactly `id` is removed. */
    method Delete(id: Id) returns (r: Result<()>)
      requires Valid()
      modifies this
      ensures Valid()
      ensures id !in old(expenses) ==> r == NotFound && expenses == old(expenses)
      ensures id in old(expenses) ==> r == Ok(()) && expenses == old(expenses) - {id}
    {
      if id !in expenses {
        return NotFound;
      }
      expenses := expenses - {id};
      r := Ok(());
    }
  }

  // ---------------------------------------------------------------------------------------
  // Properties of the record rules.

  /** A created record has a receipt exactly when a file was uploaded; a receipt in the body is ignored. */
  lemma CreateReceipt(id: Id, body: Body, file: Option<Upload>)
    ensures NewRecord(id, body, file).receipt.None? <==> file.None?
    ensures NewRecord(id, body, file) == NewRecord(id, body.(receipt := None), file)
  {
  }

  /** Repeating an update with the same body and file changes nothing more. */
  lemma UpdateIdempotent(e: Expense, body: Body, file: Option<Upload>)
    ensures Updated(Updated(e, body, file), body, file) == Updated(e, body, file)
  {
  }

  /** An update that sends nothing and uploads nothing leaves the record as it was. */
  lemma EmptyUpdate(e: Expense)
    ensures Updated(e, Body(None, None, None, None, None, None, None), None) == e
  {
  }

  /** Once set, a receipt survives any sequence of updates without a file. */
  lemma {:induction false} ReceiptSurvives(e: Expense, bodies: seq<Body>)
    requires Truthy(e.receipt)
    ensures UpdateAll(e, bodies).receipt == e.receipt
    decreases |bodies|
  {
    if bodies != [] {
      ReceiptSurvives(Updated(e, bodies[0], None), bodies[1..]);
    }
  }

  /** A sequence of updates without files, applied in order. */
  function UpdateAll(e: Expense, bodies: seq<Body>): (r: Expense)
    ensures r.id == e.id
    decreases |bodies|
  {
    if bodies == [] then e else UpdateAll(Updated(e, bodies[0], None), bodies[1..])
  }

  /** Create a record, read it back, delete it: afterwards it is not found. */
  method Lifecycle(store: ExpenseStore, id: Id, body: Body, file: Option<Upload>)
      returns (created: Result<Expense>, got: Result<Expense>, after: Result<Expense>)
    requires store.Valid() && id !in store.expenses
    modifies store
    ensures store.Valid() && store.expenses == old(store.expenses)
    ensures created == got == Ok(NewRecord(id, body, file))
    ensures after == NotFound
  {
    created := store.Create(id, body, file);
    got := store.GetById(id);
    var deleted := store.Delete(id);
    after := store.GetById(id);
  }

  /** Deleting twice: the second delete finds nothing and changes nothing. */
  method DeleteTwice(store: ExpenseStore, id: Id) returns (first: Result<()>, second: Result<()>)
    requires store.Valid()
    modifies store
    ensures store.Valid()
    ensures id in old(store.expenses) <==> first.Ok?
    ensures second == NotFound && store.expenses == old(store.expenses) - {id}
  {
    first := store.Delete(id);
    second := store.Delete(id);
  }
}
