# Product listing screen — a Dafny model

This project models the logic of the product-management screen `ListProduct`.
The screen keeps a list of products. Each product has an `id`, a `name`, a
`price` and a `status` that is either available or unavailable. The screen
also keeps two pieces of form state: whether the form is shown
(`showAddForm`), and which record is being edited (`editingProduct`).
Its handlers add, edit, update and delete products, cancel the form and
toggle it.

The model has two modules:

- `Products` (`products.dfy`) holds the records and the pure list
  transformations the handlers build:
  - the fresh-id rule `max(ids, 0) + 1` (`MaxId`, `NextId`);
  - append on add (`Add`);
  - replace-in-place on update (`Revise`, `Update`);
  - filter on delete (`Delete`).

  The form's validation rules are the predicate `Valid`: the name is
  required and non-empty, and the price is required and at least 1.
  `UniqueIds` says that no two records share an id. The lemmas prove the
  following:
  - each operation preserves unique ids;
  - a delete yields exactly the records at the kept positions, in their order;
  - deleting an absent id is the identity, and only then;
  - delete is idempotent and distributes over concatenation;
  - submitting an edit form left unchanged gives back the same list.
- `ProductScreen` (`list_product.dfy`) holds the class `ListProduct`. Its
  fields are `products`, `showAddForm`, `editingProduct` and `fields`, the
  values held by the form widget. It has one method per handler, plus
  `ToggleAddForm` for the "new product" button and `Submit` for the form's
  submit dispatch. `Submit` runs the validation rules, then calls the
  update handler when a record is being edited and the add handler
  otherwise. `Mode` reads the two form-state fields as a small state
  machine: hidden, adding, or editing a record. A few client methods
  (`Scenario…`) script concrete sequences of handler calls whose outcomes
  are asserted and verified: the first add gets id 1 and is available by
  default, ids 1 and 3 give next id 4, an edit changes only its record, a
  delete by id, and an invalid submit.

The constant `InitialValues` is what the form holds when it is created and
after every reset (lines 63, 91 and 105): no name, no price, and the
availability switch on, its initial value at line 247. `DefaultStatusAvailable`
proves that this default gives an available product, and `ResetFormRejected`
that a form in this state does not pass the validation rules.

Behaviour of the code that the model keeps:

- The id rule reuses an id. Suppose the record with the largest id is
  deleted. The next add then receives that same id again. The model
  follows the code, so no "ids are never reused" property is stated.
- Records whose id is 0 or negative count as 0 in the maximum, so the first
  id handed out is always at least 1.
- Hiding the form with the toggle keeps `editingProduct` and the form's
  values. Pressing the toggle again reopens the form in edit mode, not in
  add mode.
- A record can be deleted while it is the editing target. The target stays
  set, and a later update then rewrites no record, but it still closes the
  form.
- When the stored list cannot be parsed, the code's `JSON.parse` throws.
  It does not fall back to an empty list. The constructor therefore takes
  the already parsed list, or None when nothing was stored.

## Model

| member | source | states |
|---|---|---|
| `Products.StatusOf` | src/components/ListProduct.tsx:60 | a switch that is on gives available; a switch that is off or absent gives unavailable (the same mapping is used at line 86) |
| `Products.Prefill` | src/components/ListProduct.tsx:70-74 | the edit form is pre-filled with the record's name and price, and its switch position maps back to the record's own status |
| `Products.Valid` | src/components/ListProduct.tsx:217-233 | values pass the form rules only when the name is present and non-empty and the price is present and at least 1 |
| `Products.DefaultStatusAvailable` | src/components/ListProduct.tsx:243-253 | the switch's initial value is on, and an untouched switch maps to available |
| `Products.ResetFormRejected` | src/components/ListProduct.tsx:217-233 | a freshly created or reset form, with no name and no price, fails the rules |
| `Products.MaxId` | src/components/ListProduct.tsx:57 | the result is at least 0 and at least every id in the list; it is 0 or some record's id |
| `Products.NextId` | src/components/ListProduct.tsx:57 | the new id is at least 1 and greater than every id present; it is 1 or one more than some id present, so it equals max(ids, 0) + 1 |
| `Products.Add` | src/components/ListProduct.tsx:55-62 | the length grows by one and the first n records are the old list; the last record has the fresh id, the submitted name and price, and the status of the switch |
| `Products.Revise` | src/components/ListProduct.tsx:82-87 | the rewritten record keeps the editing target's id and carries the submitted name, price and status |
| `Products.Update` | src/components/ListProduct.tsx:80-89 | length and order are kept; every record with another id is unchanged; every record with the target's id becomes the revised target |
| `Products.Delete` | src/components/ListProduct.tsx:98 | a record is in the result exactly when it was in the list and its id differs from the deleted one |
| `Products.DeleteCounts` | src/components/ListProduct.tsx:98 | each record with another id occurs as often as before; records with the deleted id occur zero times |
| `Products.DeleteIsSubsequence` | src/components/ListProduct.tsx:98 | the result is the list read at the increasing positions of the records with another id, in order (`KeptIndices`) |
| `Products.DeleteAbsent` | src/components/ListProduct.tsx:98 | a delete leaves the list unchanged if and only if no record has that id |
| `Products.DeleteIdempotent` | src/components/ListProduct.tsx:98 | deleting the same id twice gives the same list as deleting it once |
| `Products.DeleteAppend` | src/components/ListProduct.tsx:98 | deleting from a concatenation equals concatenating the two deletes, so records keep their relative order |
| `Products.AddPreservesUniqueIds` | src/components/ListProduct.tsx:57-62 | if the ids are distinct before an add, they are distinct after it |
| `Products.UpdatePreservesUniqueIds` | src/components/ListProduct.tsx:80-89 | if the ids are distinct before an update, they are distinct after it |
| `Products.DeletePreservesUniqueIds` | src/components/ListProduct.tsx:98 | if the ids are distinct before a delete, they are distinct after it |
| `Products.EditRoundTrip` | src/components/ListProduct.tsx:68-89 | the ids are unique and the record passes the form rules; editing it and submitting the pre-filled values unchanged then gives back the same list |
| `ProductScreen.ListProduct.Mode` | src/components/ListProduct.tsx:207-213 | the form is hidden exactly when `showAddForm` is off; when shown it is the add form without an editing target and the edit form of that target otherwise, which decides the submit handler |
| `ProductScreen.ListProduct.constructor` | src/components/ListProduct.tsx:38-49 | the list is the stored one, or empty when nothing was stored; the form is hidden; no record is being edited |
| `ProductScreen.ListProduct.EnterValues` | src/components/ListProduct.tsx:207-254 | values can be entered only while the form is shown; the form then holds them, and the list and the form flags are unchanged |
| `ProductScreen.ListProduct.AddProduct` | src/components/ListProduct.tsx:55-66 | the list becomes `Add` of the old list, so the new last record's id exceeds every old id; unique ids are kept; the form is reset and closed |
| `ProductScreen.ListProduct.EditProduct` | src/components/ListProduct.tsx:68-76 | the record becomes the editing target; the form is pre-filled with it and opened in edit mode; the list is unchanged |
| `ProductScreen.ListProduct.UpdateProduct` | src/components/ListProduct.tsx:78-95 | with no editing target nothing changes; otherwise the list becomes `Update` of the old list, keeping length and ids by position, and the target is cleared and the form reset and closed |
| `ProductScreen.ListProduct.DeleteProduct` | src/components/ListProduct.tsx:97-100 | the list becomes `Delete` of the old list; unique ids are kept; the form state is unchanged |
| `ProductScreen.ListProduct.Cancel` | src/components/ListProduct.tsx:102-106 | the form is closed and reset and the editing target is cleared; the list is unchanged |
| `ProductScreen.ListProduct.ToggleAddForm` | src/components/ListProduct.tsx:200 | `showAddForm` flips; the editing target, the form values and the list are unchanged |
| `ProductScreen.ListProduct.Submit` | src/components/ListProduct.tsx:210-233 | the form is accepted exactly when its values pass the rules, and a rejected submit changes nothing; an accepted one adds when no record is being edited and updates otherwise, then closes the form and clears the target |

## Left out

- The browser storage of the list is not modelled. The screen loads the
  list at start-up (lines 38-41) and writes it back after every change
  (lines 43-45), using JSON serialisation. This is browser I/O plus a
  library parser. The constructor takes the already parsed list instead,
  and the write-back is not modelled, because it would only mirror
  `products`.
- `formatPrice` (lines 51-53) is not modelled, because it relies on the
  platform's locale number formatting.
- The success notifications, the delete confirmation dialog, the table
  columns, the pagination settings and all other markup (lines 108-302)
  are not modelled. They are presentation only. The confirmation dialog
  only decides whether `DeleteProduct` is called at all.
- The form library's validation engine is not modelled. Only its outcome
  is, as the predicate `Valid`.
- `EnterValues` stands for the user typing into the form widget, in one
  step. The widget's own field-by-field behaviour is not modelled.
- Prices and ids are unbounded integers. The source uses JavaScript
  numbers, which are floating point. Nothing in the source computes with
  the price apart from the `>= 1` rule. Fractional or NaN ids, and the
  engine's limit on spread arguments in `Math.max`, are not modelled.
- NextId, AddPreservesUniqueIds: hold for unbounded integers only. With
  floating-point ids, once the largest id reaches 2^53 the sum
  `Math.max(...) + 1` at line 57 rounds back to that same id. From there
  on, the source's new id is not greater than every id present, and an add
  can duplicate an id.
- Submitting is only possible while the form is shown, because the form is
  rendered only then (line 207). `Submit` therefore requires
  `showAddForm`.
