/** The product-management screen as a state container: the product list,
    whether the form is shown, the record being edited and the values held
    by the form. Each handler is a method that replaces this state the way
    the screen's state setters do, using the list functions of Products. */
module ProductScreen {
  import opened Products

  /** Which form the screen shows: none, the add form or the edit form of a
      record. */
  datatype FormMode = Hidden | Adding | Editing(target: Product)

  class ListProduct {
    var products: seq<Product>
    var showAddForm: bool
    var editingProduct: Option<Product>
    /** The values currently held by the form widget. */
    var fields: FormValues

    /** The form the screen renders: shown only while `showAddForm` is set,
        and in edit mode exactly when there is an editing target. */
    function Mode(): (m: FormMode)
      reads this
      ensures m == Hidden <==> !showAddForm
      ensures m == Adding <==> showAddForm && editingProduct == None
      ensures m.Editing? <==> showAddForm && editingProduct.Some?
      ensures m.Editing? ==> editingProduct == Some(m.target)
    {
      if !showAddForm then Hidden
      else match editingProduct
        case None => Adding
        case Some(p) => Editing(p)
    }

    /** A fresh screen: the list read back from storage (`stored`, None when
        nothing was saved), the form hidden, nothing being edited. */
    constructor (stored: Option<seq<Product>>)
      ensures products == (if stored.Some? then stored.value else [])
      ensures !showAddForm && editingProduct == None && fields == InitialValues
      ensures Mode() == Hidden
    {
      products := if stored.Some? then stored.value else [];
      showAddForm := false;
      editingProduct := None;
      fields := InitialValues;
    }

    /** The user fills in the fields of the shown form. */
    method EnterValues(values: FormValues)
      requires showAddForm
      modifies this
      ensures fields == values
      ensures products == old(products) && showAddForm == old(showAddForm)
      ensures editingProduct == old(editingProduct)
    {
      fields := values;
    }

    /** Appends a new record with a fresh id built from valid form values,
        then resets and closes the form. */
    method AddProduct(values: FormValues)
      requires Valid(values)
      modifies this
      ensures products == Add(old(products), values)
      ensures |products| == |old(products)| + 1 && products[..|old(products)|] == old(products)
      ensures products[|old(products)|].id == NextId(old(products))
      ensures forall i :: 0 <= i < |old(products)| ==> old(products)[i].id < products[|old(products)|].id
      ensures UniqueIds(old(products)) ==> UniqueIds(products)
      ensures !showAddForm && fields == InitialValues
      ensures editingProduct == old(editingProduct)
    {
      var product := Product(NextId(products), values.name.value, values.price.value, StatusOf(values.status));
      products := products + [product];
      fields := InitialValues;
      showAddForm := false;
      if UniqueIds(old(products)) {
        AddPreservesUniqueIds(old(products), values);
      }
    }

    /** Picks a record for editing: remembers it, pre-fills the form with its
        values and opens the form in edit mode. */
    method EditProduct(product: Product)
      modifies this
      ensures editingProduct == Some(product)
      ensures fields == Prefill(product)
      ensures showAddForm
      ensures Mode() == Editing(product)
      ensures products == old(products)
    {
      editingProduct := Some(product);
      fields := Prefill(product);
      showAddForm := true;
    }

    /** Rewrites every record that carries the editing target's id with valid
        form values, keeping its id and position, then clears the target and
        resets and closes the form. Without an editing target it does nothing. */
    method UpdateProduct(values: FormValues)
      requires Valid(values)
      modifies this
      ensures old(editingProduct).None? ==> unchanged(this)
      ensures old(editingProduct).Some? ==>
        && products == Update(old(products), old(editingProduct).value, values)
        && editingProduct == None && !showAddForm && fields == InitialValues
        && Mode() == Hidden
      ensures |products| == |old(products)|
      ensures forall i :: 0 <= i < |products| ==> products[i].id == old(products)[i].id
      ensures UniqueIds(old(products)) ==> UniqueIds(products)
    {
      if editingProduct.Some? {
        var target := editingProduct.value;
        products := Update(products, target, values);
        editingProduct := None;
        fields := InitialValues;
        showAddForm := false;
        if UniqueIds(old(products)) {
          UpdatePreservesUniqueIds(old(products), target, values);
        }
      }
    }

    /** Removes every record with the given id, whatever the form shows. */
    method DeleteProduct(id: int)
      modifies this
      ensures products == Delete(old(products), id)
      ensures forall p :: p in products <==> p in old(products) && p.id != id
      ensures UniqueIds(old(products)) ==> UniqueIds(products)
      ensures showAddForm == old(showAddForm) && editingProduct == old(editingProduct)
      ensures fields == old(fields)
    {
      products := Delete(products, id);
      if UniqueIds(old(products)) {
        DeletePreservesUniqueIds(old(products), id);
      }
    }

    /** Closes the form, clears the editing target and resets the form. */
    method Cancel()
      modifies this
      ensures !showAddForm && editingProduct == None && fields == InitialValues
      ensures Mode() == Hidden
      ensures products == old(products)
    {
      showAddForm := false;
      editingProduct := None;
      fields := InitialValues;
    }

    /** The "new product" button: shows the form if it is hidden and hides it
        if it is shown. The editing target and the form's values are kept. */
    method ToggleAddForm()
      modifies this
      ensures showAddForm == !old(showAddForm)
      ensures editingProduct == old(editingProduct) && fields == old(fields)
      ensures products == old(products)
    {
      showAddForm := !showAddForm;
    }

    /** Submits the shown form. Values that break the form's rules are
        rejected and nothing changes; valid ones go to the update handler
        when a record is being edited and to the add handler otherwise. */
    method Submit() returns (accepted: bool)
      requires showAddForm
      modifies this
      ensures accepted == Valid(old(fields))
      ensures !accepted ==> unchanged(this)
      ensures accepted && old(editingProduct).None? ==> products == Add(old(products), old(fields))
      ensures accepted && old(editingProduct).Some? ==>
        products == Update(old(products), old(editingProduct).value, old(fields))
      ensures accepted ==> Mode() == Hidden && editingProduct == None && fields == InitialValues
      ensures UniqueIds(old(products)) ==> UniqueIds(products)
    {
      accepted := Valid(fields);
      if accepted {
        if editingProduct.Some? {
          UpdateProduct(fields);
        } else {
          AddProduct(fields);
        }
      }
    }
  }

  /** An add on an empty list gets id 1; the switch left at its initial
      position gives an available product. */
  method ScenarioFirstAdd()
  {
    var screen := new ListProduct(None);
    screen.ToggleAddForm();
    assert screen.Mode() == Adding;
    screen.EnterValues(FormValues(Some("Ao thun"), Some(150000), screen.fields.status));
    var ok := screen.Submit();
    assert ok;
    assert screen.products == [Product(1, "Ao thun", 150000, Available)];
  }

  /** With ids 1 and 3 present the next add gets id 4. */
  method ScenarioAddAfterGap()
  {
    var a, b := Product(1, "A", 10, Available), Product(3, "B", 20, Available);
    var shop := new ListProduct(Some([a, b]));
    shop.ToggleAddForm();
    shop.EnterValues(FormValues(Some("C"), Some(30), None));
    var ok := shop.Submit();
    assert ok;
    assert shop.products == [a, b, Product(4, "C", 30, Unavailable)];
  }

  /** Editing a record changes only that record, at its position. */
  method ScenarioEdit()
  {
    var a, b := Product(1, "A", 10, Available), Product(2, "B", 20, Available);
    var shop := new ListProduct(Some([a, b]));
    shop.EditProduct(b);
    shop.EnterValues(FormValues(Some("B"), Some(20), Some(false)));
    var ok := shop.Submit();
    assert ok;
    assert shop.products[0] == a;
    assert shop.products == [a, Product(2, "B", 20, Unavailable)];
  }

  /** Deleting id 1 leaves the other record; an invalid submit changes nothing. */
  method ScenarioDeleteAndReject()
  {
    var a, b := Product(1, "A", 10, Available), Product(2, "B", 20, Available);
    var shop := new ListProduct(Some([a, b]));
    shop.DeleteProduct(1);
    assert Delete([a], 1) == [];
    DeleteAppend([a], [b], 1);
    assert [a] + [b] == [a, b];
    assert shop.products == [b];
    shop.ToggleAddForm();
    shop.EnterValues(FormValues(Some(""), Some(5), Some(true)));
    var ok := shop.Submit();
    assert !ok && shop.Mode() == Adding && shop.products == [b];
  }
}
