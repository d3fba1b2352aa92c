/** The admin list: the product table with its edit and delete actions and
    the add/edit form. Its three pieces of state are the cached product list,
    the record being edited (if any) and whether the form is shown. */
module AdminPanel {
  import opened Sequences
  import opened Catalog

  /** The fields the form submits (its price is not modelled). */
  datatype FormValues = FormValues(
    title: string,
    description: string,
    imageUrl: string,
    externalUrl: string,
    category: string)

  /** The record an edit submits: the edited record with the form's title,
      description, image and category. */
  function Merge(editing: Product, form: FormValues): (edited: Product) {
    editing.(title := form.title, description := form.description,
             imageUrl := form.imageUrl, category := form.category)
  }

  /** An edit keeps the record's id and external link: a link typed into the
      form is discarded; the other four fields come from the form. */
  lemma MergeKeepsIdAndLink(editing: Product, form: FormValues, typedLink: string)
    ensures Merge(editing, form).id == editing.id
    ensures Merge(editing, form).externalUrl == editing.externalUrl
    ensures Merge(editing, form.(externalUrl := typedLink)) == Merge(editing, form)
    ensures Merge(editing, form).title == form.title
    ensures Merge(editing, form).description == form.description
    ensures Merge(editing, form).imageUrl == form.imageUrl
    ensures Merge(editing, form).category == form.category
  {
  }

  /** `find` by id: the first record with that id, if there is one. */
  function FindById(ps: seq<Product>, id: string): (found: Option<Product>)
    ensures found.None? <==> forall i | 0 <= i < |ps| :: ps[i].id != id
    ensures found.Some? ==>
              exists k | 0 <= k < |ps| ::
                && ps[k] == found.value && ps[k].id == id
                && forall j | 0 <= j < k :: ps[j].id != id
  {
    var k := FirstIndexWhere(ps, HasId(id));
    if k < |ps| then Some(ps[k]) else None
  }

  /** Submitting an edit of a stored record and saving stores the merged
      record under the edited id, with the old external link. */
  lemma EditThenReload(stored: map<string, Product>, ps: seq<Product>, editing: Product, form: FormValues)
    requires UniqueIds(ps) && editing.id in IdSet(ps)
    ensures Save(stored, Replaced(ps, Merge(editing, form)), NO_FAULTS).0 == Saved
    ensures editing.id in Save(stored, Replaced(ps, Merge(editing, form)), NO_FAULTS).1
    ensures Save(stored, Replaced(ps, Merge(editing, form)), NO_FAULTS).1[editing.id] == Merge(editing, form)
    ensures Save(stored, Replaced(ps, Merge(editing, form)), NO_FAULTS).1[editing.id].externalUrl == editing.externalUrl
  {
    UpdateThenReload(stored, ps, Merge(editing, form));
  }

  class ProductManagement {
    const catalog: Catalog
    var productList: seq<Product>
    var editingProduct: Option<Product>
    var showForm: bool

    /** Mount: the list starts as a copy of the catalog's products. */
    constructor (catalog: Catalog)
      ensures this.catalog == catalog
      ensures productList == catalog.products
      ensures editingProduct == None && !showForm
    {
      this.catalog := catalog;
      productList := catalog.products;
      editingProduct := None;
      showForm := false;
    }

    /** handleEdit: open the form on the first listed record with that id;
        an unknown id changes nothing. */
    method HandleEdit(id: string)
      modifies this`editingProduct, this`showForm
      ensures FindById(productList, id).Some? ==>
                editingProduct == FindById(productList, id) && showForm
      ensures FindById(productList, id).None? ==>
                editingProduct == old(editingProduct) && showForm == old(showForm)
    {
      var found := FindById(productList, id);
      if found.Some? {
        editingProduct := found;
        showForm := true;
      }
    }

    /** handleDelete: delete from the catalog (the save is not awaited), then
        copy the catalog's list, which the delete has already replaced. */
    method HandleDelete(id: string, faults: Faults)
      requires catalog.Valid()
      modifies this`productList, catalog
      ensures catalog.Valid()
      ensures catalog.products == Without(old(catalog.products), id)
      ensures catalog.store == Save(old(catalog.store), catalog.products, faults).1
      ensures productList == catalog.products
      ensures editingProduct == old(editingProduct) && showForm == old(showForm)
    {
      var outcome := catalog.DeleteProduct(id, faults);
      productList := catalog.products;
    }

    /** handleAddNewProduct: open an empty form. */
    method HandleAddNewProduct()
      modifies this`editingProduct, this`showForm
      ensures editingProduct == None && showForm
    {
      editingProduct := None;
      showForm := true;
    }

    /** handleFormSubmit: in edit mode, update the catalog with the merged
        record (the save is not awaited); in add mode the form has already
        added the record itself. Either way, refresh the list and close the
        form. */
    method HandleFormSubmit(form: FormValues, faults: Faults)
      requires catalog.Valid()
      modifies this, catalog
      ensures catalog.Valid()
      ensures old(editingProduct).Some? ==>
                && catalog.products == Replaced(old(catalog.products), Merge(old(editingProduct).value, form))
                && catalog.store == Save(old(catalog.store), catalog.products, faults).1
      ensures old(editingProduct).None? ==>
                catalog.products == old(catalog.products) && catalog.store == old(catalog.store)
      ensures productList == catalog.products
      ensures editingProduct == None && !showForm
    {
      if editingProduct.Some? {
        var updated := Merge(editingProduct.value, form);
        var outcome := catalog.UpdateProduct(updated, faults);
      }
      productList := catalog.products;
      showForm := false;
      editingProduct := None;
    }

    /** The form's Cancel button: hide the form, keep the edited record. */
    method Cancel()
      modifies this`showForm
      ensures !showForm && editingProduct == old(editingProduct)
    {
      showForm := false;
    }
  }
}
