/**
 * `UpdateProductBody` in `UpdateProductActivity`: loading the product named by the
 * `productId` extra into the form, the image preview, the save handler with its update
 * map and image choice, and the guarded delete.
 */
module UpdateProductScreen {
  import opened Wrappers
  import opened Models
  import opened Store
  import opened Text
  import opened ProductRepo
  import opened ProductViewModels
  import opened ProductForm

  const MsgUpdated := "Product updated successfully"
  const MsgUpdateFailed := "Failed to update: "
  const MsgDeleted := "Product deleted successfully"
  const MsgDeleteFailed := "Failed to delete: "

  /** `productId.toString()`: a missing extra names the child `"null"`. */
  function PathOf(productId: Option<string>): (r: string)
    ensures productId.Some? ==> r == productId.value
    ensures productId.None? ==> r == "null"
  {
    match productId
    case None => "null"
    case Some(id) => id
  }

  /** `!productId.isNullOrEmpty()`. */
  predicate HasId(productId: Option<string>) {
    productId.Some? && productId.value != ""
  }

  /**
   * The update map, built by five puts: exactly the keys `productDesc`, `productPrice`,
   * `productName`, `image` and `productId`, the last being null when the extra is missing.
   */
  function UpdateData(name: string, price: Price, desc: string, image: string, productId: Option<string>)
    : (data: map<string, Option<Field>>)
    ensures data.Keys == {"productDesc", "productPrice", "productName", "image", "productId"}
    ensures data["productName"] == Some(Str(name)) && data["productPrice"] == Some(Num(price))
    ensures data["productDesc"] == Some(Str(desc)) && data["image"] == Some(Str(image))
    ensures data["productId"] == if productId.Some? then Some(Str(productId.value)) else None
  {
    map["productDesc" := Some(Str(desc)), "productPrice" := Some(Num(price)), "productName" := Some(Str(name)),
        "image" := Some(Str(image)),
        "productId" := if productId.Some? then Some(Str(productId.value)) else None]
  }

  /**
   * With the extra present, the stored node is exactly the product the form describes, and
   * it reads back as that product.
   */
  lemma UpdateDataEncodes(name: string, price: Price, desc: string, image: string, id: string)
    ensures Written(UpdateData(name, price, desc, image, Some(id))) == EncodeProduct(Product(id, name, price, desc, image))
    ensures DecodeProduct(Written(UpdateData(name, price, desc, image, Some(id)))) == Some(Product(id, name, price, desc, image))
  {
    var n := Written(UpdateData(name, price, desc, image, Some(id)));
    assert n.Keys == EncodeProduct(Product(id, name, price, desc, image)).Keys;
    DecodeEncode(Product(id, name, price, desc, image));
  }

  /** The image saved: the uploaded URL, else the image the product already had. */
  function SavedImage(selection: Option<Picked>, host: string -> UploadResponse, current: string): (r: string)
    ensures selection.None? ==> r == current
    ensures selection.Some? ==>
      var url := UploadImage(selection.value.displayName, host);
      r == if url.Some? then url.value else current
  {
    match selection
    case None => current
    case Some(picked) =>
      match UploadImage(picked.displayName, host)
      case None => current
      case Some(url) => url
  }

  /** What the image box shows. */
  datatype Preview = ShowSelection(picked: Picked) | ShowStored(url: string) | ShowPlaceholder

  /** The preview: the new selection, else a stored image that is neither empty nor the bundled one. */
  function PreviewOf(selection: Option<Picked>, current: string): (p: Preview)
    ensures selection.Some? <==> p.ShowSelection?
    ensures p.ShowStored? ==> p.url == current && current != "" && current != PlaceholderImage
    ensures p.ShowPlaceholder? <==> selection.None? && (current == "" || current == PlaceholderImage)
  {
    if selection.Some? then ShowSelection(selection.value)
    else if current != "" && current != PlaceholderImage then ShowStored(current)
    else ShowPlaceholder
  }

  /** What one press of Save Details does. */
  datatype SaveOutcome =
    | Ignored
    | Invalid(message: string)
    | Saved(data: map<string, Option<Field>>, toast: string)

  class UpdateProductForm {
    /** The `productId` extra of the launching intent. */
    const productId: Option<string>
    var pName: string
    var pPrice: string
    var pDesc: string
    var currentProductImage: string
    var isLoading: bool
    var selection: Option<Picked>
    /** The screen has started the dashboard. */
    var leftForDashboard: bool

    constructor (productId: Option<string>)
      ensures this.productId == productId
      ensures pName == "" && pPrice == "" && pDesc == "" && currentProductImage == ""
      ensures !isLoading && selection.None? && !leftForDashboard
    {
      this.productId := productId;
      pName, pPrice, pDesc, currentProductImage := "", "", "", "";
      isLoading, selection, leftForDashboard := false, None, false;
    }

    /** The form fields are overwritten from a product posted to the holder. */
    method LoadForm(p: Product, priceText: Price -> string)
      modifies this
      ensures pName == p.productName && pDesc == p.productDesc && pPrice == priceText(p.productPrice)
      ensures currentProductImage == p.image
      ensures isLoading == old(isLoading) && selection == old(selection) && leftForDashboard == old(leftForDashboard)
    {
      pName := p.productName;
      pDesc := p.productDesc;
      pPrice := priceText(p.productPrice);
      currentProductImage := p.image;
    }

    /**
     * The first composition: the product is requested only for a non-empty id, and
     * whatever product the holder then holds fills the form (`LaunchedEffect(products.value)`).
     * `priceText` stands for `Double.toString`.
     */
    method Launch(vm: ProductViewModel, queryError: Option<string>, priceText: Price -> string)
      requires vm.Valid()
      modifies this, vm
      ensures vm.Valid()
      ensures !HasId(productId) ==> vm.products == old(vm.products)
      ensures HasId(productId) && queryError.None? && LookupProduct(vm.repo.table, productId.value).Some? ==>
        vm.products == Some(LookupProduct(vm.repo.table, productId.value))
      ensures vm.products.Some? && vm.products.value.Some? ==>
        var p := vm.products.value.value;
        pName == p.productName && pDesc == p.productDesc && pPrice == priceText(p.productPrice)
          && currentProductImage == p.image
      ensures !(vm.products.Some? && vm.products.value.Some?) ==>
        pName == old(pName) && pPrice == old(pPrice) && pDesc == old(pDesc)
          && currentProductImage == old(currentProductImage)
      ensures isLoading == old(isLoading) && selection == old(selection)
    {
      if HasId(productId) {
        vm.GetProductById(productId.value, queryError);
      }
      if vm.products.Some? && vm.products.value.Some? {
        LoadForm(vm.products.value.value, priceText);
      }
    }

    /** What the image box shows now. */
    function CurrentPreview(): Preview
      reads this
    {
      PreviewOf(selection, currentProductImage)
    }

    /**
     * The save handler: the checks, then the upload if an image is picked, then one
     * `updateProduct` on `productId.toString()` with the five-key map. The dashboard is
     * opened only on success.
     */
    method Save(vm: ProductViewModel, parse: string -> Option<Price>, host: string -> UploadResponse,
                writeError: Option<string>)
      returns (outcome: SaveOutcome)
      requires vm.Valid()
      modifies this, vm.repo
      ensures vm.Valid()
      ensures old(isLoading) ==> outcome == Ignored && vm.repo.table == old(vm.repo.table)
      ensures var check := ValidateProductInputs(pName, pPrice, pDesc, parse);
        && (!old(isLoading) && check.Some? ==> outcome == Invalid(check.value) && vm.repo.table == old(vm.repo.table))
        && (!old(isLoading) && check.None? ==>
              var data := UpdateData(pName, parse(pPrice).value, pDesc,
                                     SavedImage(selection, host, currentProductImage), productId);
              && outcome == Saved(data, if writeError.None? then MsgUpdated else MsgUpdateFailed + writeError.value)
              && vm.repo.table == (if writeError.Some? then old(vm.repo.table)
                                   else old(vm.repo.table).Set(PathOf(productId), Written(data))))
      ensures leftForDashboard == (old(leftForDashboard) || (outcome.Saved? && writeError.None?))
      ensures isLoading == old(isLoading)
      ensures pName == old(pName) && pPrice == old(pPrice) && pDesc == old(pDesc)
      ensures currentProductImage == old(currentProductImage) && selection == old(selection)
    {
      if isLoading {
        return Ignored;
      }
      var check := ValidateProductInputs(pName, pPrice, pDesc, parse);
      if check.Some? {
        return Invalid(check.value);
      }
      isLoading := true;
      var price := parse(pPrice).value;
      var image := SavedImage(selection, host, currentProductImage);
      var data := UpdateData(pName, price, pDesc, image, productId);
      assert Written(data) != map[] by {
        assert "productName" in Written(data);
      }
      var ok, msg := vm.UpdateProduct(PathOf(productId), data, writeError);
      isLoading := false;
      if ok {
        leftForDashboard := true;
        outcome := Saved(data, MsgUpdated);
      } else {
        outcome := Saved(data, MsgUpdateFailed + msg);
      }
    }

    /** The dialog's Delete button: a delete is issued only for a non-empty id. */
    method ConfirmDelete(vm: ProductViewModel, removeError: Option<string>) returns (toast: Option<string>)
      requires vm.Valid()
      modifies this, vm.repo
      ensures vm.Valid()
      ensures !HasId(productId) ==>
        toast.None? && vm.repo.table == old(vm.repo.table) && leftForDashboard == old(leftForDashboard)
      ensures HasId(productId) ==>
        && vm.repo.table == (if removeError.None? then old(vm.repo.table).Remove(productId.value) else old(vm.repo.table))
        && toast == Some(if removeError.None? then MsgDeleted else MsgDeleteFailed + removeError.value)
        && leftForDashboard == (old(leftForDashboard) || removeError.None?)
    {
      toast := None;
      if HasId(productId) {
        var ok, msg := vm.DeleteProduct(productId.value, removeError);
        if ok {
          leftForDashboard := true;
          toast := Some(MsgDeleted);
        } else {
          toast := Some(MsgDeleteFailed + msg);
        }
      }
    }
  }
}
