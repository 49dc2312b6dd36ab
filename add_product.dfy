/**
 * `AddProductBody` in `AddProductActivity`: the form's state, the submit handler (checks,
 * optional upload, the choice of image, `addProduct`) and the loading flag that disables
 * the button.
 */
module AddProductScreen {
  import opened Wrappers
  import opened Models
  import opened Store
  import opened Text
  import opened ProductRepo
  import opened ProductViewModels
  import opened ProductForm

  /** The image a new product gets: the uploaded URL, or the bundled image when there is no selection or no URL. */
  function NewProductImage(selection: Option<Picked>, host: string -> UploadResponse): (r: string)
    ensures selection.None? ==> r == PlaceholderImage
    ensures selection.Some? ==>
      var url := UploadImage(selection.value.displayName, host);
      r == if url.Some? then url.value else PlaceholderImage
  {
    match selection
    case None => PlaceholderImage
    case Some(picked) =>
      match UploadImage(picked.displayName, host)
      case None => PlaceholderImage
      case Some(url) => url
  }

  /** A new product's image is never an insecure link: it is the placeholder or an `https` rewrite. */
  lemma NewProductImageIsSecure(selection: Option<Picked>, host: string -> UploadResponse)
    ensures NewProductImage(selection, host) == PlaceholderImage || !Occurs(NewProductImage(selection, host), "http://")
  {
  }

  /** What one press of the Add Product button does. */
  datatype SubmitOutcome =
    | Ignored
    | Invalid(message: string)
    | Submitted(product: Product, ok: bool, message: string)

  class AddProductForm {
    var productName: string
    var productPrice: string
    var productDesc: string
    var isLoading: bool
    /** `selectedImageUri`. */
    var selection: Option<Picked>
    /** The activity has called `finish()`. */
    var closed: bool
    ghost var loadingTrace: seq<bool>

    constructor ()
      ensures productName == "" && productPrice == "" && productDesc == ""
      ensures !isLoading && selection.None? && !closed && loadingTrace == []
    {
      productName, productPrice, productDesc := "", "", "";
      isLoading, selection, closed := false, None, false;
      loadingTrace := [];
    }

    /**
     * The submit handler. A disabled button does nothing; failing checks only show their
     * message. Otherwise loading goes up, the product (with an empty id, which the store
     * replaces) is added, loading goes down in the callback, and the screen closes only on
     * success. `host` answers the upload; `writeError` is the store's answer to the write.
     */
    method Submit(vm: ProductViewModel, parse: string -> Option<Price>, host: string -> UploadResponse,
                  writeError: Option<string>)
      returns (outcome: SubmitOutcome)
      requires vm.Valid()
      modifies this, vm.repo
      ensures vm.Valid()
      ensures old(isLoading) ==> outcome == Ignored && vm.repo.table == old(vm.repo.table)
      ensures var check := ValidateProductInputs(productName, productPrice, productDesc, parse);
        && (!old(isLoading) && check.Some? ==> outcome == Invalid(check.value) && vm.repo.table == old(vm.repo.table))
        && (!old(isLoading) && check.None? ==>
              && outcome.Submitted?
              && outcome.product.productId !in old(vm.repo.table.nodes)
              && outcome.product == Product(outcome.product.productId, productName, parse(productPrice).value,
                                            productDesc, NewProductImage(selection, host))
              && outcome.ok == writeError.None?
              && vm.repo.table == (if outcome.ok then old(vm.repo.table).Set(outcome.product.productId, EncodeProduct(outcome.product))
                                   else old(vm.repo.table))
              && loadingTrace == old(loadingTrace) + [true, false])
      ensures closed == (old(closed) || (outcome.Submitted? && outcome.ok))
      ensures !outcome.Submitted? ==> loadingTrace == old(loadingTrace)
      ensures isLoading == old(isLoading)
      ensures productName == old(productName) && productPrice == old(productPrice) && productDesc == old(productDesc)
      ensures selection == old(selection)
    {
      if isLoading {
        return Ignored;
      }
      var check := ValidateProductInputs(productName, productPrice, productDesc, parse);
      if check.Some? {
        return Invalid(check.value);
      }
      isLoading := true;
      loadingTrace := loadingTrace + [true];
      var price := parse(productPrice).value;
      var image := NewProductImage(selection, host);
      var model := new ProductModel(Product("", productName, price, productDesc, image));
      var ok, msg := vm.AddProduct(model, writeError);
      isLoading := false;
      loadingTrace := loadingTrace + [false];
      if ok {
        closed := true;
      }
      outcome := Submitted(model.Value(), ok, msg);
    }
  }
}
