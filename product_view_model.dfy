/**
 * `ProductViewModel`: three observable holders (`_products`, `_allProducts`, `_loading`)
 * filled from the repository's callbacks, and forwarders. A holder never posted to is
 * `None`; the ghost trace `loadingPosts` records every value posted to `_loading`.
 */
module ProductViewModels {
  import opened Wrappers
  import opened Models
  import opened Store
  import opened ProductRepo

  class ProductViewModel {
    const repo: ProductRepository
    /** `_products`: `Some(None)` is a posted null. */
    var products: Option<Option<Product>>
    /** `_allProducts`. */
    var allProducts: Option<seq<Option<Product>>>
    /** `_loading`. */
    var loading: Option<bool>
    ghost var loadingPosts: seq<bool>

    ghost predicate Valid()
      reads this, repo
    {
      repo.Valid()
    }

    constructor (repo: ProductRepository)
      requires repo.Valid()
      ensures Valid() && this.repo == repo
      ensures products == None && allProducts == None && loading == None && loadingPosts == []
    {
      this.repo := repo;
      products, allProducts, loading := None, None, None;
      loadingPosts := [];
    }

    /**
     * `getProductById`: a found product is posted, a cancelled read posts null, and a
     * read that never calls back leaves the holder as it was. Loading is not touched.
     */
    method GetProductById(productId: string, queryError: Option<string>)
      requires Valid()
      modifies this
      ensures Valid()
      ensures queryError.Some? ==> products == Some(None)
      ensures queryError.None? && LookupProduct(repo.table, productId).Some? ==>
        products == Some(LookupProduct(repo.table, productId))
      ensures queryError.None? && LookupProduct(repo.table, productId).None? ==> products == old(products)
      ensures allProducts == old(allProducts) && loading == old(loading) && loadingPosts == old(loadingPosts)
    {
      var d := repo.GetProductById(productId, queryError);
      if d.Callback? {
        if d.success {
          products := Some(d.data);
        } else {
          products := Some(None);
        }
      }
    }

    /**
     * `getAllProduct`: loading goes up on entry and down on every callback. With an empty
     * collection no callback comes, and loading stays up.
     */
    method GetAllProduct(queryError: Option<string>)
      requires Valid()
      modifies this
      ensures Valid()
      ensures queryError.None? && repo.table.nodes == map[] ==>
        && loadingPosts == old(loadingPosts) + [true] && loading == Some(true)
        && allProducts == old(allProducts)
      ensures queryError.Some? || repo.table.nodes != map[] ==>
        && loadingPosts == old(loadingPosts) + [true, false] && loading == Some(false)
        && allProducts == Some(if queryError.None? then Posted(Decoded(repo.table.keys, repo.table.nodes)) else [])
      ensures products == old(products)
    {
      loading := Some(true);
      loadingPosts := loadingPosts + [true];
      var d := repo.GetAllProducts(queryError);
      if d.Callback? {
        loading := Some(false);
        loadingPosts := loadingPosts + [false];
        if d.success {
          allProducts := Some(Posted(d.data));
        } else {
          allProducts := Some([]);
        }
      }
    }

    /** `addProduct`: forwards the model and the outcome unchanged. */
    method AddProduct(model: ProductModel, writeError: Option<string>) returns (ok: bool, msg: string)
      requires Valid()
      modifies repo, model
      ensures Valid()
      ensures model.productId !in old(repo.table.nodes)
      ensures model.Value() == old(model.Value()).(productId := model.productId)
      ensures ok == writeError.None?
      ensures ok ==> msg == MsgProductAdded && repo.table == old(repo.table).Set(model.productId, EncodeProduct(model.Value()))
      ensures !ok ==> msg == writeError.value && repo.table == old(repo.table)
    {
      ok, msg := repo.AddProduct(model, writeError);
    }

    /** `updateProduct`: forwards the id and the map unchanged. */
    method UpdateProduct(productId: string, data: map<string, Option<Field>>, writeError: Option<string>)
      returns (ok: bool, msg: string)
      requires Valid()
      modifies repo
      ensures Valid()
      ensures ok == writeError.None?
      ensures ok && Written(data) != map[] ==> repo.table == old(repo.table).Set(productId, Written(data))
      ensures ok && Written(data) == map[] ==> repo.table == old(repo.table).Remove(productId)
      ensures !ok ==> repo.table == old(repo.table)
      ensures msg == if ok then MsgProductUpdated else writeError.value
    {
      ok, msg := repo.UpdateProduct(productId, data, writeError);
    }

    /** `deleteProduct`: forwards the id unchanged. */
    method DeleteProduct(productId: string, removeError: Option<string>) returns (ok: bool, msg: string)
      requires Valid()
      modifies repo
      ensures Valid()
      ensures ok == removeError.None?
      ensures repo.table == if ok then old(repo.table).Remove(productId) else old(repo.table)
      ensures msg == if ok then MsgProductDeleted else removeError.value
    {
      ok, msg := repo.DeleteProduct(productId, removeError);
    }
  }

  /** After a successful fetch the holder lists exactly the decodable products, none of them null. */
  lemma FetchedHolderContents(t: Table<Node>)
    ensures forall e :: e in Posted(Decoded(t.keys, t.nodes)) ==>
      e.Some? && exists k :: k in t.keys && k in t.nodes && DecodeProduct(t.nodes[k]) == e
  {
    DecodedSelect(t.keys, t.nodes);
  }

  /**
   * A new, empty catalogue: `getAllProduct` leaves the loading indicator up for good, and
   * the list holder never receives a value.
   */
  method EmptyCatalogueSpins() returns (loading: Option<bool>, listed: Option<seq<Option<Product>>>)
    ensures loading == Some(true) && listed == None
  {
    var repo := new ProductRepository();
    var vm := new ProductViewModel(repo);
    vm.GetAllProduct(None);
    loading, listed := vm.loading, vm.allProducts;
  }
}
