/**
 * `CartViewModel`: the last cart snapshot and a loading flag, both observable holders
 * (`MutableLiveData`) that are updated from the repository's callbacks, and the
 * operations that forward to the repository.
 *
 * A holder that was never posted to is `None`. Every value posted to `_loading` is also
 * recorded, in order, in the ghost trace `loadingPosts`.
 */
module CartViewModels {
  import opened Wrappers
  import opened Models
  import opened Store
  import opened CartRepo

  const MsgItemNotFound := "Item not found"

  predicate IsItemFor(e: Option<CartItem>, productId: string) {
    e.Some? && e.value.productId == productId
  }

  /** Position of the first entry that is an item for `productId`. */
  function FirstWithProduct(s: seq<Option<CartItem>>, productId: string): (r: Option<nat>)
    ensures r.Some? ==> r.value < |s| && IsItemFor(s[r.value], productId)
    ensures r.Some? ==> forall j :: 0 <= j < r.value ==> !IsItemFor(s[j], productId)
    ensures r.None? ==> forall j :: 0 <= j < |s| ==> !IsItemFor(s[j], productId)
  {
    if s == [] then None
    else if IsItemFor(s[0], productId) then Some(0)
    else match FirstWithProduct(s[1..], productId)
      case None => None
      case Some(i) => Some(i + 1)
  }

  /** `_cartItems.value?.find { it?.productId == productId }`. */
  function FindInSnapshot(snapshot: Option<seq<Option<CartItem>>>, productId: string): (r: Option<CartItem>)
    ensures snapshot.None? ==> r.None?
    ensures r.Some? ==> r.value.productId == productId && Some(r.value) in snapshot.value
    ensures snapshot.Some? && r.None? ==> forall e :: e in snapshot.value ==> !IsItemFor(e, productId)
  {
    match snapshot
    case None => None
    case Some(s) =>
      match FirstWithProduct(s, productId)
      case None => None
      case Some(i) => s[i]
  }

  /**
   * An item found in a snapshot that the store delivered for the user is stored under its
   * own `cartItemId`: deleting or updating that id touches exactly that item.
   */
  lemma FoundItemIsStored(t: Table<CartNode>, userId: string, productId: string)
    requires forall k :: k in t.nodes && t.nodes[k].Item? ==> t.nodes[k].item.cartItemId == k
    requires FindInSnapshot(Some(Posted(UserItems(t.keys, t.nodes, userId))), productId).Some?
    ensures var x := FindInSnapshot(Some(Posted(UserItems(t.keys, t.nodes, userId))), productId).value;
      x.cartItemId in t.nodes && t.nodes[x.cartItemId] == Item(x) && x.userId == userId
  {
    var items := UserItems(t.keys, t.nodes, userId);
    var x := FindInSnapshot(Some(Posted(items)), productId).value;
    var i :| 0 <= i < |Posted(items)| && Posted(items)[i] == Some(x);
    assert items[i] == x;
    UserItemsSelect(t.keys, t.nodes, userId);
  }

  class CartViewModel {
    const repo: CartRepository
    /** `_cartItems`. */
    var cartItems: Option<seq<Option<CartItem>>>
    /** `_loading`. */
    var loading: Option<bool>
    ghost var loadingPosts: seq<bool>

    ghost predicate Valid()
      reads this, repo
    {
      repo.Valid()
    }

    constructor (repo: CartRepository)
      requires repo.Valid()
      ensures Valid() && this.repo == repo
      ensures cartItems == None && loading == None && loadingPosts == []
    {
      this.repo := repo;
      cartItems, loading := None, None;
      loadingPosts := [];
    }

    /** `getCartItems`: loading goes up, the fetch is delivered, loading goes down and the snapshot is replaced. */
    method GetCartItems(userId: string, fetchError: Option<string>)
      requires Valid()
      modifies this
      ensures Valid()
      ensures loadingPosts == old(loadingPosts) + [true, false] && loading == Some(false)
      ensures cartItems == Some(if fetchError.None? then Posted(UserItems(repo.table.keys, repo.table.nodes, userId)) else [])
    {
      loading := Some(true);
      loadingPosts := loadingPosts + [true];
      var data, success, _ := repo.GetCartItems(userId, fetchError);
      loading := Some(false);
      loadingPosts := loadingPosts + [false];
      if success {
        cartItems := Some(Posted(data));
      } else {
        cartItems := Some([]);
      }
    }

    /** `addCartItem`: forwards to `addToCart`. */
    method AddCartItem(item: CartItem, writeError: Option<string>) returns (ok: bool, msg: string)
      requires Valid()
      modifies repo
      ensures Valid()
      ensures ok == writeError.None?
      ensures ok ==> msg == MsgAdded
      ensures ok ==> exists key ::
        key !in old(repo.table.nodes) && repo.table == old(repo.table).Set(key, Item(item.(cartItemId := key)))
      ensures !ok ==> msg == MsgAddFailed + writeError.value && repo.table == old(repo.table)
    {
      ok, msg := repo.AddToCart(item, writeError);
    }

    /** `updateCartItem`: sends exactly the item's `cartItemId` and `quantity`. */
    method UpdateCartItem(item: CartItem, writeError: Option<string>) returns (ok: bool, msg: string)
      requires Valid()
      modifies repo
      ensures Valid()
      ensures ok == writeError.None?
      ensures ok ==> repo.table == old(repo.table).Set(item.cartItemId,
        WithQuantity(if item.cartItemId in old(repo.table.nodes) then Some(old(repo.table.nodes)[item.cartItemId]) else None,
                     item.quantity))
      ensures !ok ==> repo.table == old(repo.table)
      ensures msg == if ok then MsgQuantityUpdated else MsgQuantityFailed + writeError.value
    {
      ok, msg := repo.UpdateQuantity(item.cartItemId, item.quantity, writeError);
    }

    /** `deleteCartItem`: forwards to `removeFromCart`. */
    method DeleteCartItem(cartItemId: string, removeError: Option<string>) returns (ok: bool, msg: string)
      requires Valid()
      modifies repo
      ensures Valid()
      ensures ok == removeError.None?
      ensures repo.table == if ok then old(repo.table).Remove(cartItemId) else old(repo.table)
      ensures msg == if ok then MsgRemoved else MsgRemoveFailed + removeError.value
    {
      ok, msg := repo.RemoveFromCart(cartItemId, removeError);
    }

    /**
     * `removeCartItem`: a refresh is requested, then the snapshot held at the time of the
     * call is searched, without waiting for that refresh. The refresh lands last.
     */
    method RemoveCartItem(productId: string, userId: string, fetchError: Option<string>, removeError: Option<string>)
      returns (ok: bool, msg: string)
      requires Valid()
      modifies this, repo
      ensures Valid()
      ensures var found := FindInSnapshot(old(cartItems), productId);
        && (found.None? ==> !ok && msg == MsgItemNotFound && repo.table == old(repo.table))
        && (found.Some? ==>
              && ok == removeError.None?
              && repo.table == (if ok then old(repo.table).Remove(found.value.cartItemId) else old(repo.table))
              && msg == if ok then MsgRemoved else MsgRemoveFailed + removeError.value)
      ensures loadingPosts == old(loadingPosts) + [true, false] && loading == Some(false)
      ensures cartItems == Some(if fetchError.None? then Posted(UserItems(repo.table.keys, repo.table.nodes, userId)) else [])
    {
      var item := FindInSnapshot(cartItems, productId);
      if item.Some? {
        ok, msg := DeleteCartItem(item.value.cartItemId, removeError);
      } else {
        ok, msg := false, MsgItemNotFound;
      }
      GetCartItems(userId, fetchError);
    }

    /**
     * `updateCartItemQuantity`: as `removeCartItem`, but the found item, copied with
     * `newQuantity`, goes to `updateCartItem`.
     */
    method UpdateCartItemQuantity(productId: string, userId: string, newQuantity: Int32,
                                  fetchError: Option<string>, writeError: Option<string>)
      returns (ok: bool, msg: string)
      requires Valid()
      modifies this, repo
      ensures Valid()
      ensures var found := FindInSnapshot(old(cartItems), productId);
        && (found.None? ==> !ok && msg == MsgItemNotFound && repo.table == old(repo.table))
        && (found.Some? ==>
              var id := found.value.cartItemId;
              && ok == writeError.None?
              && repo.table == (if ok then old(repo.table).Set(id,
                   WithQuantity(if id in old(repo.table.nodes) then Some(old(repo.table.nodes)[id]) else None, newQuantity))
                 else old(repo.table))
              && msg == if ok then MsgQuantityUpdated else MsgQuantityFailed + writeError.value)
      ensures loadingPosts == old(loadingPosts) + [true, false] && loading == Some(false)
      ensures cartItems == Some(if fetchError.None? then Posted(UserItems(repo.table.keys, repo.table.nodes, userId)) else [])
    {
      var item := FindInSnapshot(cartItems, productId);
      if item.Some? {
        var updated := item.value.(quantity := newQuantity);
        ok, msg := UpdateCartItem(updated, writeError);
      } else {
        ok, msg := false, MsgItemNotFound;
      }
      GetCartItems(userId, fetchError);
    }
  }

  lemma SoleItem(t: Table<CartNode>, key: string, userId: string)
    requires t.keys == [key] && Owns(t.nodes, key, userId)
    ensures UserItems(t.keys, t.nodes, userId) == [t.nodes[key].item]
  {
    assert t.keys[..0] == [];
  }

  lemma PostedOne(x: CartItem)
    ensures Posted([x]) == [Some(x)]
  {
    assert Posted([x])[0] == Some(x);
  }

  /** A new view-model over a new cart, after adding `item`. */
  method Added(item: CartItem) returns (vm: CartViewModel, ghost key: string)
    ensures fresh(vm) && fresh(vm.repo) && vm.Valid()
    ensures vm.repo.table == Table([key], map[key := Item(item.(cartItemId := key))])
  {
    var repo := new CartRepository();
    vm := new CartViewModel(repo);
    ghost var t0 := repo.table;
    var ok, msg := vm.AddCartItem(item, None);
    key :| key !in t0.nodes && repo.table == t0.Set(key, Item(item.(cartItemId := key)));
  }

  /** The same, after one successful refresh. */
  method AddedAndRefreshed(item: CartItem) returns (vm: CartViewModel, ghost key: string)
    ensures fresh(vm) && fresh(vm.repo) && vm.Valid()
    ensures vm.repo.table == Table([key], map[key := Item(item.(cartItemId := key))])
    ensures vm.cartItems == Some([Some(item.(cartItemId := key))])
  {
    vm, key := Added(item);
    SoleItem(vm.repo.table, key, item.userId);
    PostedOne(item.(cartItemId := key));
    vm.GetCartItems(item.userId, None);
  }

  /**
   * Add an item, refresh, then set its quantity to 3 by product: the last refresh
   * delivers that one item, with quantity 3 and every other field as added.
   */
  method RefreshThenUpdate(item: CartItem) returns (snapshot: seq<Option<CartItem>>)
    ensures |snapshot| == 1 && snapshot[0].Some?
    ensures snapshot[0].value == item.(cartItemId := snapshot[0].value.cartItemId, quantity := 3)
  {
    var vm;
    ghost var key;
    vm, key := AddedAndRefreshed(item);
    ghost var added := item.(cartItemId := key);
    ghost var t1 := vm.repo.table;
    assert FindInSnapshot(vm.cartItems, item.productId) == Some(added);
    assert WithQuantity(Some(Item(added)), 3) == Item(added.(quantity := 3));
    var ok, msg := vm.UpdateCartItemQuantity(item.productId, item.userId, 3, None, None);
    assert vm.repo.table == Table([key], map[key := Item(added.(quantity := 3))]);
    SoleItem(vm.repo.table, key, item.userId);
    PostedOne(added.(quantity := 3));
    snapshot := vm.cartItems.value;
  }

  /**
   * Add an item and set its quantity by product straight away: the snapshot was never
   * filled, so the lookup fails and the store keeps the added quantity.
   */
  method UpdateBeforeRefresh(item: CartItem) returns (ok: bool, msg: string)
    ensures !ok && msg == MsgItemNotFound
  {
    var repo := new CartRepository();
    var vm := new CartViewModel(repo);
    ok, msg := vm.AddCartItem(item, None);
    ok, msg := vm.UpdateCartItemQuantity(item.productId, item.userId, 3, None, None);
  }
}
