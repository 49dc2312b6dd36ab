/**
 * `CartActivity` and its composables: the quantity stepper, the image fallback, what the
 * screen renders from the view-model's holders, and the delete and quantity handlers.
 */
module CartScreen {
  import opened Wrappers
  import opened Models
  import opened Store
  import opened CartRepo
  import opened CartViewModels

  /** The decrease button: asks for one less, but only from a quantity above 1. */
  function DecrementRequest(q: Int32): (r: Option<Int32>)
    ensures r.Some? <==> q > 1
    ensures r.Some? ==> r.value >= 1 && r.value == q - 1
  {
    if q > 1 then Some(q - 1) else None
  }

  /** The increase button: always asks for one more, in Kotlin `Int` arithmetic. */
  function IncrementRequest(q: Int32): (r: Int32)
    ensures q < MaxInt32 ==> r == q + 1
    ensures q == MaxInt32 ==> r == MinInt32
  {
    WrapInt32(q + 1)
  }

  /** Pressing increase after a decrease asks again for the quantity the item had. */
  lemma IncrementUndoesDecrement(q: Int32)
    requires DecrementRequest(q).Some?
    ensures IncrementRequest(DecrementRequest(q).value) == q
  {
  }

  /**
   * The quantity after `steps` presses of the decrease button, each answered by the store:
   * repeated presses stop at 1 and never go below it.
   */
  function DecrementChain(q: Int32, steps: nat): (r: Int32)
    ensures r <= q
    ensures q >= 1 ==> r >= 1
    ensures q > 1 && steps >= q - 1 ==> r == 1
    decreases steps
  {
    if steps == 0 then q
    else match DecrementRequest(q)
      case None => q
      case Some(p) => DecrementChain(p, steps - 1)
  }

  /** The image of a cart card. */
  function ShownImage(item: CartItem): (r: string)
    ensures r != ""
    ensures item.productImage != "" ==> r == item.productImage
    ensures item.productImage == "" ==> r == PlaceholderImage
  {
    if item.productImage != "" then item.productImage else PlaceholderImage
  }

  /**
   * Kotlin's `filterNotNull`. The contract speaks of membership only; for a delivered
   * list, `FilterNotNullPosted` gives the exact result, order and repeats included.
   */
  function FilterNotNull(s: seq<Option<CartItem>>): (r: seq<CartItem>)
    ensures |r| <= |s|
    ensures forall x :: x in r <==> Some(x) in s
  {
    if s == [] then []
    else
      assert s == [s[0]] + s[1..];
      (if s[0].Some? then [s[0].value] else []) + FilterNotNull(s[1..])
  }

  /** A list that the store delivered has no null entries to drop. */
  lemma {:induction false} FilterNotNullPosted(items: seq<CartItem>)
    ensures FilterNotNull(Posted(items)) == items
  {
    if items != [] {
      assert Posted(items)[1..] == Posted(items[1..]);
      FilterNotNullPosted(items[1..]);
    }
  }

  /** What the activity shows. */
  datatype View = Spinner | CartList(items: seq<CartItem>)

  /**
   * `observeAsState(false)` and `observeAsState(emptyList())`: the spinner while loading
   * is true, otherwise the snapshot without its null entries. The contract speaks of
   * membership only; `RenderAfterFetch` gives the exact list after a fetch.
   */
  function Render(loading: Option<bool>, snapshot: Option<seq<Option<CartItem>>>): (v: View)
    ensures v.Spinner? <==> loading == Some(true)
    ensures v.CartList? && snapshot.None? ==> v.items == []
    ensures v.CartList? && snapshot.Some? ==> forall x :: x in v.items <==> Some(x) in snapshot.value
  {
    if loading == Some(true) then Spinner
    else CartList(match snapshot case None => [] case Some(s) => FilterNotNull(s))
  }

  /** After a successful fetch, the screen lists exactly the user's stored items, in order. */
  lemma RenderAfterFetch(t: Table<CartNode>, userId: string)
    ensures Render(Some(false), Some(Posted(UserItems(t.keys, t.nodes, userId))))
      == CartList(UserItems(t.keys, t.nodes, userId))
  {
    FilterNotNullPosted(UserItems(t.keys, t.nodes, userId));
  }

  /** `onDelete`: delete by the card's `cartItemId`, show the message, re-fetch only on success. */
  method OnDelete(vm: CartViewModel, userId: string, item: CartItem, removeError: Option<string>,
                  fetchError: Option<string>)
    returns (toast: string)
    requires vm.Valid()
    modifies vm, vm.repo
    ensures vm.Valid()
    ensures toast == if removeError.None? then MsgRemoved else MsgRemoveFailed + removeError.value
    ensures vm.repo.table == if removeError.None? then old(vm.repo.table).Remove(item.cartItemId) else old(vm.repo.table)
    ensures removeError.None? ==>
      && vm.loadingPosts == old(vm.loadingPosts) + [true, false]
      && vm.cartItems == Some(if fetchError.None? then Posted(UserItems(vm.repo.table.keys, vm.repo.table.nodes, userId)) else [])
    ensures removeError.Some? ==>
      vm.loadingPosts == old(vm.loadingPosts) && vm.cartItems == old(vm.cartItems) && vm.loading == old(vm.loading)
  {
    var ok;
    ok, toast := vm.DeleteCartItem(item.cartItemId, removeError);
    if ok {
      vm.GetCartItems(userId, fetchError);
    }
  }

  /**
   * `onUpdateQuantity`: the quantity change goes through the product lookup; success
   * re-fetches, failure only shows the message. `fetchError` is the outcome of the
   * refresh inside `updateCartItemQuantity`, `refetchError` that of the handler's own.
   */
  method OnUpdateQuantity(vm: CartViewModel, userId: string, item: CartItem, newQuantity: Int32,
                          fetchError: Option<string>, writeError: Option<string>, refetchError: Option<string>)
    returns (toast: Option<string>)
    requires vm.Valid()
    modifies vm, vm.repo
    ensures vm.Valid()
    ensures var found := FindInSnapshot(old(vm.cartItems), item.productId);
      && (found.None? ==> toast == Some(MsgItemNotFound) && vm.repo.table == old(vm.repo.table))
      && (found.Some? ==>
            var id := found.value.cartItemId;
            && toast == (if writeError.None? then None else Some(MsgQuantityFailed + writeError.value))
            && vm.repo.table == (if writeError.None? then old(vm.repo.table).Set(id,
                 WithQuantity(if id in old(vm.repo.table.nodes) then Some(old(vm.repo.table.nodes)[id]) else None, newQuantity))
               else old(vm.repo.table)))
    ensures vm.loadingPosts == old(vm.loadingPosts) + [true, false] + (if toast.None? then [true, false] else [])
    ensures var last := if toast.None? then refetchError else fetchError;
      vm.cartItems == Some(if last.None? then Posted(UserItems(vm.repo.table.keys, vm.repo.table.nodes, userId)) else [])
  {
    var ok, msg := vm.UpdateCartItemQuantity(item.productId, userId, newQuantity, fetchError, writeError);
    if ok {
      vm.GetCartItems(userId, refetchError);
      toast := None;
    } else {
      toast := Some(msg);
    }
  }

  /** The decrease button of a card: from a quantity of 1 nothing happens at all. */
  method PressDecrement(vm: CartViewModel, userId: string, item: CartItem,
                        fetchError: Option<string>, writeError: Option<string>, refetchError: Option<string>)
    returns (requested: Option<Int32>, toast: Option<string>)
    requires vm.Valid()
    modifies vm, vm.repo
    ensures vm.Valid()
    ensures requested == DecrementRequest(item.quantity)
    ensures requested.None? ==>
      && toast.None? && vm.repo.table == old(vm.repo.table)
      && vm.cartItems == old(vm.cartItems) && vm.loadingPosts == old(vm.loadingPosts)
    ensures requested.Some? ==>
      && requested.value >= 1
      && (vm.repo.table == old(vm.repo.table) || exists id ::
            vm.repo.table == old(vm.repo.table).Set(id,
              WithQuantity(if id in old(vm.repo.table.nodes) then Some(old(vm.repo.table.nodes)[id]) else None, requested.value)))
  {
    requested := DecrementRequest(item.quantity);
    toast := None;
    if requested.Some? {
      toast := OnUpdateQuantity(vm, userId, item, requested.value, fetchError, writeError, refetchError);
    }
  }

  /** The increase button of a card. */
  method PressIncrement(vm: CartViewModel, userId: string, item: CartItem,
                        fetchError: Option<string>, writeError: Option<string>, refetchError: Option<string>)
    returns (requested: Int32, toast: Option<string>)
    requires vm.Valid()
    modifies vm, vm.repo
    ensures vm.Valid()
    ensures requested == IncrementRequest(item.quantity)
    ensures vm.repo.table == old(vm.repo.table) || exists id ::
      vm.repo.table == old(vm.repo.table).Set(id,
        WithQuantity(if id in old(vm.repo.table.nodes) then Some(old(vm.repo.table.nodes)[id]) else None, requested))
  {
    requested := IncrementRequest(item.quantity);
    toast := OnUpdateQuantity(vm, userId, item, requested, fetchError, writeError, refetchError);
  }
}
