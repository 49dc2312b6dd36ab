/**
 * `CartRepositoryImplementation`: the `cart` collection of the realtime database and the
 * five operations on it. Each store callback is modelled as the method's result; whether
 * the database accepts a write or cancels a read is an input (`Some(cause)` for a failure,
 * `cause` being the exception's message).
 */
module CartRepo {
  import opened Wrappers
  import opened Models
  import opened Store

  /**
   * A child of `cart`: a whole item, or the bare `quantity` child that `updateQuantity`
   * creates when it writes under an id that holds no item.
   */
  datatype CartNode = Item(item: CartItem) | QuantityOnly(quantity: Int32)

  const MsgAdded := "Item added to cart successfully"
  const MsgAddFailed := "Failed to add item to cart: "
  const MsgRemoved := "Item removed from cart successfully"
  const MsgRemoveFailed := "Failed to remove item from cart: "
  const MsgQuantityUpdated := "Quantity updated successfully"
  const MsgQuantityFailed := "Failed to update quantity: "
  const MsgFetched := "Cart items fetched successfully"
  const MsgFetchFailed := "Failed to fetch cart items: "
  const MsgAlreadyEmpty := "Cart is already empty"
  const MsgCleared := "Cart cleared successfully"
  const MsgClearFailed := "Failed to clear cart: "

  /** The child `k` is an item of user `userId`: it is selected by `orderByChild("userId").equalTo(userId)`. */
  predicate Owns(nodes: map<string, CartNode>, k: string, userId: string) {
    k in nodes && nodes[k].Item? && nodes[k].item.userId == userId
  }

  /** The node after `child("quantity").setValue(q)`: only the quantity changes. */
  function WithQuantity(node: Option<CartNode>, q: Int32): (r: CartNode)
    ensures node.Some? && node.value.Item? ==> r == Item(node.value.item.(quantity := q))
    ensures node.None? || node.value.QuantityOnly? ==> r == QuantityOnly(q)
  {
    match node
    case Some(Item(i)) => Item(i.(quantity := q))
    case _ => QuantityOnly(q)
  }

  /** The keys of the user's items, in child order. */
  function UserKeys(keys: seq<string>, nodes: map<string, CartNode>, userId: string): seq<string> {
    if keys == [] then []
    else
      var last := keys[|keys| - 1];
      UserKeys(keys[..|keys| - 1], nodes, userId) + (if Owns(nodes, last, userId) then [last] else [])
  }

  /** The user's items, in child order. */
  function UserItems(keys: seq<string>, nodes: map<string, CartNode>, userId: string): seq<CartItem> {
    if keys == [] then []
    else
      var last := keys[|keys| - 1];
      UserItems(keys[..|keys| - 1], nodes, userId)
        + (if Owns(nodes, last, userId) then [nodes[last].item] else [])
  }

  /** A key is selected exactly when it is a child holding an item of the user. */
  lemma {:induction false} UserKeysSelect(keys: seq<string>, nodes: map<string, CartNode>, userId: string)
    ensures forall k :: k in UserKeys(keys, nodes, userId) <==> k in keys && Owns(nodes, k, userId)
  {
    if keys != [] {
      var init := keys[..|keys| - 1];
      UserKeysSelect(init, nodes, userId);
      assert keys == init + [keys[|keys| - 1]];
    }
  }

  /** An item is delivered exactly when some child holds it and it belongs to the user. */
  lemma {:induction false} UserItemsSelect(keys: seq<string>, nodes: map<string, CartNode>, userId: string)
    ensures forall x :: x in UserItems(keys, nodes, userId) <==>
      x.userId == userId && exists k :: k in keys && k in nodes && nodes[k] == Item(x)
  {
    if keys != [] {
      var init := keys[..|keys| - 1];
      var last := keys[|keys| - 1];
      UserItemsSelect(init, nodes, userId);
      assert keys == init + [last];
      forall x: CartItem | x.userId == userId && (exists k :: k in keys && k in nodes && nodes[k] == Item(x))
        ensures x in UserItems(keys, nodes, userId)
      {
        var k :| k in keys && k in nodes && nodes[k] == Item(x);
        if k != last {
          assert k in init;
        }
      }
    }
  }

  /** A cart whose every item of the user has been removed delivers nothing to that user. */
  lemma {:induction false} NoUserItemsLeft(keys: seq<string>, nodes: map<string, CartNode>, userId: string)
    requires forall k :: k in nodes ==> !Owns(nodes, k, userId)
    ensures UserItems(keys, nodes, userId) == []
  {
    if keys != [] {
      NoUserItemsLeft(keys[..|keys| - 1], nodes, userId);
    }
  }

  /** The children that the deletes of `clearCart` remove. */
  ghost function Deleted(targets: seq<string>, failing: set<string>): set<string> {
    set k | k in targets && k !in failing
  }

  /** One more delete: the next target joins the removed children unless its delete fails. */
  lemma DeletedStep(targets: seq<string>, j: nat, failing: set<string>)
    requires j < |targets|
    ensures Deleted(targets[..j + 1], failing)
      == Deleted(targets[..j], failing) + (if targets[j] in failing then {} else {targets[j]})
    ensures (forall k :: k in targets[..j + 1] ==> k !in failing)
      == ((forall k :: k in targets[..j] ==> k !in failing) && targets[j] !in failing)
  {
    assert targets[..j + 1] == targets[..j] + [targets[j]];
  }

  class CartRepository {
    /** The `cart` reference. */
    var table: Table<CartNode>

    /** Every stored item carries its own key as `cartItemId`. */
    ghost predicate Valid()
      reads this
    {
      table.Valid() &&
      forall k :: k in table.nodes && table.nodes[k].Item? ==> table.nodes[k].item.cartItemId == k
    }

    constructor ()
      ensures Valid() && table == Table([], map[])
    {
      table := Empty();
    }

    /** `addToCart`: a copy of the item, with `cartItemId` set to a fresh key, is written under that key. */
    method AddToCart(cartItem: CartItem, writeError: Option<string>) returns (ok: bool, msg: string)
      requires Valid()
      modifies this
      ensures Valid()
      ensures ok == writeError.None?
      ensures ok ==> msg == MsgAdded
      ensures ok ==> exists key ::
        key !in old(table.nodes) && table == old(table).Set(key, Item(cartItem.(cartItemId := key)))
      ensures !ok ==> msg == MsgAddFailed + writeError.value && table == old(table)
    {
      var cartItemId := FreshKey(table);
      var newCartItem := cartItem.(cartItemId := cartItemId);
      if writeError.None? {
        table := table.Set(cartItemId, Item(newCartItem));
        ok, msg := true, MsgAdded;
      } else {
        ok, msg := false, MsgAddFailed + writeError.value;
      }
    }

    /** `removeFromCart`: only the child named `cartItemId` goes. */
    method RemoveFromCart(cartItemId: string, removeError: Option<string>) returns (ok: bool, msg: string)
      requires Valid()
      modifies this
      ensures Valid()
      ensures ok == removeError.None?
      ensures table == if ok then old(table).Remove(cartItemId) else old(table)
      ensures msg == if ok then MsgRemoved else MsgRemoveFailed + removeError.value
    {
      if removeError.None? {
        table := table.Remove(cartItemId);
        ok, msg := true, MsgRemoved;
      } else {
        ok, msg := false, MsgRemoveFailed + removeError.value;
      }
    }

    /** `updateQuantity`: writes the `quantity` child of one node and nothing else. */
    method UpdateQuantity(cartItemId: string, quantity: Int32, writeError: Option<string>) returns (ok: bool, msg: string)
      requires Valid()
      modifies this
      ensures Valid()
      ensures ok == writeError.None?
      ensures ok ==> table == old(table).Set(cartItemId,
        WithQuantity(if cartItemId in old(table.nodes) then Some(old(table.nodes)[cartItemId]) else None, quantity))
      ensures !ok ==> table == old(table)
      ensures msg == if ok then MsgQuantityUpdated else MsgQuantityFailed + writeError.value
    {
      if writeError.None? {
        var node := if cartItemId in table.nodes then Some(table.nodes[cartItemId]) else None;
        table := table.Set(cartItemId, WithQuantity(node, quantity));
        ok, msg := true, MsgQuantityUpdated;
      } else {
        ok, msg := false, MsgQuantityFailed + writeError.value;
      }
    }

    /** `getCartItems`: the items of the user in child order; an empty result is still a success. */
    method GetCartItems(userId: string, queryError: Option<string>) returns (items: seq<CartItem>, ok: bool, msg: string)
      requires Valid()
      ensures ok == queryError.None?
      ensures ok ==> msg == MsgFetched && items == UserItems(table.keys, table.nodes, userId)
      ensures !ok ==> msg == MsgFetchFailed + queryError.value && items == []
    {
      if queryError.Some? {
        return [], false, MsgFetchFailed + queryError.value;
      }
      var keys := table.keys;
      items := [];
      var i := 0;
      while i < |keys|
        invariant 0 <= i <= |keys|
        invariant items == UserItems(keys[..i], table.nodes, userId)
      {
        assert keys[..i + 1][..i] == keys[..i];
        if Owns(table.nodes, keys[i], userId) {
          items := items + [table.nodes[keys[i]].item];
        }
        i := i + 1;
      }
      assert keys[..i] == keys;
      ok, msg := true, MsgFetched;
    }

    /** The children that `clearCart`'s single read selects (the loop that fills `removeTasks`). */
    method SelectUserKeys(userId: string) returns (targets: seq<string>)
      requires Valid()
      ensures targets == UserKeys(table.keys, table.nodes, userId)
    {
      var keys := table.keys;
      targets := [];
      var i := 0;
      while i < |keys|
        invariant 0 <= i <= |keys|
        invariant targets == UserKeys(keys[..i], table.nodes, userId)
      {
        assert keys[..i + 1][..i] == keys[..i];
        if Owns(table.nodes, keys[i], userId) {
          targets := targets + [keys[i]];
        }
        i := i + 1;
      }
      assert keys[..i] == keys;
    }

    /** The deletes of `clearCart`, one per selected child; the children in `failing` stay. */
    method RemoveEach(targets: seq<string>, failing: set<string>) returns (allRemoved: bool)
      requires Valid()
      modifies this
      ensures Valid()
      ensures table.nodes == old(table.nodes) - Deleted(targets, failing)
      ensures table.keys == Keep(old(table.keys), Deleted(targets, failing))
      ensures allRemoved == forall k :: k in targets ==> k !in failing
    {
      allRemoved := true;
      ghost var removed: set<string> := {};
      var j := 0;
      while j < |targets|
        invariant 0 <= j <= |targets|
        invariant Valid()
        invariant removed == Deleted(targets[..j], failing)
        invariant table.nodes == old(table.nodes) - removed
        invariant table.keys == Keep(old(table.keys), removed)
        invariant allRemoved == forall k :: k in targets[..j] ==> k !in failing
      {
        DeletedStep(targets, j, failing);
        if targets[j] !in failing {
          table.RemoveMore(old(table), removed, targets[j]);
          table := table.Remove(targets[j]);
          removed := removed + {targets[j]};
        } else {
          allRemoved := false;
        }
        j := j + 1;
      }
      assert targets[..j] == targets;
    }

    /**
     * `clearCart`: one read of the user's items, then one delete per item. `failing` names
     * the deletes the database rejects; `failCause` is the message of the combined failure.
     */
    method ClearCart(userId: string, queryError: Option<string>, failing: set<string>, failCause: string)
      returns (ok: bool, msg: string)
      requires Valid()
      modifies this
      ensures Valid()
      ensures queryError.Some? ==> !ok && msg == MsgClearFailed + queryError.value && table == old(table)
      ensures queryError.None? && UserKeys(old(table.keys), old(table.nodes), userId) == [] ==>
        ok && msg == MsgAlreadyEmpty && table == old(table)
      ensures queryError.None? ==>
        var targets := UserKeys(old(table.keys), old(table.nodes), userId);
        && table.nodes == old(table.nodes) - Deleted(targets, failing)
        && table.keys == Keep(old(table.keys), Deleted(targets, failing))
        && ok == (forall k :: k in targets ==> k !in failing)
        && (targets != [] ==> msg == if ok then MsgCleared else MsgClearFailed + failCause)
    {
      if queryError.Some? {
        return false, MsgClearFailed + queryError.value;
      }
      var targets := SelectUserKeys(userId);
      if targets == [] {
        return true, MsgAlreadyEmpty;
      }
      var allRemoved := RemoveEach(targets, failing);
      ok := allRemoved;
      msg := if ok then MsgCleared else MsgClearFailed + failCause;
    }
  }

  /**
   * After a fully successful clear, the user's cart reads back empty, and every child
   * that is not an item of that user is still there, unchanged.
   */
  lemma ClearedCart(before: map<string, CartNode>, after: map<string, CartNode>, keys: seq<string>,
                    afterKeys: seq<string>, userId: string, failing: set<string>)
    requires forall k :: k in before <==> k in keys
    requires forall k :: k in UserKeys(keys, before, userId) ==> k !in failing
    requires after == before - (set k | k in UserKeys(keys, before, userId) && k !in failing)
    ensures UserItems(afterKeys, after, userId) == []
    ensures forall k :: k in before && !Owns(before, k, userId) ==> k in after && after[k] == before[k]
  {
    UserKeysSelect(keys, before, userId);
    NoUserItemsLeft(afterKeys, after, userId);
  }
}
