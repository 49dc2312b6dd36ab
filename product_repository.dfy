/**
 * `ProductRepositoryImplementation`: the `products` collection of the realtime database,
 * and the naming and URL rules of the image upload. As for the cart, each callback is
 * the method's result, and a rejected write or a cancelled read is an input carrying the
 * error's message.
 */
module ProductRepo {
  import opened Wrappers
  import opened Models
  import opened Store
  import opened Text

  const MsgProductAdded := "product added"
  const MsgProductDeleted := "product deleted"
  const MsgProductUpdated := "product updated"
  const MsgProductsFetched := "fetched"
  const MsgProductFetched := "product fetched"

  /** The public id used when the picked file's display name is unknown. */
  const DefaultUploadName := "uploaded_image"

  /** The public id of an upload: the display name without its last extension. */
  function UploadName(fileName: Option<string>): (r: string)
    ensures fileName.None? ==> r == DefaultUploadName
    ensures fileName.Some? && '.' !in fileName.value ==> r == fileName.value
    ensures fileName.Some? && '.' in fileName.value ==>
      exists ext :: '.' !in ext && fileName.value == r + "." + ext
  {
    match fileName
    case None => DefaultUploadName
    case Some(name) =>
      SubstringBeforeLastSplits(name, '.');
      SubstringBeforeLast(name, '.')
  }

  /** The URL handed back: every `http://` rewritten to `https://`. */
  function SecureUrl(url: string): (r: string)
    ensures !Occurs(r, "http://")
    ensures !Occurs(url, "http://") ==> r == url
  {
    NoInsecureSchemeLeft(url);
    assert !Occurs(url, "http://") ==> ReplaceAll(url, "http://", "https://") == url by {
      if !Occurs(url, "http://") {
        ReplaceAllWithoutOccurrence(url, "http://", "https://");
      }
    }
    ReplaceAll(url, "http://", "https://")
  }

  /**
   * A URL that starts with `http://` comes back starting with `https://`; when that was
   * its only `http://`, the rest is untouched.
   */
  lemma SecureUrlUpgradesScheme(url: string)
    ensures |url| >= 7 && url[..7] == "http://"
      ==> |SecureUrl(url)| >= 8 && SecureUrl(url)[..8] == "https://"
    ensures |url| >= 7 && url[..7] == "http://" && !Occurs(url[7..], "http://")
      ==> SecureUrl(url) == "https://" + url[7..]
  {
    if |url| >= 7 && url[..7] == "http://" {
      assert SecureUrl(url) == "https://" + ReplaceAll(url[7..], "http://", "https://");
      if !Occurs(url[7..], "http://") {
        ReplaceAllWithoutOccurrence(url[7..], "http://", "https://");
      }
    }
  }

  /**
   * What the image host does with one upload request: it fails (any exception: the file
   * cannot be opened, the request fails, `url` is not a string), or it answers, with or
   * without a `url` entry.
   */
  datatype UploadResponse = UploadFailed | Uploaded(url: Option<string>)

  /**
   * `uploadImage`: `host` answers the request made with the given public id. The caller
   * gets the secured URL, or null for every failure.
   */
  function UploadImage(fileName: Option<string>, host: string -> UploadResponse): (r: Option<string>)
    ensures var response := host(UploadName(fileName));
      && (r.Some? <==> response.Uploaded? && response.url.Some?)
      && (r.Some? ==> r.value == SecureUrl(response.url.value) && !Occurs(r.value, "http://"))
  {
    match host(UploadName(fileName))
    case UploadFailed => None
    case Uploaded(url) =>
      match url
      case None => None
      case Some(u) => Some(SecureUrl(u))
  }

  /** A `ProductModel` instance: its fields are `var`s, and `addProduct` assigns one of them. */
  class ProductModel {
    var productId: string
    var productName: string
    var productPrice: Price
    var productDesc: string
    var image: string

    constructor (p: Product)
      ensures Value() == p
    {
      productId, productName, productPrice, productDesc, image :=
        p.productId, p.productName, p.productPrice, p.productDesc, p.image;
    }

    function Value(): Product
      reads this
    {
      Product(productId, productName, productPrice, productDesc, image)
    }
  }

  /** The product a read of the child `productId` decodes, if any. */
  function LookupProduct(t: Table<Node>, productId: string): (r: Option<Product>)
    ensures r.Some? ==> productId in t.nodes && DecodeProduct(t.nodes[productId]) == r
    ensures productId !in t.nodes ==> r.None?
  {
    if productId in t.nodes then DecodeProduct(t.nodes[productId]) else None
  }

  /** The decodable children, in child order. */
  function Decoded(keys: seq<string>, nodes: map<string, Node>): seq<Product> {
    if keys == [] then []
    else
      var last := keys[|keys| - 1];
      var p := if last in nodes then DecodeProduct(nodes[last]) else None;
      Decoded(keys[..|keys| - 1], nodes) + (if p.Some? then [p.value] else [])
  }

  /** A product is delivered exactly when some child decodes to it; nothing else is added. */
  lemma {:induction false} DecodedSelect(keys: seq<string>, nodes: map<string, Node>)
    ensures |Decoded(keys, nodes)| <= |keys|
    ensures forall p :: p in Decoded(keys, nodes) <==>
      exists k :: k in keys && k in nodes && DecodeProduct(nodes[k]) == Some(p)
  {
    if keys != [] {
      var init, last := keys[..|keys| - 1], keys[|keys| - 1];
      DecodedSelect(init, nodes);
      assert keys == init + [last];
      forall p: Product | exists k :: k in keys && k in nodes && DecodeProduct(nodes[k]) == Some(p)
        ensures p in Decoded(keys, nodes)
      {
        var k :| k in keys && k in nodes && DecodeProduct(nodes[k]) == Some(p);
        if k != last {
          assert k in init;
        }
      }
    }
  }

  /** The node `setValue(data)` leaves: the non-null entries, and nothing of the old node. */
  function Written(data: map<string, Option<Field>>): (n: Node)
    ensures forall f :: f in n <==> f in data && data[f].Some?
    ensures forall f :: f in n ==> n[f] == data[f].value
  {
    map f | f in data && data[f].Some? :: data[f].value
  }

  class ProductRepository {
    /** The `products` reference. */
    var table: Table<Node>

    /** A node without children does not exist in the database. */
    ghost predicate Valid()
      reads this
    {
      table.Valid() && forall k :: k in table.nodes ==> table.nodes[k] != map[]
    }

    constructor ()
      ensures Valid() && table == Table([], map[])
    {
      table := Empty();
    }

    /**
     * `addProduct`: a fresh key is written into the caller's model first, whether or not
     * the write then succeeds, and the whole model is stored under it.
     */
    method AddProduct(model: ProductModel, writeError: Option<string>) returns (ok: bool, msg: string)
      requires Valid()
      modifies this, model
      ensures Valid()
      ensures model.productId !in old(table.nodes)
      ensures model.Value() == old(model.Value()).(productId := model.productId)
      ensures ok == writeError.None?
      ensures ok ==> msg == MsgProductAdded && table == old(table).Set(model.productId, EncodeProduct(model.Value()))
      ensures !ok ==> msg == writeError.value && table == old(table)
    {
      var id := FreshKey(table);
      model.productId := id;
      if writeError.None? {
        table := table.Set(id, EncodeProduct(model.Value()));
        ok, msg := true, MsgProductAdded;
      } else {
        ok, msg := false, writeError.value;
      }
    }

    /** `deleteProduct`: only the child `productId` goes. */
    method DeleteProduct(productId: string, removeError: Option<string>) returns (ok: bool, msg: string)
      requires Valid()
      modifies this
      ensures Valid()
      ensures ok == removeError.None?
      ensures table == if ok then old(table).Remove(productId) else old(table)
      ensures msg == if ok then MsgProductDeleted else removeError.value
    {
      if removeError.None? {
        table := table.Remove(productId);
        ok, msg := true, MsgProductDeleted;
      } else {
        ok, msg := false, removeError.value;
      }
    }

    /**
     * `updateProduct`: `setValue(data)` on the child replaces the whole node; it does not
     * merge. A map with no non-null entry deletes the node.
     */
    method UpdateProduct(productId: string, data: map<string, Option<Field>>, writeError: Option<string>)
      returns (ok: bool, msg: string)
      requires Valid()
      modifies this
      ensures Valid()
      ensures ok == writeError.None?
      ensures ok && Written(data) != map[] ==> table == old(table).Set(productId, Written(data))
      ensures ok && Written(data) == map[] ==> table == old(table).Remove(productId)
      ensures !ok ==> table == old(table)
      ensures msg == if ok then MsgProductUpdated else writeError.value
    {
      if writeError.None? {
        var node := Written(data);
        if node == map[] {
          table := table.Remove(productId);
        } else {
          table := table.Set(productId, node);
        }
        ok, msg := true, MsgProductUpdated;
      } else {
        ok, msg := false, writeError.value;
      }
    }

    /** `getAllProducts`: every decodable product in child order; no callback at all for an empty collection. */
    method GetAllProducts(queryError: Option<string>) returns (d: Delivery<seq<Product>>)
      requires Valid()
      ensures queryError.Some? ==> d == Callback([], false, queryError.value)
      ensures queryError.None? && table.nodes == map[] ==> d == NoCallback
      ensures queryError.None? && table.nodes != map[] ==>
        d == Callback(Decoded(table.keys, table.nodes), true, MsgProductsFetched)
    {
      if queryError.Some? {
        return Callback([], false, queryError.value);
      }
      if table.nodes == map[] {
        return NoCallback;
      }
      var keys := table.keys;
      var all: seq<Product> := [];
      var i := 0;
      while i < |keys|
        invariant 0 <= i <= |keys|
        invariant all == Decoded(keys[..i], table.nodes)
      {
        assert keys[..i + 1][..i] == keys[..i];
        var p := DecodeProduct(table.nodes[keys[i]]);
        if p.Some? {
          all := all + [p.value];
        }
        i := i + 1;
      }
      assert keys[..i] == keys;
      d := Callback(all, true, MsgProductsFetched);
    }

    /** `getProductById`: a callback only for a child that exists and decodes, or for a cancelled read. */
    method GetProductById(productId: string, queryError: Option<string>) returns (d: Delivery<Option<Product>>)
      requires Valid()
      ensures queryError.Some? ==> d == Callback(None, false, queryError.value)
      ensures queryError.None? && LookupProduct(table, productId).None? ==> d == NoCallback
      ensures queryError.None? && LookupProduct(table, productId).Some? ==>
        d == Callback(LookupProduct(table, productId), true, MsgProductFetched)
    {
      if queryError.Some? {
        return Callback(None, false, queryError.value);
      }
      if productId in table.nodes {
        var p := DecodeProduct(table.nodes[productId]);
        if p.Some? {
          return Callback(p, true, MsgProductFetched);
        }
      }
      d := NoCallback;
    }
  }

  /** A product added under a key reads back, by that key, as exactly what was stored. */
  lemma AddedProductReadsBack(t: Table<Node>, id: string, p: Product)
    ensures LookupProduct(t.Set(id, EncodeProduct(p)), id) == Some(p)
  {
    DecodeEncode(p);
  }
}
