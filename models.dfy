/**
 * The application's records (`CartItemModel`, `ProductModel`, `UserModel`) and the
 * shape in which the realtime database holds a product: a node of named fields.
 */
module Models {
  import opened Wrappers

  const MinInt32: int := -0x8000_0000
  const MaxInt32: int := 0x7FFF_FFFF

  /** Kotlin's `Int`. */
  type Int32 = x: int | MinInt32 <= x <= MaxInt32

  /** Two's-complement wrap-around of a mathematical integer into `Int`. */
  function WrapInt32(x: int): (r: Int32)
    ensures MinInt32 <= x <= MaxInt32 ==> r == x
    ensures (r - x) % 0x1_0000_0000 == 0
  {
    (x - MinInt32) % 0x1_0000_0000 + MinInt32
  }

  /**
   * A price (Kotlin `Double`). The model never computes with prices; it only stores,
   * copies and compares them, so a real number stands for the double.
   */
  type Price = real

  /** `CartItemModel`: a product snapshot placed in one user's cart. */
  datatype CartItem = CartItem(
    cartItemId: string,
    productId: string,
    productName: string,
    productPrice: Price,
    productImage: string,
    quantity: Int32,
    userId: string)

  /** `CartItemModel()` with every default: the quantity defaults to 1. */
  const DefaultCartItem: CartItem := CartItem("", "", "", 0.0, "", 1, "")

  /** The bundled product image, used wherever a product or cart item has no image of its own. */
  const PlaceholderImage := "shoe1.png"

  /** `ProductModel` as a value. */
  datatype Product = Product(
    productId: string,
    productName: string,
    productPrice: Price,
    productDesc: string,
    image: string)

  /** `UserModel`: the profile record written after registration. */
  datatype UserProfile = UserProfile(
    userID: string,
    email: string,
    firstName: string,
    lastName: string,
    gender: string,
    dob: string,
    country: string)

  /** A database value under one field name. */
  datatype Field = Str(s: string) | Num(n: Price)

  /** A database node: its children by name. A node with no children does not exist. */
  type Node = map<string, Field>

  /** What `setValue(productModel)` writes: all five properties of the data class. */
  function EncodeProduct(p: Product): (n: Node)
    ensures |n.Keys| == 5 && "productId" in n && "image" in n
  {
    map["productId" := Str(p.productId), "productName" := Str(p.productName),
        "productPrice" := Num(p.productPrice), "productDesc" := Str(p.productDesc),
        "image" := Str(p.image)]
  }

  /** A string property: the default `""` when absent, no value when it holds a number. */
  function StrField(n: Node, name: string): (r: Option<string>)
    ensures name !in n ==> r == Some("")
    ensures name in n ==> (r.Some? <==> n[name].Str?)
    ensures name in n && r.Some? ==> n[name] == Str(r.value)
  {
    if name !in n then Some("") else match n[name]
      case Str(s) => Some(s)
      case Num(_) => None
  }

  /** A number property: the default `0.0` when absent, no value when it holds a string. */
  function NumField(n: Node, name: string): (r: Option<Price>)
    ensures name !in n ==> r == Some(0.0)
    ensures name in n ==> (r.Some? <==> n[name].Num?)
    ensures name in n && r.Some? ==> n[name] == Num(r.value)
  {
    if name !in n then Some(0.0) else match n[name]
      case Num(x) => Some(x)
      case Str(_) => None
  }

  /**
   * `getValue(ProductModel::class.java)`: a missing property keeps its default, an
   * unknown child is ignored, and an empty node reads as null. A property of the wrong
   * type does not decode (the SDK raises an exception there).
   */
  function DecodeProduct(n: Node): (r: Option<Product>)
    ensures r.Some? ==> n != map[]
    ensures r.Some? && "image" in n ==> n["image"] == Str(r.value.image)
    ensures r.Some? && "productId" !in n ==> r.value.productId == ""
  {
    if n == map[] then None
    else match (StrField(n, "productId"), StrField(n, "productName"), NumField(n, "productPrice"),
                StrField(n, "productDesc"), StrField(n, "image"))
      case (Some(id), Some(name), Some(price), Some(desc), Some(image)) =>
        Some(Product(id, name, price, desc, image))
      case _ => None
  }

  /** Reading back what `setValue(productModel)` wrote gives the same product. */
  lemma DecodeEncode(p: Product)
    ensures DecodeProduct(EncodeProduct(p)) == Some(p)
  {
    var n := EncodeProduct(p);
    assert "productId" in n;
  }
}
