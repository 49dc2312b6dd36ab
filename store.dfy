/**
 * A collection of the realtime database (`cart`, `products`) reduced to a keyed table:
 * the children in key order and the value under each key.
 */
module Store {
  import opened Wrappers

  predicate Distinct(s: seq<string>) {
    forall i, j :: 0 <= i < j < |s| ==> s[i] != s[j]
  }

  /** `s` without the element `k`, order kept. */
  function Without(s: seq<string>, k: string): (r: seq<string>)
    ensures forall x :: x in r <==> x in s && x != k
    ensures Distinct(s) ==> Distinct(r)
    ensures |r| <= |s|
    ensures k !in s ==> r == s
  {
    if s == [] then []
    else
      assert Distinct(s) ==> Distinct(s[1..]) && s[0] !in s[1..] by {
        if Distinct(s) {
          forall i, j | 0 <= i < j < |s[1..]| ensures s[1..][i] != s[1..][j] {
            assert s[1..][i] == s[i + 1] && s[1..][j] == s[j + 1];
          }
        }
      }
      if s[0] == k then Without(s[1..], k)
      else [s[0]] + Without(s[1..], k)
  }

  /** The children of `s` that are not in `gone`, in their order. */
  function Keep(s: seq<string>, gone: set<string>): (r: seq<string>)
    ensures forall x :: x in r <==> x in s && x !in gone
    ensures |r| <= |s|
    ensures (forall x :: x in s ==> x !in gone) ==> r == s
  {
    if s == [] then []
    else if s[0] in gone then Keep(s[1..], gone)
    else [s[0]] + Keep(s[1..], gone)
  }

  /** Removing one more child from a filtered list is filtering by one more key. */
  lemma {:induction false} WithoutKeep(s: seq<string>, gone: set<string>, k: string)
    ensures Without(Keep(s, gone), k) == Keep(s, gone + {k})
  {
    if s != [] {
      WithoutKeep(s[1..], gone, k);
      if s[0] !in gone {
        var t := [s[0]] + Keep(s[1..], gone);
        assert t[0] == s[0] && t[1..] == Keep(s[1..], gone);
      }
    }
  }

  datatype Table<V> = Table(keys: seq<string>, nodes: map<string, V>) {
    /** The children list names every stored key exactly once. */
    ghost predicate Valid() {
      Distinct(keys) && forall k :: k in nodes <==> k in keys
    }

    /** `child(k).setValue(v)`: a new key joins the end of the children list. */
    function Set(k: string, v: V): (r: Table<V>)
      ensures r.nodes == nodes[k := v]
      ensures Valid() ==> r.Valid()
      ensures k in keys ==> r.keys == keys
    {
      if k in keys then Table(keys, nodes[k := v])
      else Table(keys + [k], nodes[k := v])
    }

    /**
     * One more delete in a run of deletes: a table that is `t0` with the children in
     * `gone` removed becomes `t0` with `gone + {k}` removed, order kept.
     */
    lemma RemoveMore(t0: Table<V>, gone: set<string>, k: string)
      requires nodes == t0.nodes - gone && keys == Keep(t0.keys, gone)
      ensures Remove(k).nodes == t0.nodes - (gone + {k})
      ensures Remove(k).keys == Keep(t0.keys, gone + {k})
    {
      WithoutKeep(t0.keys, gone, k);
    }

    /** `child(k).removeValue()`: removing an absent key succeeds and changes nothing. */
    function Remove(k: string): (r: Table<V>)
      ensures r.nodes == nodes - {k}
      ensures Valid() ==> r.Valid()
      ensures k !in keys ==> r.keys == keys
    {
      Table(Without(keys, k), nodes - {k})
    }
  }

  function Empty<V>(): (t: Table<V>)
    ensures t.Valid() && t.nodes == map[]
  {
    Table([], map[])
  }

  /**
   * `push().key`: a key that names no child yet. The database derives it from the clock
   * and randomness; the model takes a key longer than every stored one.
   */
  method FreshKey<V>(t: Table<V>) returns (key: string)
    requires t.Valid()
    ensures key !in t.nodes && key !in t.keys
  {
    var longest: nat := 0;
    var i := 0;
    while i < |t.keys|
      invariant 0 <= i <= |t.keys|
      invariant forall j :: 0 <= j < i ==> |t.keys[j]| <= longest
    {
      if |t.keys[i]| > longest {
        longest := |t.keys[i]|;
      }
      i := i + 1;
    }
    key := seq(longest + 1, _ => '-');
  }

  /** A delivered list as a holder's list of nullable entries. */
  function Posted<T>(items: seq<T>): seq<Option<T>> {
    seq(|items|, i requires 0 <= i < |items| => Some(items[i]))
  }

  /** Result of a read: the listener either makes one callback or none at all. */
  datatype Delivery<T> = NoCallback | Callback(data: T, success: bool, message: string)
}
