/** The form's `items` field array: an ordered list of order lines that is
    changed only by appending at the end and removing at an index. Every row
    carries a key (the field array's `field.id`) handed out when the row is
    created and never handed out again. */
module FieldArrays {
  import opened Support
  import opened OrderModel

  /** No key occurs twice. */
  predicate Distinct(keys: seq<nat>)
  {
    forall i, j :: 0 <= i < j < |keys| ==> keys[i] != keys[j]
  }

  /** Removing a row never makes two remaining rows share a key. */
  lemma DropIndexKeepsDistinct(keys: seq<nat>, index: int)
    requires Distinct(keys)
    ensures Distinct(DropIndex(keys, index))
  {
    if 0 <= index < |keys| {
      var r := DropIndex(keys, index);
      forall i, j | 0 <= i < j < |r|
        ensures r[i] != r[j]
      {
        var i' := if i < index then i else i + 1;
        var j' := if j < index then j else j + 1;
        assert r[i] == keys[i'] && r[j] == keys[j'] && i' < j';
      }
    }
  }

  class FieldArray {
    var items: seq<Item>
    var keys: seq<nat>
    var nextKey: nat

    /** One key per row, keys pairwise different, all below the next key to
        be handed out. */
    ghost predicate Valid()
      reads this
    {
      && |keys| == |items|
      && Distinct(keys)
      && forall i :: 0 <= i < |keys| ==> keys[i] < nextKey
    }

    /** The rows the form starts with. */
    constructor (initial: seq<Item>)
      ensures Valid()
      ensures items == initial
    {
      items := initial;
      keys := seq(|initial|, i => i);
      nextKey := |initial|;
    }

    /** `append(item)`: one new row at the end, with a key no row has. */
    method Append(item: Item)
      requires Valid()
      modifies this
      ensures Valid()
      ensures items == old(items) + [item]
      ensures keys == old(keys) + [old(nextKey)]
      ensures old(nextKey) !in old(keys)
    {
      items := items + [item];
      keys := keys + [nextKey];
      nextKey := nextKey + 1;
    }

    /** `remove(index)`: the row at `index` is gone, every other row keeps
        its key and its value and the order is unchanged; an index that
        names no row changes nothing. */
    method Remove(index: int)
      requires Valid()
      modifies this
      ensures Valid()
      ensures items == DropIndex(old(items), index)
      ensures keys == DropIndex(old(keys), index)
      ensures nextKey == old(nextKey)
    {
      DropIndexKeepsDistinct(keys, index);
      items := DropIndex(items, index);
      keys := DropIndex(keys, index);
    }

    /** `setValue(`items.${index}.image`, images)`: only that row's image
        field changes. */
    method SetImage(index: int, images: seq<string>)
      requires Valid()
      requires 0 <= index < |items|
      modifies this
      ensures Valid()
      ensures keys == old(keys) && nextKey == old(nextKey)
      ensures items == old(items)[index := old(items)[index].(image := Images(images))]
    {
      items := items[index := items[index].(image := Images(images))];
    }
  }
}
