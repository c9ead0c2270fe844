/**
 * Test/Item.cs: a named stack of weight. Its name and weight are public,
 * settable properties; equality and hashing look at the name only.
 */
module Items {
  import opened Wrappers

  /** C#'s `int`: a 32-bit two's-complement integer. */
  newtype int32 = x: int | -0x8000_0000 <= x < 0x8000_0000

  /** The value an Item holds at one instant: its name and its weight. */
  datatype Entry = Entry(name: string, weight: int)

  class Item {
    var Name: string
    var Weight: int32

    /** `new Item { Name = name, Weight = weight }`. */
    constructor (name: string, weight: int32)
      ensures Name == name && Weight == weight
    {
      Name := name;
      Weight := weight;
    }

    /** The item's current name and weight as a value. */
    function Value(): Entry
      reads this
    {
      Entry(Name, Weight as int)
    }

    /** A new object with the same name and weight (Test/Item.cs:18). */
    method Clone() returns (c: Item)
      ensures fresh(c)
      ensures c.Name == Name && c.Weight == Weight
    {
      c := new Item(Name, Weight);
    }

    /**
     * `Equals(Item?)`, which `Equals(object?)` forwards to: false for null,
     * otherwise a comparison of the names alone (Test/Item.cs:8-14).
     */
    predicate Equals(other: Item?)
      reads this, other
    {
      other != null && Name == other.Name
    }

    /** `GetHashCode`: a hash of the name alone (Test/Item.cs:16). */
    function GetHashCode(): int
      reads this
    {
      NameHash(Name)
    }
  }

  /**
   * Stands for `string.GetHashCode`, whose values are not part of this model:
   * any function of the string alone serves.
   */
  function NameHash(s: string): int
  {
    if s == [] then 0 else (31 * NameHash(s[..|s| - 1]) + s[|s| - 1] as int) % 0x1_0000_0000
  }

  /** The values of a sequence of items, in order. */
  function Values(s: seq<Item>): (r: seq<Entry>)
    reads s
    ensures |r| == |s|
    ensures forall i :: 0 <= i < |s| ==> r[i] == s[i].Value()
  {
    seq(|s|, i reads s requires 0 <= i < |s| => s[i].Value())
  }

  /** No object occurs twice. */
  ghost predicate Distinct(s: seq<Item>)
  {
    forall i, j :: 0 <= i < j < |s| ==> s[i] != s[j]
  }

  lemma ValuesAppend(s: seq<Item>, x: Item)
    ensures Values(s + [x]) == Values(s) + [x.Value()]
  {
  }

  lemma ValuesRemoveAt(s: seq<Item>, k: nat)
    requires k < |s|
    ensures Values(s[..k] + s[k + 1..]) == Values(s)[..k] + Values(s)[k + 1..]
    ensures Distinct(s) ==> Distinct(s[..k] + s[k + 1..])
  {
    var t := s[..k] + s[k + 1..];
    assert forall j :: 0 <= j < |t| ==> t[j] == s[if j < k then j else j + 1];
  }

  /** `x` as an optional value: `None` for `null`. */
  function ValueOf(x: Item?): Option<Entry>
    reads x
  {
    if x == null then None else Some(x.Value())
  }

  /** Equality ignores the weight in both directions: it holds exactly when the names agree. */
  lemma EqualsIsSameName(a: Item, b: Item)
    ensures a.Equals(b) <==> a.Name == b.Name
    ensures a.Equals(b) <==> b.Equals(a)
  {
  }

  /** Two items with one name and different weights are equal. */
  lemma EqualsIgnoresWeight(a: Item, b: Item)
    requires a.Name == b.Name && a.Weight != b.Weight
    ensures a.Equals(b)
  {
  }

  /** No item equals null. */
  lemma EqualsNullIsFalse(a: Item)
    ensures !a.Equals(null)
  {
  }

  /** Equal items hash alike, since the hash reads only the name. */
  lemma EqualItemsHashAlike(a: Item, b: Item)
    requires a.Equals(b)
    ensures a.GetHashCode() == b.GetHashCode()
  {
  }

  /**
   * A clone is independent of its original: setting the clone's weight
   * leaves the original as it was.
   */
  method SetCloneWeight(x: Item, w: int32) returns (c: Item)
    ensures fresh(c) && c.Name == x.Name && c.Weight == w
    ensures x.Name == old(x.Name) && x.Weight == old(x.Weight)
  {
    c := x.Clone();
    c.Weight := w;
  }
}
