/**
 * Test/Inventory.cs: the inventory as a mutable object. It owns a list of
 * Item objects, which it alone can reach, and the cached total weight. Each
 * public operation is one critical section under the inventory's lock, so
 * each is modelled as one sequential step.
 */
module Inventories {
  import opened Wrappers
  import opened Items
  import opened InventorySpec

  /**
   * `List<Item>.IndexOf(x)`, which `List<Item>.Remove(x)` uses: the first
   * stored item that `Equals` x, so the first with x's name.
   */
  function IndexOfEqual(s: seq<Item>, x: Item): (r: Option<nat>)
    reads s, x
    ensures r.Some? ==> r.value < |s| && s[r.value].Equals(x)
    ensures r.Some? ==> forall j :: 0 <= j < r.value ==> !s[j].Equals(x)
    ensures r.None? <==> forall j :: 0 <= j < |s| ==> !s[j].Equals(x)
  {
    if s == [] then None
    else if s[0].Equals(x) then Some(0)
    else match IndexOfEqual(s[1..], x)
      case None => None
      case Some(k) => Some(k + 1)
  }

  /** Because equality is by name, IndexOf finds what a lookup by name finds. */
  lemma IndexOfEqualIsLookup(s: seq<Item>, x: Item)
    ensures IndexOfEqual(s, x) == Lookup(Values(s), x.Name)
  {
  }

  class Inventory {
    var items: seq<Item>
    var currentWeight: int32

    /** The abstract state: the stored items as values, and the cached total. */
    ghost function State(): Store
      reads this, items
    {
      Store(Values(items), currentWeight as int)
    }

    /**
     * The inventory's invariant: each stored item is its own object (none
     * is stored twice), and the state satisfies Inv.
     */
    ghost predicate Valid()
      reads this, items
    {
      Distinct(items) && Inv(State())
    }

    /** `new Inventory()`: no items, weight 0 (Test/Inventory.cs:7, 10). */
    constructor ()
      ensures Valid() && State() == Empty
    {
      items := [];
      currentWeight := 0;
      new;
      assert Values(items) == [];
    }

    /** The `CurrentWeight` property: the sum of the stored weights, within the cap. */
    function CurrentWeight(): (w: int32)
      reads this, items
      requires Valid()
      ensures w as int == Total(Values(items))
      ensures 0 <= w as int <= MaxWeight
    {
      currentWeight
    }

    /**
     * `AddItem`: the state becomes what Add says, or stays as it was and the
     * error is reported. Merging changes the stored item in place; a new
     * name stores a clone, so the caller's object is never stored.
     */
    method AddItem(item: Item?) returns (r: Outcome<Error>)
      requires Valid()
      modifies this, items
      ensures Valid()
      ensures var res := Add(old(State()), old(ValueOf(item)));
              if res.Success? then r == Pass && State() == res.value
              else r == Fail(res.error) && State() == old(State())
      ensures |old(items)| <= |items| && items[..|old(items)|] == old(items)
      ensures forall j :: |old(items)| <= j < |items| ==> fresh(items[j])
    {
      if item == null {
        return Fail(ArgumentNull);
      }
      if item.Weight <= 0 {
        return Fail(InvalidArgument);
      }
      var name, w := item.Name, item.Weight;
      var found := Lookup(Values(items), name);
      match found
      case Some(i) =>
        if currentWeight as int + w as int > MaxWeight {
          return Fail(CapacityExceeded);
        }
        Merge(i, w);
        r := Pass;
      case None =>
        if currentWeight as int + w as int > MaxWeight {
          return Fail(CapacityExceeded);
        }
        var copy := item.Clone();
        Append(copy);
        r := Pass;
    }

    /** The merge step of AddItem: `existingItem.Weight += w; _currentWeight += w`. */
    method Merge(i: nat, w: int32)
      requires Valid() && i < |items| && w > 0 && currentWeight as int + w as int <= MaxWeight
      modifies this, items[i]
      ensures Valid() && items == old(items)
      ensures State() == Store(SetWeight(old(State()).entries, i, old(State()).entries[i].weight + w as int),
                               old(State()).weight + w as int)
    {
      EntryWithinTotal(Values(items), i);
      TotalSetWeight(Values(items), i, Values(items)[i].weight + w as int);
      ghost var before := Values(items);
      var stored := items[i];
      stored.Weight, currentWeight := stored.Weight + w, currentWeight + w;
      assert forall j :: 0 <= j < |items| ==> Values(items)[j] == before[i := stored.Value()][j];
      assert Values(items) == before[i := stored.Value()];
    }

    /** The append step of AddItem: `_items.Add(copy); _currentWeight += copy.Weight`. */
    method Append(copy: Item)
      requires Valid() && copy !in items && copy.Weight > 0
      requires currentWeight as int + copy.Weight as int <= MaxWeight
      requires forall j :: 0 <= j < |items| ==> items[j].Name != copy.Name
      modifies this
      ensures Valid() && items == old(items) + [copy]
      ensures State() == Store(old(State()).entries + [copy.Value()], old(State()).weight + copy.Weight as int)
    {
      TotalAppend(Values(items), copy.Value());
      ValuesAppend(items, copy);
      items, currentWeight := items + [copy], currentWeight + copy.Weight;
    }

    /**
     * `RemoveItem`: the state becomes what Remove says and its flag is
     * returned, or the state stays as it was and the error is reported.
     */
    method RemoveItem(item: Item?) returns (r: Result<bool, Error>)
      requires Valid()
      modifies this, items
      ensures Valid()
      ensures var res := Remove(old(State()), old(ValueOf(item)));
              if res.Success? then r == Success(res.value.0) && State() == res.value.1
              else r == Failure(res.error) && State() == old(State())
      ensures forall x | x in items :: x in old(items)
    {
      if item == null {
        return Failure(ArgumentNull);
      }
      if item.Weight <= 0 {
        return Failure(InvalidArgument);
      }
      var name, w := item.Name, item.Weight;
      var found := Lookup(Values(items), name);
      match found
      case None =>
        return Success(false);
      case Some(i) =>
        var stored := items[i];
        if stored.Weight < w {
          return Failure(InsufficientQuantity);
        }
        if stored.Weight == w {
          IndexOfEqualIsLookup(items, stored);
          var k := IndexOfEqual(items, stored).value;
          DropAt(k);
        } else {
          Reduce(i, w);
        }
        r := Success(true);
    }

    /** The partial step of RemoveItem: `existingItem.Weight -= w; _currentWeight -= w`. */
    method Reduce(i: nat, w: int32)
      requires Valid() && i < |items| && 0 < w < items[i].Weight
      modifies this, items[i]
      ensures Valid() && items == old(items)
      ensures State() == Store(SetWeight(old(State()).entries, i, old(State()).entries[i].weight - w as int),
                               old(State()).weight - w as int)
    {
      EntryWithinTotal(Values(items), i);
      TotalSetWeight(Values(items), i, Values(items)[i].weight - w as int);
      ghost var before := Values(items);
      var stored := items[i];
      stored.Weight, currentWeight := stored.Weight - w, currentWeight - w;
      assert forall j :: 0 <= j < |items| ==> Values(items)[j] == before[i := stored.Value()][j];
      assert Values(items) == before[i := stored.Value()];
    }

    /**
     * The step that drops a stored item, `_items.Remove(existingItem)` and
     * the matching decrease of `_currentWeight`.
     */
    method DropAt(k: nat)
      requires Valid() && k < |items|
      modifies this
      ensures Valid() && items == old(items[..k] + items[k + 1..])
      ensures forall x | x in items :: x in old(items)
      ensures State() == Store(RemoveAt(old(State()).entries, k), old(State()).weight - old(State()).entries[k].weight)
    {
      ValuesRemoveAt(items, k);
      RemoveAtKeepsUnique(Values(items), k);
      TotalRemoveAt(Values(items), k);
      TotalNonNegative(RemoveAt(Values(items), k));
      EntryWithinTotal(Values(items), k);
      items, currentWeight := items[..k] + items[k + 1..], currentWeight - items[k].Weight;
    }

    /** `RemoveItemByName`: the state becomes what RemoveByName says and its flag is returned. */
    method RemoveItemByName(name: string) returns (r: bool)
      requires Valid()
      modifies this
      ensures Valid()
      ensures (r, State()) == RemoveByName(old(State()), name)
      ensures forall x | x in items :: x in old(items)
    {
      var found := Lookup(Values(items), name);
      match found
      case None =>
        return false;
      case Some(i) =>
        var stored := items[i];
        IndexOfEqualIsLookup(items, stored);
        var k := IndexOfEqual(items, stored).value;
        DropAt(k);
        r := true;
    }

    /** `Clear`: no items, weight 0. */
    method Clear()
      requires Valid()
      modifies this
      ensures Valid() && State() == Empty
    {
      items := [];
      currentWeight := 0;
      assert Values(items) == [];
    }

    /** The `Items` property: new copies of the stored items, in storage order. */
    method Items() returns (r: seq<Item>)
      requires Valid()
      ensures Values(r) == State().entries
      ensures forall j :: 0 <= j < |r| ==> fresh(r[j])
    {
      r := CloneAll(items);
    }

    /** `GetEnumerator`: the same snapshot as `Items`, taken at the call. */
    method GetEnumerator() returns (r: seq<Item>)
      requires Valid()
      ensures Values(r) == State().entries
      ensures forall j :: 0 <= j < |r| ==> fresh(r[j])
    {
      r := CloneAll(items);
    }

    /**
     * `FindItems`: new copies of the stored items whose name contains the
     * term, ignoring case, in storage order; nothing for a null or blank term.
     */
    method FindItems(term: Option<string>) returns (r: seq<Item>)
      requires Valid()
      ensures Values(r) == Find(State(), term)
      ensures forall j :: 0 <= j < |r| ==> fresh(r[j])
    {
      if term.None? || IsBlank(term.value) {
        return [];
      }
      r := CloneMatching(items, term.value);
    }
  }

  /** The `Where(...).Select(i => i.Clone()).ToList()` of FindItems: new copies of the matches, in order. */
  method CloneMatching(s: seq<Item>, t: string) returns (r: seq<Item>)
    ensures Values(r) == Matching(Values(s), t)
    ensures forall j :: 0 <= j < |r| ==> fresh(r[j])
  {
    ghost var stored := Values(s);
    r := [];
    var k := 0;
    while k < |s|
      invariant 0 <= k <= |s|
      invariant Values(r) == Matching(stored[..k], t)
      invariant forall j :: 0 <= j < |r| ==> fresh(r[j])
    {
      var x := s[k];
      assert stored[..k + 1] == stored[..k] + [x.Value()];
      MatchingConcat(stored[..k], [x.Value()], t);
      if ContainsIgnoreCase(x.Name, t) {
        var copy := x.Clone();
        ValuesAppend(r, copy);
        r := r + [copy];
      }
      k := k + 1;
    }
    assert stored[..k] == stored;
  }

  /** `Select(i => i.Clone()).ToList()`: new copies, in order. */
  method CloneAll(s: seq<Item>) returns (r: seq<Item>)
    ensures Values(r) == Values(s)
    ensures forall j :: 0 <= j < |r| ==> fresh(r[j])
  {
    r := [];
    var k := 0;
    while k < |s|
      invariant 0 <= k <= |s|
      invariant Values(r) == Values(s[..k])
      invariant forall j :: 0 <= j < |r| ==> fresh(r[j])
    {
      var copy := s[k].Clone();
      assert Values(r + [copy]) == Values(s[..k + 1]);
      r := r + [copy];
      k := k + 1;
    }
    assert s[..k] == s;
  }

  /**
   * A snapshot is independent of the inventory: changing the weight of a
   * returned copy leaves the inventory's state as it was.
   */
  method ChangeSnapshot(inv: Inventory, w: int32) returns (snap: seq<Item>)
    requires inv.Valid()
    ensures inv.Valid() && inv.State() == old(inv.State())
    ensures |snap| == |inv.State().entries|
    ensures |snap| > 0 ==> snap[0].Weight == w
  {
    snap := inv.Items();
    if |snap| > 0 {
      snap[0].Weight := w;
    }
  }
}
