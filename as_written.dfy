/**
 * AddItem and RemoveItem of Test/Inventory.cs exactly as written, where they
 * differ from the operations in InventorySpec: C#'s arithmetic on `int` is
 * unchecked 32-bit arithmetic, and RemoveItem never looks at the sign of
 * the weight it is asked to take away.
 */
module AsWritten {
  import opened Wrappers
  import opened Items
  import opened InventorySpec

  const Int32Min: int := -0x8000_0000
  const Int32Max: int := 0x7fff_ffff

  /** The value an unchecked 32-bit `+` or `-` yields when the exact result is `x`. */
  function Wrap32(x: int): (r: int)
    ensures Int32Min <= r <= Int32Max
    ensures Int32Min <= x <= Int32Max ==> r == x
    ensures (r - x) % 0x1_0000_0000 == 0
  {
    (x - Int32Min) % 0x1_0000_0000 + Int32Min
  }

  /** AddItem as written (Test/Inventory.cs:34-68): the sums of lines 49, 54, 55, 59 and 65 wrap. */
  function AddAsWritten(st: Store, item: Option<Entry>): Result<Store, Error>
  {
    match item
    case None => Failure(ArgumentNull)
    case Some(e) =>
      if e.weight <= 0 then Failure(InvalidArgument)
      else match Lookup(st.entries, e.name)
        case Some(i) =>
          if Wrap32(st.weight + e.weight) > MaxWeight then Failure(CapacityExceeded)
          else Success(Store(SetWeight(st.entries, i, Wrap32(st.entries[i].weight + e.weight)),
                             Wrap32(st.weight + e.weight)))
        case None =>
          if Wrap32(st.weight + e.weight) > MaxWeight then Failure(CapacityExceeded)
          else Success(Store(st.entries + [e], Wrap32(st.weight + e.weight)))
  }

  /**
   * RemoveItem as written (Test/Inventory.cs:70-101): no check on the sign
   * of the weight, and the differences of lines 91, 95 and 96 wrap.
   */
  function RemoveAsWritten(st: Store, item: Option<Entry>): Result<(bool, Store), Error>
  {
    match item
    case None => Failure(ArgumentNull)
    case Some(e) =>
      match Lookup(st.entries, e.name)
      case None => Success((false, st))
      case Some(i) =>
        if st.entries[i].weight < e.weight then Failure(InsufficientQuantity)
        else if st.entries[i].weight == e.weight then
          Success((true, Store(RemoveAt(st.entries, i), Wrap32(st.weight - e.weight))))
        else
          Success((true, Store(SetWeight(st.entries, i, Wrap32(st.entries[i].weight - e.weight)),
                               Wrap32(st.weight - e.weight))))
  }

  /**
   * An inventory holding A of weight 1 accepts B of weight int.MaxValue: the
   * capacity check compares the wrapped sum int.MinValue with 100, and the
   * cached total becomes int.MinValue.
   */
  lemma AddOverflowBreaksCap()
    ensures var st := Store([Entry("A", 1)], 1);
            var after := Store([Entry("A", 1), Entry("B", Int32Max)], Int32Min);
            Inv(st) && AddAsWritten(st, Some(Entry("B", Int32Max))) == Success(after) && !Inv(after)
  {
    var st := Store([Entry("A", 1)], 1);
    assert Lookup(st.entries, "B") == None;
    assert Wrap32(1 + Int32Max) == Int32Min;
    assert st.entries + [Entry("B", Int32Max)] == [Entry("A", 1), Entry("B", Int32Max)];
  }

  /** Where no sum leaves the 32-bit range, AddItem as written is the corrected Add. */
  lemma AddAsWrittenAgrees(st: Store, item: Option<Entry>)
    requires Inv(st)
    requires item.Some? ==> Int32Min <= item.value.weight && st.weight + item.value.weight <= Int32Max
    ensures AddAsWritten(st, item) == Add(st, item)
  {
    if item.Some? && item.value.weight > 0 {
      var e := item.value;
      match Lookup(st.entries, e.name)
      case Some(i) =>
        EntryWithinTotal(st.entries, i);
      case None =>
    }
  }

  /**
   * Removing Gold of weight -1 from Gold 100 takes the last branch: it
   * returns true and leaves Gold 101, total 101, above the cap.
   */
  lemma RemoveNegativeWeightBreaksCap()
    ensures var st := Store([Entry("Gold", 100)], 100);
            var after := Store([Entry("Gold", 101)], 101);
            Inv(st) && RemoveAsWritten(st, Some(Entry("Gold", -1))) == Success((true, after)) && !Inv(after)
  {
    var st := Store([Entry("Gold", 100)], 100);
    assert Lookup(st.entries, "Gold") == Some(0);
    assert SetWeight(st.entries, 0, 101) == [Entry("Gold", 101)];
  }

  /** For a positive 32-bit weight, RemoveItem as written is the corrected Remove. */
  lemma RemoveAsWrittenAgrees(st: Store, item: Option<Entry>)
    requires Inv(st)
    requires item.Some? ==> 0 < item.value.weight <= Int32Max
    ensures RemoveAsWritten(st, item) == Remove(st, item)
  {
    if item.Some? {
      var e := item.value;
      match Lookup(st.entries, e.name)
      case Some(i) =>
        EntryWithinTotal(st.entries, i);
      case None =>
    }
  }
}
