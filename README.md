# Inventory: a weight-capped item container, modelled in Dafny

The repository is a small C# library. An `Inventory` holds named, stackable
`Item`s up to a fixed total weight of 100. Adding a name that is already
stored merges the two stacks. Removal by weight is partial or exact, and
removal by name drops the whole stack. The search is a case-insensitive
substring search. Every read returns fresh copies, so no reference to a
stored item escapes.

The project has these files:

- `wrappers.dfy` (module `Wrappers`): `Option`, `Result` and `Outcome`. The
  C# exceptions become `Failure`/`Fail` values that carry an error kind.
- `item.dfy` (module `Items`): `Test/Item.cs`.
  - `Item` is a class, because `Inventory` changes a stored item's `Weight`
    in place.
  - `Entry` is the value an item holds at one instant.
  - `Values` maps a sequence of items to their entries.
  - C#'s `int` is the newtype `int32`.
- `inventory_spec.dfy` (module `InventorySpec`): the inventory as a value
  `Store(entries, weight)`.
  - Each operation is a function: `Add`, `Remove`, `RemoveByName`, `Find`.
  - The invariant `Inv` says four things: names are unique, weights are
    positive, the cached weight is the sum, and the sum is within 0..100.
  - The lemmas about these functions hold the properties the library promises.
- `inventory.dfy` (module `Inventories`): the class `Inventory`. It has the
  fields `items: seq<Item>` and `currentWeight: int32`.
  - Each method is proved against the function of the same operation, through
    the abstraction `State()`.
  - `Valid()` requires the stored objects to be pairwise distinct, and the
    state to satisfy `Inv`.
- `as_written.dfy` (module `AsWritten`): `AddItem` and `RemoveItem` exactly
  as the code has them. This covers 32-bit wrap-around, and no sign check in
  `RemoveItem`. See "## Findings".

Where a method's code differs from the function it is proved against, the
code is followed, with two exceptions, both described under "## Findings".
`RemoveItem` rejects a weight of 0 or less, which the code never checks.
`AddItem` compares and stores the exact sum, where the code uses a wrapped
32-bit sum. One asymmetry is in the code and is kept: `RemoveItemByName`
removes the whole stack, while `RemoveItem` removes by weight.

## Model

| member | source | states |
|---|---|---|
| Items.Item.constructor | Test/Item.cs:5-6 | a new item has the name and weight it was given |
| Items.Item.Clone | Test/Item.cs:18 | the clone is a fresh object with the same name and weight |
| Items.SetCloneWeight | Test/Item.cs:18 | setting a clone's weight leaves the original's name and weight unchanged |
| Items.EqualsIsSameName | Test/Item.cs:8-14 | two items are equal iff their names agree, and equality is symmetric |
| Items.EqualsIgnoresWeight | Test/Item.cs:8-12 | items with one name and different weights are equal |
| Items.EqualsNullIsFalse | Test/Item.cs:10 | no item equals null |
| Items.EqualItemsHashAlike | Test/Item.cs:16 | equal items have equal hash codes |
| Items.ValuesAppend | Test/Inventory.cs:64 | appending an item appends its entry |
| Items.ValuesRemoveAt | Test/Inventory.cs:90 | removing the k-th item removes the k-th entry and keeps the items distinct |
| InventorySpec.Lookup | Test/Inventory.cs:45 | the first index holding the name, or None iff no entry has that name |
| InventorySpec.FoldIdempotent | Test/Inventory.cs:128 | folding a folded string changes nothing, so a folded term compares like its own fold |
| InventorySpec.ContainsIgnoreCase | Test/Inventory.cs:128 | true iff the folded term occurs in the folded name at some position |
| InventorySpec.TotalAppend | Test/Inventory.cs:64-65 | appending an entry adds its weight to the sum |
| InventorySpec.TotalSetWeight | Test/Inventory.cs:54-55 | changing one weight changes the sum by the difference |
| InventorySpec.TotalRemoveAt | Test/Inventory.cs:90-91 | dropping an entry takes its weight off the sum |
| InventorySpec.TotalNonNegative | Test/Inventory.cs:10 | positive weights sum to at least 0 |
| InventorySpec.EntryWithinTotal | Test/Inventory.cs:83-97 | each positive weight lies between 1 and the sum |
| InventorySpec.WeightOfAppend | Test/Inventory.cs:64 | after an append, the weight under each name grows only for the appended name |
| InventorySpec.WeightOfSetWeight | Test/Inventory.cs:54 | after a weight change, only the changed entry's name weighs differently |
| InventorySpec.WeightOfRemoveAt | Test/Inventory.cs:90 | after a drop, only the dropped entry's name weighs less |
| InventorySpec.WeightOfAbsent | Test/Inventory.cs:78-80 | an absent name weighs 0 |
| InventorySpec.WeightOfLookup | Test/Inventory.cs:45 | with unique names, a name weighs what its looked-up entry holds |
| InventorySpec.StoredIffWeighs | Test/Inventory.cs:38-41 | with unique, positive entries, a name is stored iff its weight is positive |
| InventorySpec.RemoveAtKeepsUnique | Test/Inventory.cs:90 | dropping an entry keeps the names unique and the weights positive, and shifts later entries down by one |
| InventorySpec.AddPreservesInv | Test/Inventory.cs:34-68 | a successful add keeps unique names, positive weights, the cached sum and the cap |
| InventorySpec.AddFailures | Test/Inventory.cs:36-62 | null gives ArgumentNull, a weight ≤ 0 gives InvalidArgument, and CapacityExceeded occurs iff the sum would pass 100; otherwise the add succeeds |
| InventorySpec.AddWeights | Test/Inventory.cs:54-65 | a successful add raises the total, and the weight under the item's name, by the item's weight, and changes no other name |
| InventorySpec.AddMerges | Test/Inventory.cs:45-55 | adding a stored name keeps the same names in the same order, and that name gains the added weight |
| InventorySpec.AddAppends | Test/Inventory.cs:57-66 | adding a new name appends the item at the end, with every earlier entry in place |
| InventorySpec.RemovePreservesInv | Test/Inventory.cs:70-101 | a successful remove keeps the invariant |
| InventorySpec.RemoveCases | Test/Inventory.cs:76-97 | by stored weight: none gives false with no change, less than asked gives InsufficientQuantity, equal makes the name go, more keeps the same names |
| InventorySpec.RemoveWeights | Test/Inventory.cs:88-97 | a remove that returns true lowers the total, and the name's weight, by the asked weight, and changes no other name |
| InventorySpec.RemoveByNameSpec | Test/Inventory.cs:103-116 | returns true iff the name was stored; the name is then gone; the total drops by its whole weight; other names keep their weights; the invariant holds |
| InventorySpec.ClearSpec | Test/Inventory.cs:136-137 | the empty inventory satisfies the invariant, holds nothing, and every name weighs 0 |
| InventorySpec.FindBlank | Test/Inventory.cs:121-124 | a null, empty or whitespace-only term finds nothing |
| InventorySpec.MatchingMembers | Test/Inventory.cs:128 | an entry is found iff it is stored and its name contains the term, ignoring case |
| InventorySpec.MatchingConcat | Test/Inventory.cs:128 | the search keeps storage order: searching a concatenation concatenates the results |
| InventorySpec.MatchingIgnoresTermCase | Test/Inventory.cs:128 | the result does not change when the term is folded |
| InventorySpec.ScenarioAddOne | TestProject1/InventoryTests.cs:17-26 | adding Sword 10 to an empty inventory gives one entry and weight 10 |
| InventorySpec.ScenarioMerge | TestProject1/InventoryTests.cs:35-45 | Potion 5 and then Potion 3 give one entry of 8 |
| InventorySpec.ScenarioOverCap | TestProject1/InventoryTests.cs:49-57 | after Heavy1 60, adding Heavy2 50 is refused with CapacityExceeded |
| InventorySpec.ScenarioPartialRemove | TestProject1/InventoryTests.cs:74-85 | from Gold 100, removing 40 leaves Gold 60, and then removing 150 is refused |
| InventorySpec.ScenarioRemoveWhole | TestProject1/InventoryTests.cs:61-71 | Shield 20 added to an empty inventory and then removed whole returns true and leaves it empty |
| InventorySpec.ScenarioFind | TestProject1/InventoryTests.cs:88-102 | after adding Health Potion 2, Mana Potion 2 and Sword 15, "potion" finds the two potions, in that order, and not Sword |
| Inventories.IndexOfEqual | Test/Inventory.cs:90 | the first index whose item Equals the argument, or None iff there is none |
| Inventories.IndexOfEqualIsLookup | Test/Inventory.cs:115 | List.Remove finds the same index as the lookup by name |
| Inventories.Inventory.constructor | Test/Inventory.cs:7-10 | a new inventory is valid and empty, with weight 0 |
| Inventories.Inventory.CurrentWeight | Test/Inventory.cs:23-32 | the cached weight equals the sum of the stored weights, within 0..100 |
| Inventories.Inventory.AddItem | Test/Inventory.cs:34-68 | the new state is Add's result, or on failure the state is unchanged and the error is returned; earlier items stay in place; any new item is a fresh copy |
| Inventories.Inventory.Merge | Test/Inventory.cs:54-55 | the stored item at i gains w, and the total gains w, with the invariant kept |
| Inventories.Inventory.Append | Test/Inventory.cs:64-65 | the copy is appended, and the total gains its weight, with the invariant kept |
| Inventories.Inventory.RemoveItem | Test/Inventory.cs:70-101 | the new state and returned flag are Remove's result, or on failure the state is unchanged and the error is returned; every object stored afterwards was stored before |
| Inventories.Inventory.Reduce | Test/Inventory.cs:95-96 | the stored item at i loses w, and the total loses w, with the invariant kept |
| Inventories.Inventory.DropAt | Test/Inventory.cs:90-91 | the k-th item leaves the list, and the total loses its weight, with the invariant kept and no other object stored |
| Inventories.Inventory.RemoveItemByName | Test/Inventory.cs:103-117 | the returned flag and new state are RemoveByName's result; every object stored afterwards was stored before |
| Inventories.Inventory.Clear | Test/Inventory.cs:132-139 | no items and weight 0, with the invariant kept |
| Inventories.Inventory.Items | Test/Inventory.cs:12-21 | fresh copies of all stored entries, in storage order |
| Inventories.Inventory.GetEnumerator | Test/Inventory.cs:141-147 | fresh copies of all stored entries, in storage order |
| Inventories.Inventory.FindItems | Test/Inventory.cs:119-130 | fresh copies of exactly the entries Find selects, in storage order, with no state change |
| Inventories.CloneMatching | Test/Inventory.cs:128 | fresh copies of the items whose names match the term, in order |
| Inventories.CloneAll | Test/Inventory.cs:18 | fresh copies of all the items, in order |
| Inventories.ChangeSnapshot | TestProject1/InventoryTests.cs:105-115 | changing a snapshot's weight leaves the inventory's state unchanged |
| AsWritten.Wrap32 | Test/Inventory.cs:49-55 | the result is in the 32-bit range, equals the input inside that range, and is congruent to it modulo 2^32 |
| AsWritten.AddOverflowBreaksCap | Test/Inventory.cs:45-66 | as written, adding B with int.MaxValue to A 1 succeeds, and the total wraps to int.MinValue |
| AsWritten.AddAsWrittenAgrees | Test/Inventory.cs:34-68 | where no sum leaves the 32-bit range, AddItem as written is Add |
| AsWritten.RemoveNegativeWeightBreaksCap | Test/Inventory.cs:70-97 | as written, removing Gold -1 from Gold 100 returns true and leaves weight 101 |
| AsWritten.RemoveAsWrittenAgrees | Test/Inventory.cs:70-101 | for a positive 32-bit weight, RemoveItem as written is Remove |

## Left out

- The lock (`Test/Inventory.cs:8` and every `lock` block), and the multi-threaded test. Each public operation is one critical section, so each is modelled as one atomic sequential step.
- Exception message text. Only the error kind is kept: ArgumentNull, InvalidArgument, CapacityExceeded, InsufficientQuantity.
- Unicode case folding and the full `char.IsWhiteSpace` set. `FoldChar` lowercases ASCII letters only. `IsWhiteSpace` covers space, tab to carriage return, U+0085 and U+00A0.
- The `IEnumerable`, `IEnumerator` and `IReadOnlyList` wrappers. A snapshot is a returned `seq<Item>` of fresh objects.
- Null item names, and a null name passed to `RemoveItemByName`. Names are non-null strings, so `GetHashCode`'s `?? 0` branch is not modelled.
- Concrete `string.GetHashCode` values. `Items.NameHash` stands in for it: any function of the name alone will do.
- The NUnit harness. Its scenarios are stated as lemmas, about the functions rather than the class.
- Inventories.Inventory.RemoveItem: follows the corrected `Remove`, which rejects a weight ≤ 0 with InvalidArgument. As written, weight 0 returns true with no change, and a negative weight adds to the stack. AsWritten.RemoveAsWritten keeps the written behaviour.
- Inventories.Inventory.AddItem: follows the corrected `Add`, whose sums are exact. The 32-bit wrap-around of the code is in AsWritten.AddAsWritten. The class's `int32` arithmetic never leaves the range, because the invariant bounds the total by 100.

## Findings

| source | as written | input that shows it | evidently intended | confidence | as-written member | corrected member |
|---|---|---|---|---|---|---|
| Test/Inventory.cs:70-97 | `RemoveItem` never checks the sign of `item.Weight`; a negative weight takes the last branch and adds to the stack | inventory Gold 100; `RemoveItem(Gold, -1)` returns true and leaves Gold 101, total 101, above the cap of 100 | reject a weight ≤ 0 as `AddItem` does (lines 38-41), so the total stays within 0..100 | not executed; high | AsWritten.RemoveNegativeWeightBreaksCap | InventorySpec.RemovePreservesInv |
| Test/Inventory.cs:49, 54-55, 59, 65 | `_currentWeight + item.Weight` is unchecked 32-bit arithmetic, so the capacity check can compare a wrapped sum | inventory A 1; `AddItem(B, int.MaxValue)`: the sum wraps to int.MinValue, which passes the check, and the total becomes int.MinValue | compare and store the exact sum, so a too-heavy item is refused | not executed; medium (assumes the default unchecked context) | AsWritten.AddOverflowBreaksCap | InventorySpec.AddPreservesInv |
