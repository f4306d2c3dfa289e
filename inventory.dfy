/** The reconciled "all-time" view of the Home page: one entry per seen id,
    holding the live balance of that id or 0, and whether the latest
    inventory fetch listed it. */
module Inventory {
  import opened Wrappers
  import opened TokenService

  /** One row of the all-time ("Seen") tab. */
  datatype Entry = Entry(itemId: string, totalAmount: real, isActive: bool)

  /** The ids of `items`, in order. */
  function ItemIds(items: seq<Item>): (ids: seq<string>)
    ensures |ids| == |items|
    ensures forall k :: 0 <= k < |items| ==> ids[k] == items[k].itemId
  {
    seq(|items|, k requires 0 <= k < |items| => items[k].itemId)
  }

  /** Every item's id is among the ids. */
  lemma ItemIdsCover(items: seq<Item>)
    ensures forall x :: x in items ==> x.itemId in ItemIds(items)
  {
    forall x | x in items
      ensures x.itemId in ItemIds(items)
    {
      var k :| 0 <= k < |items| && items[k] == x;
      assert ItemIds(items)[k] == x.itemId;
    }
  }

  /** The position of the first item with `id` (`Array.prototype.find`'s
      search), or `|items|` when none has it. */
  function FirstIndex(items: seq<Item>, id: string): (k: nat)
    ensures k <= |items|
    ensures forall j :: 0 <= j < k ==> items[j].itemId != id
    ensures k < |items| ==> items[k].itemId == id
  {
    if items == [] then 0
    else if items[0].itemId == id then 0
    else 1 + FirstIndex(items[1..], id)
  }

  /** Whether the fetched inventory lists `id`; nothing is listed before the
      first fetch completes (`items` undefined). */
  predicate Listed(items: Option<seq<Item>>, id: string) {
    items.Some? && exists k :: 0 <= k < |items.value| && items.value[k].itemId == id
  }

  /** `items?.find((item) => item.itemId === id)`. */
  function ActiveItem(items: Option<seq<Item>>, id: string): (r: Option<Item>)
    ensures r.Some? <==> Listed(items, id)
    ensures r.Some? ==> r.value.itemId == id && r.value == items.value[FirstIndex(items.value, id)]
  {
    if items.None? then None
    else
      var k := FirstIndex(items.value, id);
      if k < |items.value| then Some(items.value[k]) else None
  }

  /** `items?.find(...)?.totalAmount || 0`: the balance of the first listed
      item with `id`, and 0 when no item has it. Both the all-time view and
      the send dialog's "available" amount are this value. */
  function AvailableAmount(items: Option<seq<Item>>, id: string): (a: real)
    ensures !Listed(items, id) ==> a == 0.0
    ensures Listed(items, id) ==> a == items.value[FirstIndex(items.value, id)].totalAmount
  {
    match ActiveItem(items, id)
    case Some(item) => item.totalAmount
    case None => 0.0
  }

  /** `allWebdeeds`: the seen list mapped to entries. It follows the seen
      list only; an item that is listed but not (yet) seen has no entry. */
  function AllWebdeeds(seen: seq<string>, items: Option<seq<Item>>): (view: seq<Entry>)
    ensures |view| == |seen|
    ensures forall i :: 0 <= i < |seen| ==> view[i].itemId == seen[i]
    ensures forall i :: 0 <= i < |seen| ==> (view[i].isActive <==> Listed(items, seen[i]))
    ensures forall i :: 0 <= i < |seen| ==> view[i].totalAmount == AvailableAmount(items, seen[i])
  {
    seq(|seen|, i requires 0 <= i < |seen| =>
      var active := ActiveItem(items, seen[i]);
      Entry(seen[i], if active.Some? then active.value.totalAmount else 0.0, active.Some?))
  }

  /** An id that is seen but not listed shows with balance 0 and is not
      active: an item fully sent away stays in the all-time view. */
  lemma SeenButInactive(seen: seq<string>, items: Option<seq<Item>>, i: int)
    requires 0 <= i < |seen| && !Listed(items, seen[i])
    ensures AllWebdeeds(seen, items)[i] == Entry(seen[i], 0.0, false)
  {
  }

  /** Once every listed id is in the seen list (as after an inventory fetch),
      the active entries of the all-time view are exactly the listed items:
      each listed item has an active entry with its balance, and each active
      entry belongs to a listed item. */
  lemma ActiveEntriesAreListedItems(seen: seq<string>, items: seq<Item>)
    requires forall x :: x in items ==> x.itemId in seen
    ensures forall x :: x in items ==>
      Entry(x.itemId, AvailableAmount(Some(items), x.itemId), true) in AllWebdeeds(seen, Some(items))
    ensures forall e :: e in AllWebdeeds(seen, Some(items)) && e.isActive ==>
      exists x :: x in items && x.itemId == e.itemId
  {
    var fetched: Option<seq<Item>> := Some(items);
    var view := AllWebdeeds(seen, fetched);
    forall x | x in items
      ensures Entry(x.itemId, AvailableAmount(fetched, x.itemId), true) in view
    {
      var i :| 0 <= i < |seen| && seen[i] == x.itemId;
      assert Listed(fetched, seen[i]);
      assert view[i] == Entry(x.itemId, AvailableAmount(fetched, x.itemId), true);
    }
  }

  /** The first listed item with an id supplies its balance, whatever later
      items with the same id hold. */
  lemma {:induction false} FirstMatchWins(items: seq<Item>, id: string, amount: real)
    ensures AvailableAmount(Some([Item(id, amount)] + items), id) == amount
  {
    assert ([Item(id, amount)] + items)[0].itemId == id;
  }

  /** One seen item, listed with 42.5 units, is one active entry with
      that balance. */
  lemma OneListedItemView()
    ensures AllWebdeeds(["webdeed-123"], Some([Item("webdeed-123", 42.5)])) == [Entry("webdeed-123", 42.5, true)]
  {
    var items := [Item("webdeed-123", 42.5)];
    assert items[0].itemId == "webdeed-123";
    assert AvailableAmount(Some(items), "webdeed-123") == 42.5;
  }
}
