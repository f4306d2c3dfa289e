/** The persisted list of every item id the wallet has seen
    (`getSeenWebdeeds` and `addSeenWebdeed`): a duplicate-free list, kept in
    first-seen order, stored as JSON under one key of the browser's local
    storage. */
module SeenStore {
  import opened Wrappers

  /** The storage key of the list. */
  const SeenKey: string := "webdeeds-seen"

  /** What the text stored under a key is, as far as `JSON.parse` sees it:
      the JSON of a list of ids, the empty string (which the code treats as
      "nothing stored"), or text `JSON.parse` rejects. */
  datatype StoredText = IdList(ids: seq<string>) | EmptyText | Unparseable

  /** The exceptions that escape the two helpers: `JSON.parse` throwing on a
      corrupt value, and `localStorage` missing when there is no window. */
  datatype StoreError = MalformedJson | NoLocalStorage

  predicate NoDuplicates(s: seq<string>) {
    forall i, j :: 0 <= i < j < |s| ==> s[i] != s[j]
  }

  /** The list after one id is observed: unchanged when the id is already
      there, otherwise the id appended at the end. */
  function Added(seen: seq<string>, id: string): (r: seq<string>)
    ensures id in r
    ensures seen <= r && |r| <= |seen| + 1
    ensures forall x :: x in r ==> x in seen || x == id
    ensures NoDuplicates(seen) ==> NoDuplicates(r)
  {
    if id in seen then seen else seen + [id]
  }

  /** The list after `ids` are observed one after the other, in order: the
      old list stays in front, at most one entry is appended per observed
      id, and the last id observed is always in it. */
  function AddedAll(seen: seq<string>, ids: seq<string>): (r: seq<string>)
    ensures seen <= r && |r| <= |seen| + |ids|
    ensures ids != [] ==> ids[|ids| - 1] in r
  {
    if ids == [] then seen else Added(AddedAll(seen, ids[..|ids| - 1]), ids[|ids| - 1])
  }

  /** Observing one more id of a list observes it after the ids before it. */
  lemma AddedAllStep(seen: seq<string>, ids: seq<string>, i: int)
    requires 0 <= i < |ids|
    ensures AddedAll(seen, ids[..i + 1]) == Added(AddedAll(seen, ids[..i]), ids[i])
  {
    assert ids[..i + 1][..i] == ids[..i];
  }

  /** Observing a list of ids keeps every earlier entry where it was, adds
      every observed id, adds nothing else, and never creates a duplicate. */
  lemma {:induction false} AddedAllGrows(seen: seq<string>, ids: seq<string>)
    ensures seen <= AddedAll(seen, ids)
    ensures forall x :: x in ids ==> x in AddedAll(seen, ids)
    ensures forall x :: x in AddedAll(seen, ids) ==> x in seen || x in ids
    ensures NoDuplicates(seen) ==> NoDuplicates(AddedAll(seen, ids))
  {
    if ids != [] {
      var init := ids[..|ids| - 1];
      AddedAllGrows(seen, init);
      assert ids == init + [ids[|ids| - 1]];
      forall x | x in ids ensures x in AddedAll(seen, ids) {
        if x != ids[|ids| - 1] {
          assert x in init;
        }
      }
    }
  }

  /** Observing an id twice is the same as observing it once. */
  lemma AddedIdempotent(seen: seq<string>, id: string)
    ensures Added(Added(seen, id), id) == Added(seen, id)
  {
  }

  /** Observing ids that are all already in the list changes nothing. */
  lemma {:induction false} AddedAllKnown(seen: seq<string>, ids: seq<string>)
    requires forall x :: x in ids ==> x in seen
    ensures AddedAll(seen, ids) == seen
  {
    if ids != [] {
      AddedAllKnown(seen, ids[..|ids| - 1]);
      assert ids[|ids| - 1] in ids;
    }
  }

  /** `getSeenWebdeeds` over the storage `entries` (with `hasWindow` telling
      whether there is a window at all): the stored list; the empty list
      without a window, without the key or with empty text; an error (the
      exception `JSON.parse` throws) when the stored text is corrupt. */
  function GetSeenWebdeeds(hasWindow: bool, entries: map<string, StoredText>): (r: Result<seq<string>, StoreError>)
    ensures r.Failure? <==> hasWindow && SeenKey in entries && entries[SeenKey] == Unparseable
    ensures r.Failure? ==> r.error == MalformedJson
    ensures r.Success? && r.value != [] ==> hasWindow && SeenKey in entries && entries[SeenKey] == IdList(r.value)
    ensures hasWindow && SeenKey in entries && entries[SeenKey].IdList? ==> r == Success(entries[SeenKey].ids)
  {
    if !hasWindow || SeenKey !in entries then Success([])
    else match entries[SeenKey]
      case IdList(ids) => Success(ids)
      case EmptyText => Success([])
      case Unparseable => Failure(MalformedJson)
  }

  /** The browser's local storage, and whether there is a window at all (there
      is none when the page is rendered on a server). */
  class LocalStore {
    var entries: map<string, StoredText>
    const hasWindow: bool

    constructor (hasWindow: bool, entries: map<string, StoredText>)
      ensures this.hasWindow == hasWindow && this.entries == entries
    {
      this.hasWindow := hasWindow;
      this.entries := entries;
    }

    /** `addSeenWebdeed(itemId)`: reads the list, and when `itemId` is not in
        it, appends it and writes the list back. The read's exception
        propagates; without a window the write throws. */
    method AddSeenWebdeed(itemId: string) returns (r: Outcome<StoreError>)
      modifies this
      ensures GetSeenWebdeeds(hasWindow, old(entries)).Failure? ==> r == Fail(MalformedJson) && entries == old(entries)
      ensures GetSeenWebdeeds(hasWindow, old(entries)).Success? ==>
        var seen := GetSeenWebdeeds(hasWindow, old(entries)).value;
        if itemId in seen then r == Pass && entries == old(entries)
        else if !hasWindow then r == Fail(NoLocalStorage) && entries == old(entries)
        else r == Pass && entries == old(entries)[SeenKey := IdList(seen + [itemId])]
      ensures r.Pass? ==> GetSeenWebdeeds(hasWindow, entries) == Success(Added(GetSeenWebdeeds(hasWindow, old(entries)).value, itemId))
      ensures entries - {SeenKey} == old(entries) - {SeenKey}
    {
      var seen := GetSeenWebdeeds(hasWindow, entries);
      if seen.Failure? {
        return Fail(seen.error);
      }
      if itemId !in seen.value {
        if !hasWindow {
          return Fail(NoLocalStorage);
        }
        entries := entries[SeenKey := IdList(seen.value + [itemId])];
      }
      r := Pass;
    }
  }
}
