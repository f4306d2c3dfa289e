/** The Home page (`Home` in app/routes/home.tsx): the inventory query that
    folds every listed id into the persisted seen list, the receive input,
    and the map of generated transfer strings, at most one per item, that
    only a confirmed close of the send dialog removes. */
module Home {
  import opened Wrappers
  import opened JsText
  import opened JsNumber
  import opened TokenService
  import opened SeenStore
  import opened Inventory
  import opened SendModal

  /** Why the inventory query failed: `wallet.list()` failed, or the seen
      list could not be read or written. */
  datatype QueryError = ListFailed(cause: ServiceError) | SeenFailed(reason: StoreError)

  /** `generatedOutputs[id]`: the staged transfer string of `id`, if any. */
  function StagedFor(outputs: map<string, string>, id: string): (r: Option<string>)
    ensures r.Some? <==> id in outputs
    ensures r.Some? ==> r.value == outputs[id]
  {
    if id in outputs then Some(outputs[id]) else None
  }

  class HomeRoute {
    const store: LocalStore
    /** The receive input. */
    var outputString: string
    /** The item whose send dialog is open. */
    var selectedItemId: Option<string>
    /** Staged transfer strings, by item id. */
    var generatedOutputs: map<string, string>
    /** The seen list as last read from the store. */
    var seenWebdeeds: seq<string>
    /** The last successful `wallet.list()`; None before the first one. */
    var items: Option<seq<Item>>
    /** Whether `invalidateQueries(["wallet-items"])` asked for a refetch
        that has not run yet. */
    var itemsInvalidated: bool

    constructor (store: LocalStore)
      ensures this.store == store
      ensures outputString == "" && selectedItemId == None && generatedOutputs == map[]
      ensures seenWebdeeds == [] && items == None && !itemsInvalidated
    {
      this.store := store;
      outputString := "";
      selectedItemId := None;
      generatedOutputs := map[];
      seenWebdeeds := [];
      items := None;
      itemsInvalidated := false;
    }

    /** The send dialog is rendered only for a truthy selection. */
    predicate ModalShown()
      reads this
    {
      selectedItemId.Some? && selectedItemId.value != ""
    }

    /** The mount effect: load the seen list; a corrupt stored value throws. */
    method Mount() returns (r: Outcome<StoreError>)
      modifies this`seenWebdeeds
      ensures GetSeenWebdeeds(store.hasWindow, store.entries).Success? ==> r == Pass && seenWebdeeds == GetSeenWebdeeds(store.hasWindow, store.entries).value
      ensures GetSeenWebdeeds(store.hasWindow, store.entries).Failure? ==> r == Fail(MalformedJson) && seenWebdeeds == old(seenWebdeeds)
    {
      var seen := GetSeenWebdeeds(store.hasWindow, store.entries);
      if seen.Failure? {
        return Fail(seen.error);
      }
      seenWebdeeds := seen.value;
      r := Pass;
    }

    /** The query function's `items.forEach(... addSeenWebdeed ...)`: adds
        the ids to the seen list one after the other. Only the first call can
        throw (a corrupt list, or no window), so a failure leaves storage as
        it was; after a success the list is the old one with every new id
        appended in order. */
    method RecordSeen(ids: seq<string>) returns (r: Outcome<StoreError>)
      modifies store
      ensures r.Pass? <==> ids == [] || (GetSeenWebdeeds(store.hasWindow, old(store.entries)).Success? && store.hasWindow)
      ensures ids != [] && GetSeenWebdeeds(store.hasWindow, old(store.entries)).Failure? ==> r == Fail(MalformedJson)
      ensures ids != [] && GetSeenWebdeeds(store.hasWindow, old(store.entries)).Success? && !store.hasWindow ==> r == Fail(NoLocalStorage)
      ensures r.Fail? || ids == [] ==> store.entries == old(store.entries)
      ensures r.Pass? && GetSeenWebdeeds(store.hasWindow, old(store.entries)).Success? ==>
        GetSeenWebdeeds(store.hasWindow, store.entries) == Success(AddedAll(GetSeenWebdeeds(store.hasWindow, old(store.entries)).value, ids))
      ensures store.entries - {SeenKey} == old(store.entries) - {SeenKey}
    {
      ghost var seen0 := GetSeenWebdeeds(store.hasWindow, store.entries);
      var i := 0;
      while i < |ids|
        invariant 0 <= i <= |ids|
        invariant i == 0 ==> store.entries == old(store.entries)
        invariant i > 0 ==> store.hasWindow && seen0.Success?
        invariant i > 0 ==> GetSeenWebdeeds(store.hasWindow, store.entries) == Success(AddedAll(seen0.value, ids[..i]))
        invariant store.entries - {SeenKey} == old(store.entries) - {SeenKey}
      {
        r := store.AddSeenWebdeed(ids[i]);
        if r.Fail? {
          return;
        }
        AddedAllStep(seen0.value, ids, i);
        i := i + 1;
      }
      assert ids[..|ids|] == ids;
      r := Pass;
    }

    /** The `wallet-items` query function, given the outcome of
        `wallet.list()`: adds every listed id to the seen list, one after the
        other, re-reads the list into `seenWebdeeds` and returns the listed
        items, which become `items`. A thrown exception fails the query and
        leaves `items` as it was. */
    method RunItemsQuery(listed: Result<seq<Item>, ServiceError>) returns (r: Result<seq<Item>, QueryError>)
      modifies this`seenWebdeeds, this`items, this`itemsInvalidated, store
      ensures listed.Failure? ==> r == Failure(ListFailed(listed.error))
      ensures listed.Success? ==>
        (r.Success? <==> GetSeenWebdeeds(store.hasWindow, old(store.entries)).Success? && (store.hasWindow || listed.value == []))
      ensures listed.Success? && GetSeenWebdeeds(store.hasWindow, old(store.entries)).Failure? ==> r == Failure(SeenFailed(MalformedJson))
      ensures listed.Success? && !store.hasWindow && listed.value != [] ==> r == Failure(SeenFailed(NoLocalStorage))
      ensures r.Failure? ==>
        && seenWebdeeds == old(seenWebdeeds) && items == old(items)
        && itemsInvalidated == old(itemsInvalidated) && store.entries == old(store.entries)
      ensures r.Success? ==> r.value == listed.value && items == Some(listed.value) && !itemsInvalidated
      ensures r.Success? ==> seenWebdeeds == AddedAll(GetSeenWebdeeds(store.hasWindow, old(store.entries)).value, ItemIds(listed.value))
      ensures r.Success? ==> GetSeenWebdeeds(store.hasWindow, store.entries) == Success(seenWebdeeds)
      ensures r.Success? ==> forall x :: x in listed.value ==> x.itemId in seenWebdeeds
      ensures r.Success? ==> GetSeenWebdeeds(store.hasWindow, old(store.entries)).value <= seenWebdeeds
      ensures r.Success? && NoDuplicates(GetSeenWebdeeds(store.hasWindow, old(store.entries)).value) ==> NoDuplicates(seenWebdeeds)
      ensures store.entries - {SeenKey} == old(store.entries) - {SeenKey}
    {
      if listed.Failure? {
        return Failure(ListFailed(listed.error));
      }
      var list := listed.value;
      ghost var seen0 := GetSeenWebdeeds(store.hasWindow, store.entries);
      var ids := ItemIds(list);
      var recorded := RecordSeen(ids);
      if recorded.Fail? {
        return Failure(SeenFailed(recorded.error));
      }
      var latest := GetSeenWebdeeds(store.hasWindow, store.entries);
      if latest.Failure? {
        return Failure(SeenFailed(latest.error));
      }
      AddedAllGrows(seen0.value, ids);
      ItemIdsCover(list);
      seenWebdeeds := latest.value;
      items := Some(list);
      itemsInvalidated := false;
      r := Success(list);
    }

    /** The receive input's `onChange`. */
    method EditReceiveInput(text: string)
      modifies this`outputString
      ensures outputString == text
    {
      outputString := text;
    }

    /** `handleReceive` with the receive mutation, given the outcome of
        `wallet.receive`: nothing is submitted unless the input has a visible
        character; then the untrimmed input is submitted alone, and only a
        successful receive clears it and asks for a refetch. */
    method HandleReceive(redeemed: Outcome<ServiceError>) returns (submitted: Option<seq<string>>)
      modifies this`outputString, this`itemsInvalidated
      ensures submitted.Some? <==> exists i :: 0 <= i < |old(outputString)| && !IsWhiteSpace(old(outputString)[i])
      ensures submitted.Some? ==> submitted.value == [old(outputString)]
      ensures submitted.Some? && redeemed.Pass? ==> outputString == "" && itemsInvalidated
      ensures submitted.None? || redeemed.Fail? ==>
        outputString == old(outputString) && itemsInvalidated == old(itemsInvalidated)
    {
      var text := outputString;
      submitted := None;
      if Trim(text) != "" {
        submitted := Some([text]);
        if redeemed.Pass? {
          itemsInvalidated := true;
          outputString := "";
        }
      }
    }

    /** The send mutation's `onSuccess`, given the outcome of `wallet.send`:
        a generated string replaces any earlier one for the same item and a
        refetch is asked for; a failure changes nothing. */
    method OnSendSettled(itemId: string, sent: Result<string, ServiceError>)
      modifies this`generatedOutputs, this`itemsInvalidated
      ensures sent.Success? ==> generatedOutputs == old(generatedOutputs)[itemId := sent.value] && itemsInvalidated
      ensures sent.Success? ==> StagedFor(generatedOutputs, itemId) == Some(sent.value)
      ensures sent.Success? ==> forall k :: k != itemId ==> StagedFor(generatedOutputs, k) == StagedFor(old(generatedOutputs), k)
      ensures sent.Failure? ==> generatedOutputs == old(generatedOutputs) && itemsInvalidated == old(itemsInvalidated)
    {
      if sent.Success? {
        itemsInvalidated := true;
        generatedOutputs := generatedOutputs[itemId := sent.value];
      }
    }

    /** Send from the open dialog: the dialog's `handleSend` checks the typed
        amount against the selected item's available balance, and only an
        accepted amount reaches `wallet.send`, whose outcome is `sent`. The
        Send button is rendered only in the amount view, that is while the
        selected item has no non-empty (truthy) staged string, so a send never
        replaces a non-empty staged string: only a confirmed close removes
        one. A staged empty string is falsy, so Send shows and may overwrite
        it. */
    method SubmitFromModal(modal: SendWebdeedModal, sent: Result<string, ServiceError>) returns (request: Option<SendRequest>)
      requires ModalShown()
      requires ViewFor(StagedFor(generatedOutputs, selectedItemId.value)) == AmountView
      modifies this`generatedOutputs, this`itemsInvalidated
      ensures request.Some? <==> SendAccepted(old(modal.sendAmount), AvailableAmount(old(items), old(selectedItemId).value))
      ensures request.Some? ==> request.value == SendRequest(old(selectedItemId).value, ParseFloat(old(modal.sendAmount)).value)
      ensures request.Some? && sent.Success? ==>
        generatedOutputs == old(generatedOutputs)[old(selectedItemId).value := sent.value] && itemsInvalidated
      ensures request.None? || sent.Failure? ==>
        generatedOutputs == old(generatedOutputs) && itemsInvalidated == old(itemsInvalidated)
      ensures forall k :: Present(StagedFor(old(generatedOutputs), k)) ==>
        StagedFor(generatedOutputs, k) == StagedFor(old(generatedOutputs), k)
    {
      var itemId := selectedItemId.value;
      var available := AvailableAmount(items, itemId);
      request := modal.HandleSend(itemId, available);
      if request.Some? {
        OnSendSettled(itemId, sent);
      }
    }

    /** `handleModalComplete`: drops the staged string of the item the dialog
        was rendered for (the selection its closure captured), and nothing
        else. */
    method HandleModalComplete(rendered: string)
      modifies this`generatedOutputs
      ensures generatedOutputs == old(generatedOutputs) - {rendered}
      ensures StagedFor(generatedOutputs, rendered) == None
      ensures rendered !in old(generatedOutputs) ==> generatedOutputs == old(generatedOutputs)
      ensures forall k :: k != rendered ==> StagedFor(generatedOutputs, k) == StagedFor(old(generatedOutputs), k)
    {
      generatedOutputs := generatedOutputs - {rendered};
    }

    /** Closing the dialog (Cancel, Done or the backdrop): the dialog's
        `handleClose` decides, with `confirmed` the user's answer, and its
        callbacks run in order: `onClose` clears the selection, then
        `onComplete` drops the staged string. A staged string is never
        dropped without a yes. */
    method CloseSendModal(modal: SendWebdeedModal, confirmed: bool) returns (asked: bool)
      requires ModalShown()
      modifies this`selectedItemId, this`generatedOutputs
      ensures var staged := StagedFor(old(generatedOutputs), old(selectedItemId).value);
        && (asked <==> Present(staged))
        && (!Present(staged) ==> selectedItemId == None && generatedOutputs == old(generatedOutputs))
        && (Present(staged) && confirmed ==>
              selectedItemId == None && generatedOutputs == old(generatedOutputs) - {old(selectedItemId).value})
        && (Present(staged) && !confirmed ==>
              selectedItemId == old(selectedItemId) && generatedOutputs == old(generatedOutputs))
      ensures generatedOutputs != old(generatedOutputs) ==> asked && confirmed
    {
      var rendered := selectedItemId.value;
      var effect;
      asked, effect := modal.HandleClose(StagedFor(generatedOutputs, rendered), confirmed);
      match effect {
        case StayOpen =>
        case CloseOnly =>
          selectedItemId := None;
        case CloseThenComplete =>
          selectedItemId := None;
          HandleModalComplete(rendered);
      }
    }

    /** The Inventory tab's send button opens the dialog for that item. */
    method OpenFromInventory(item: Item)
      modifies this`selectedItemId
      ensures selectedItemId == Some(item.itemId)
    {
      selectedItemId := Some(item.itemId);
    }

    /** The Seen tab's send button opens the dialog only for an active entry. */
    method OpenFromSeen(entry: Entry)
      modifies this`selectedItemId
      ensures entry.isActive ==> selectedItemId == Some(entry.itemId)
      ensures !entry.isActive ==> selectedItemId == old(selectedItemId)
    {
      if entry.isActive {
        selectedItemId := Some(entry.itemId);
      }
    }
  }

  /** A first fetch from a fresh store lists one item with 42.5 units: the
      item is recorded as seen and shows as active in the all-time view. */
  method FirstFetchScenario() returns (home: HomeRoute)
    ensures fresh(home) && home.seenWebdeeds == ["webdeed-123"]
    ensures home.items == Some([Item("webdeed-123", 42.5)])
  {
    var store := new LocalStore(true, map[]);
    home := new HomeRoute(store);
    var item := Item("webdeed-123", 42.5);
    var fetched := home.RunItemsQuery(Success([item]));
    assert ItemIds([item]) == ["webdeed-123"];
    assert AddedAll([], ["webdeed-123"]) == ["webdeed-123"] by {
      assert ["webdeed-123"][..0] == [];
    }
  }

  /** With the dialog open on an item holding 42.5 units and nothing staged
      for it, sending 50 is refused: no send is requested from the token
      service and nothing is staged. */
  method RefusedSendScenario(home: HomeRoute, modal: SendWebdeedModal, deed: string) returns (request: Option<SendRequest>)
    requires home.selectedItemId == Some("webdeed-123") && "webdeed-123" !in home.generatedOutputs
    requires home.items == Some([Item("webdeed-123", 42.5)])
    requires modal.sendAmount == "50"
    modifies home
    ensures request == None
    ensures home.generatedOutputs == old(home.generatedOutputs)
  {
    assert home.ModalShown();
    FirstMatchWins([], "webdeed-123", 42.5);
    SendBoundsAtFortyTwoAndAHalf();
    request := home.SubmitFromModal(modal, Success(deed));
  }

  /** With a transfer string staged for the open item: a declined close
      keeps the dialog and the string, and a confirmed close drops both. */
  method AcknowledgeScenario(home: HomeRoute, modal: SendWebdeedModal, deed: string)
    requires home.selectedItemId == Some("webdeed-123") && deed != ""
    requires home.generatedOutputs == map["webdeed-123" := deed]
    modifies home
    ensures home.generatedOutputs == map[] && home.selectedItemId == None
  {
    assert home.ModalShown();
    var asked := home.CloseSendModal(modal, false);
    assert asked && home.generatedOutputs == map["webdeed-123" := deed];
    asked := home.CloseSendModal(modal, true);
    assert map["webdeed-123" := deed] - {"webdeed-123"} == map[];
  }

  /** Once the item is spent, the next fetch lists nothing: the item stays
      seen, and the all-time view shows it with balance 0, inactive. */
  method SpentItemScenario(home: HomeRoute)
    requires home.store.hasWindow && home.store.entries == map[SeenKey := IdList(["webdeed-123"])]
    modifies home, home.store
    ensures home.seenWebdeeds == ["webdeed-123"] && home.items == Some([])
    ensures AllWebdeeds(home.seenWebdeeds, home.items) == [Entry("webdeed-123", 0.0, false)]
  {
    var fetched := home.RunItemsQuery(Success([]));
    assert fetched.Success?;
    assert AddedAll(["webdeed-123"], ItemIds([])) == ["webdeed-123"];
    SeenButInactive(home.seenWebdeeds, home.items, 0);
  }
}
