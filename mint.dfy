/** The Mint page (`Mint` in app/routes/mint.tsx): the form, its per-field
    update rule, and the mint operation, which creates an item with one
    initial output and then receives that output into the wallet. */
module Mint {
  import opened Wrappers
  import opened JsNumber
  import opened TokenService

  datatype FormData = FormData(name: string, description: string, imageUrl: string, quantity: int)

  /** The form's inputs, by their `name` attribute. */
  datatype Field = Name | Description | ImageUrl | Quantity

  /** The form as the page first shows it. */
  const InitialForm: FormData := FormData("", "", "", 1)

  /** The item id written into the initial output before the item exists. */
  const PlaceholderItemId: string := "Placeholder"

  /** The text an input shows: the field itself, or the quantity's
      `toString()`. */
  function FieldText(form: FormData, field: Field): string {
    match field
    case Name => form.name
    case Description => form.description
    case ImageUrl => form.imageUrl
    case Quantity => IntToString(form.quantity)
  }

  /** `parseInt(value) || 1`: the parsed integer unless it is NaN or 0, when
      the quantity falls back to 1. A negative number is kept. */
  function QuantityFromInput(value: string): (q: int)
    ensures q != 0
    ensures q == 1 || ParseInt(value) == Some(q)
    ensures ParseInt(value).Some? && ParseInt(value).value != 0 ==> q == ParseInt(value).value
  {
    match ParseInt(value)
    case Some(n) => if n != 0 then n else 1
    case None => 1
  }

  /** `handleChange`: the edited field takes the typed text (the quantity,
      `QuantityFromInput` of it) and every other field keeps its value. */
  function ApplyChange(prev: FormData, field: Field, value: string): (next: FormData)
    ensures field != Quantity ==> FieldText(next, field) == value && next.quantity == prev.quantity
    ensures field == Quantity ==> next.quantity == QuantityFromInput(value)
    ensures field != Name ==> next.name == prev.name
    ensures field != Description ==> next.description == prev.description
    ensures field != ImageUrl ==> next.imageUrl == prev.imageUrl
  {
    match field
    case Name => prev.(name := value)
    case Description => prev.(description := value)
    case ImageUrl => prev.(imageUrl := value)
    case Quantity => prev.(quantity := QuantityFromInput(value))
  }

  /** An edit leaves the text of every other input as it was. */
  lemma OtherInputsKeepTheirText(prev: FormData, field: Field, value: string, other: Field)
    requires other != field
    ensures FieldText(ApplyChange(prev, field, value), other) == FieldText(prev, other)
  {
  }

  /** Typing back the text an input already shows changes nothing, as long
      as the quantity is not 0 (which no edit produces). */
  lemma RetypingShownTextIsNoOp(form: FormData, field: Field)
    requires form.quantity != 0
    ensures ApplyChange(form, field, FieldText(form, field)) == form
  {
    if field == Quantity {
      ParseIntOfIntToString(form.quantity);
    }
  }

  /** The request `mutationFn` sends to `client.mint.create`: the metadata
      copies name and description and takes `image` from `imageUrl`; there
      is exactly one initial output, holding `quantity` units. */
  function MintRequest(data: FormData, secret: string): (req: CreateRequest)
    ensures req.metadata.name == data.name && req.metadata.description == data.description
    ensures req.metadata.image == data.imageUrl
    ensures |req.outputs| == 1 && req.outputs[0].amount == data.quantity
    ensures req.outputs[0].itemId == PlaceholderItemId && req.outputs[0].secret == secret
  {
    CreateRequest(Metadata(data.name, data.description, data.imageUrl),
                  [OutputText(data.quantity, PlaceholderItemId, secret)])
  }

  /** `mintMutation.mutationFn`, given a fresh `secret` and the outcomes of
      `client.mint.create` and `wallet.receive`: it calls create, and only
      after create succeeds it receives the outputs create returned; the new
      item's id is the result only when both succeed. `calls` lists the
      token-service calls in the order they are made. */
  method MintDeed(data: FormData, secret: string, created: Result<CreateResult, ServiceError>,
                  received: Outcome<ServiceError>)
    returns (calls: seq<ServiceCall>, r: Result<string, ServiceError>)
    ensures |calls| >= 1 && calls[0] == Create(MintRequest(data, secret))
    ensures created.Failure? ==> calls == [calls[0]] && r == Failure(created.error)
    ensures created.Success? ==> calls == [calls[0], Receive(created.value.outputs)]
    ensures r.Success? <==> created.Success? && received.Pass?
    ensures r.Success? ==> r.value == created.value.itemId
    ensures created.Success? && received.Fail? ==> r == Failure(received.error)
  {
    var request := MintRequest(data, secret);
    calls := [Create(request)];
    if created.Failure? {
      return calls, Failure(created.error);
    }
    var results := created.value;
    calls := calls + [Receive(results.outputs)];
    if received.Fail? {
      return calls, Failure(received.error);
    }
    r := Success(results.itemId);
  }

  /** The page's state: the form and `mintedDeed`, which nothing ever sets. */
  class MintRoute {
    var formData: FormData
    var mintedDeed: Option<string>

    /** What every reachable state satisfies: the quantity is never 0, and
        `mintedDeed` stays null. */
    ghost predicate Valid()
      reads this
    {
      formData.quantity != 0 && mintedDeed == None
    }

    /** The success card shows when `mintedDeed` is truthy. */
    predicate ShowsSuccessCard()
      reads this
    {
      mintedDeed.Some? && mintedDeed.value != ""
    }

    constructor ()
      ensures Valid() && formData == InitialForm && !ShowsSuccessCard()
    {
      formData := InitialForm;
      mintedDeed := None;
    }

    /** An input's `onChange`. */
    method HandleChange(field: Field, value: string)
      requires Valid()
      modifies this`formData
      ensures Valid() && !ShowsSuccessCard()
      ensures formData == ApplyChange(old(formData), field, value)
    {
      formData := ApplyChange(formData, field, value);
    }

    /** `handleSubmit`: runs the mint with the current form. The form and
        `mintedDeed` are left as they are, so the success card never shows. */
    method HandleSubmit(secret: string, created: Result<CreateResult, ServiceError>, received: Outcome<ServiceError>)
      returns (calls: seq<ServiceCall>, r: Result<string, ServiceError>)
      requires Valid()
      ensures Valid() && !ShowsSuccessCard()
      ensures |calls| >= 1 && calls[0] == Create(MintRequest(formData, secret))
      ensures created.Failure? ==> calls == [calls[0]] && r == Failure(created.error)
      ensures created.Success? ==> calls == [calls[0], Receive(created.value.outputs)]
      ensures r.Success? <==> created.Success? && received.Pass?
      ensures r.Success? ==> r.value == created.value.itemId
      ensures created.Success? && received.Fail? ==> r == Failure(received.error)
    {
      calls, r := MintDeed(formData, secret, created, received);
    }
  }
}
