# Webdeeds wallet: seen-set, transfer staging and mint sequencing

A Dafny model of the state-keeping core of the Webdeeds wallet, a browser
wallet for bearer "deed" tokens. The model covers three pieces:

- **Home page** (`app/routes/home.tsx`):
  - the append-only, duplicate-free list of every item id ever seen, persisted
    under the local-storage key `webdeeds-seen`;
  - the inventory query, which folds every id `wallet.list()` returns into that
    list;
  - the "all-time" view, with one entry per seen id, its live balance or 0, and
    `isActive`;
  - the receive input;
  - `generatedOutputs`, which maps each item id to at most one staged transfer
    string.
- **Send dialog** (`app/components/send-webdeed-modal.tsx`):
  - the amount check in `handleSend` and the separate "Send disabled" test;
  - the switch between the amount input and the read-only transfer string;
  - Copy;
  - the close protocol, which will not drop a generated transfer string unless
    the user confirms.
- **Mint page** (`app/routes/mint.tsx`):
  - the initial form and the per-field update rule, including the quantity
    fallback `parseInt(value) || 1`;
  - the mint operation: create the item with one initial output, then receive
    that output, then return the new id.

Modules, one per concern:

| file | module | contents |
|---|---|---|
| wrappers.dfy | `Wrappers` | `Option`, `Result`, `Outcome` |
| token_service.dfy | `TokenService` | the data exchanged with the token service (`Item`, `CreateRequest`, `ServiceCall`, ...) |
| js_text.dfy | `JsText` | ECMAScript whitespace and `String.prototype.trim` |
| js_number.dfy | `JsNumber` | ECMAScript `parseFloat`, `parseInt` (no radix) and the decimal text of an integer, on exact numbers |
| seen_store.dfy | `SeenStore` | `getSeenWebdeeds` as a function of the storage contents, `addSeenWebdeed` as a method of a `LocalStore` class, and the pure list they maintain |
| inventory.dfy | `Inventory` | `find`, the all-time view, the dialog's available amount |
| send_modal.dfy | `SendModal` | the dialog's guards, its view switch and its handlers (class `SendWebdeedModal`) |
| home.dfy | `Home` | the Home page's state and handlers (class `HomeRoute`) |
| mint.dfy | `Mint` | the form, its update rule, the mint sequence and the page state (class `MintRoute`) |

How the outside world appears:

- **Calls into the token service become parameters.** These are
  `wallet.list`, `wallet.send`, `wallet.receive` and `client.mint.create`.
  Each handler takes the call's outcome (a `Result` or `Outcome`) as a
  parameter. A handler that is also responsible for *whether* the call happens
  returns the arguments it passed: `HandleReceive` returns `submitted`,
  `SubmitFromModal` returns `request`, and `MintDeed` returns the ordered list
  `calls`.
- **Local storage is a `map<string, StoredText>` field of `LocalStore`.** It
  sits beside a `hasWindow` flag, which is false for a server-side render. A
  stored text is one of three things:
  - `IdList(ids)`: the JSON of a list of ids;
  - `EmptyText`: the empty string, which the code treats as nothing stored;
  - `Unparseable`: text that `JSON.parse` rejects.
- **`window.confirm` is a boolean parameter**, `confirmed`.
- **The clipboard write's outcome is a boolean parameter**, `clipboardAccepts`.
- **The mint's fresh `Secret` is a string parameter.**
- **`invalidateQueries(["wallet-items"])` sets the flag `itemsInvalidated`.**
  A refetch is another call of `RunItemsQuery`; only a successful one clears
  the flag, and a failed one leaves it set.
- **Numbers:**
  - JavaScript numbers are `JsNumber.Number`: `NaN`, `Finite(real)` or
    `Infinity(negative)`.
  - Amounts are reals, and quantities are integers.
  - JavaScript comparisons with NaN are false both ways. `AtMost` and `Above`
    model this.

Behaviours of the code that a reader might expect to be otherwise, which the
model follows as written:

- **A corrupt stored seen list is not tolerated.** One might expect an
  unreadable seen list to degrade to an empty one. In the code, `JSON.parse`
  throws and nothing catches it, so every inventory query fails.
  `RunItemsQuery` returns `Failure(SeenFailed(MalformedJson))` in that case,
  and `Mount` returns `Fail(MalformedJson)`.
- **The seen set is an ordered list, not a set.** It keeps first-seen order
  and never holds an id twice.
- **The all-time view is not a union with the fetched items.** The code maps
  over the seen list only. `ActiveEntriesAreListedItems` shows that this
  agrees with a union once a fetch has added every listed id.
- **Only the first of two listed items with the same id counts.** The first
  one supplies the balance (`FirstMatchWins`).

## Model

| member | source | states |
|---|---|---|
| `JsText.TrimStart` | app/routes/home.tsx:104 | the leading-whitespace skip yields a suffix that does not start with whitespace, and only whitespace is dropped |
| `JsText.TrimEnd` | app/routes/home.tsx:104 | the trailing-whitespace skip yields a prefix that does not end with whitespace, and only whitespace is dropped |
| `JsText.Trim` | app/routes/home.tsx:104 | `outputString.trim()` is empty exactly when every character of the input is whitespace; otherwise it starts and ends with a visible character and is no longer than the input |
| `JsText.TrimStartOfVisible` | app/components/send-webdeed-modal.tsx:54 | the whitespace skip of `parseFloat`/`parseInt` leaves text that starts with a visible character unchanged |
| `JsNumber.SplitDigits` | app/components/send-webdeed-modal.tsx:54 | the digit scan of `parseFloat`/`parseInt` splits the text into a run of digits and a rest that together are the text, and stops exactly at the first non-digit |
| `JsNumber.SplitDigitsAt` | app/components/send-webdeed-modal.tsx:54 | a run of digits followed by text that does not start with a digit is split exactly at that point |
| `JsNumber.SplitDigitsOfDigits` | app/components/send-webdeed-modal.tsx:54 | text made only of digits is scanned to its end |
| `JsNumber.ParseFloat` | app/components/send-webdeed-modal.tsx:54 | blank text parses to NaN, and a negative result (finite or infinite) only comes from text whose first visible character is `-`; `ParseFloatOfSignedDigits`, `ParseFloatOfIntToString`, `ParseFloatOfFraction`, `ParseFloatOfEmpty` and `ParseFloatOfWord` pin down its value on integers, on `whole.fraction` literals, on `""` and on `"abc"` |
| `JsNumber.ParseInt` | app/routes/mint.tsx:87 | blank text gives NaN (`None`), and a negative result only comes from text whose first visible character is `-`; `ParseIntOfIntToString` shows it reads back every integer's `toString()` |
| `JsNumber.IntToString` | app/routes/mint.tsx:173 | an integer's `toString()` is non-empty, starts with `-` exactly when the integer is negative, and is otherwise decimal digits; `ParseIntOfIntToString` and `ParseFloatOfIntToString` show both parsers read it back |
| `JsNumber.NatToDecimal` | app/routes/mint.tsx:173 | an integer's `toString()` is a non-empty run of decimal digits with no leading zero |
| `JsNumber.DecimalValue` | app/routes/mint.tsx:173 | reading back the digits `toString()` writes gives the same natural number |
| `JsNumber.ParseIntOfIntToString` | app/routes/mint.tsx:87 | `parseInt` of the text the quantity input shows gives the quantity back, for every integer |
| `JsNumber.ParseIntOfSignedDigits` | app/routes/mint.tsx:87 | `parseInt` of an optional `-` and decimal digits, leading zeros included (`"007"` reads as 7), is exactly the signed integer they denote |
| `JsNumber.UnsignedDecimalOfDigits` | app/components/send-webdeed-modal.tsx:54 | `parseFloat`'s reading of a whole run of decimal digits is exactly the integer they denote |
| `JsNumber.ParseFloatOfSignedDigits` | app/components/send-webdeed-modal.tsx:54 | `parseFloat` of an optional `-` followed by decimal digits is exactly the signed integer they denote |
| `JsNumber.ParseFloatOfFraction` | app/components/send-webdeed-modal.tsx:54 | `parseFloat` of `whole.fraction` is exactly the digits' value divided by ten to the length of the fraction |
| `JsNumber.ParseFloatOfIntToString` | app/components/send-webdeed-modal.tsx:54 | `parseFloat` of an integer's decimal text is that integer |
| `JsNumber.ParseFloatOfEmpty` | app/components/send-webdeed-modal.tsx:164 | an empty amount parses to NaN |
| `SeenStore.Added` | app/routes/home.tsx:35-38 | adding an id yields a list that contains it, keeps the old list as a prefix, grows by at most one, adds nothing else, and stays duplicate-free |
| `SeenStore.AddedAll` | app/routes/home.tsx:68-70 | folding ids in one after the other keeps the old list as a prefix, appends at most one entry per id, and contains the last id folded in; `AddedAllGrows` and `AddedAllKnown` give the full membership and no-duplicate facts |
| `SeenStore.AddedAllGrows` | app/routes/home.tsx:68-70 | folding the listed ids in keeps every earlier id in place, adds every listed id, adds nothing else, and creates no duplicate |
| `SeenStore.AddedAllKnown` | app/routes/home.tsx:68-70 | a fetch that lists only known ids leaves the seen list unchanged |
| `SeenStore.AddedIdempotent` | app/routes/home.tsx:34-40 | adding the same id twice equals adding it once |
| `SeenStore.GetSeenWebdeeds` | app/routes/home.tsx:28-32 | the read fails (the parse exception) exactly when a window exists and the stored text is corrupt; with a window and a stored list the result is exactly that list, and a non-empty result only comes from one; otherwise the result is `[]` |
| `SeenStore.LocalStore.AddSeenWebdeed` | app/routes/home.tsx:34-40 | a present id leaves storage untouched; an absent id is appended and written; a read exception propagates; without a window the write fails; on success the next read contains the id; other keys are untouched |
| `Inventory.ItemIdsCover` | app/routes/home.tsx:68-70 | every listed item's id is among the ids the query adds |
| `Inventory.FirstIndex` | app/routes/home.tsx:123 | `find` stops at the first item with the id: no earlier item has it, and the index is past the end when none does |
| `Inventory.ActiveItem` | app/routes/home.tsx:123 | `items?.find(...)` is defined exactly when the fetched inventory lists the id, and then it is the first such item |
| `Inventory.AvailableAmount` | app/routes/home.tsx:238-241 | the amount is the first listed item's balance, or 0 when the id is unlisted or nothing has been fetched |
| `Inventory.AllWebdeeds` | app/routes/home.tsx:122-129 | one entry per seen id, in seen order; `isActive` holds iff the fetch lists the id; the balance is the first match's amount or 0 |
| `Inventory.SeenButInactive` | app/routes/home.tsx:122-129 | a seen id that is not listed shows with balance 0 and inactive |
| `Inventory.ActiveEntriesAreListedItems` | app/routes/home.tsx:63-74 | once every listed id is seen, each listed item has an active entry with its balance, and every active entry is a listed item |
| `Inventory.FirstMatchWins` | app/routes/home.tsx:123 | when two items share an id, the first one's balance is shown |
| `Inventory.OneListedItemView` | app/routes/home.tsx:122-129 | one seen item listed with 42.5 units is a single active entry holding 42.5 |
| `SendModal.SendAccepted` | app/components/send-webdeed-modal.tsx:53-58 | `handleSend` accepts exactly a finite parsed amount `a` with `0 < a <= amount`; NaN and both infinities are refused |
| `SendModal.SendDisabled` | app/components/send-webdeed-modal.tsx:163-167 | Send is disabled iff the input is empty, parses to an infinity, or parses to a finite value `<= 0` or `> amount`; NaN leaves it enabled |
| `SendModal.Present` | app/components/send-webdeed-modal.tsx:112 | JavaScript truthiness of the optional `sentDeed` (also at lines 61, 69 and 154): defined and not the empty string, so an empty staged string counts as absent |
| `SendModal.AcceptedImpliesEnabled` | app/components/send-webdeed-modal.tsx:55 | whenever `handleSend` would call `onSend`, the Send button is enabled |
| `SendModal.GuardsDisagreeOnlyOnNaN` | app/components/send-webdeed-modal.tsx:163-167 | the button is enabled while `handleSend` refuses exactly when the input is non-empty and parses to NaN |
| `SendModal.NonNumericTextIsEnabledButRejected` | app/components/send-webdeed-modal.tsx:53-58 | the text "abc" leaves Send enabled and is still refused, for every available amount |
| `SendModal.ParseFloatOfWord` | app/components/send-webdeed-modal.tsx:54 | `parseFloat("abc")` is NaN |
| `SendModal.SendWholeBalance` | app/components/send-webdeed-modal.tsx:53-58 | typing exactly the available balance as `whole.fraction` (42.5, say, as the input's 0.1 steps give) parses to that balance, is accepted and leaves Send enabled: the upper bound is inclusive |
| `SendModal.SendBoundsAtFortyTwoAndAHalf` | app/components/send-webdeed-modal.tsx:53-58 | with 42.5 available, 10 parses to exactly 10, is accepted and is enabled; 50 is refused and disabled |
| `SendModal.ViewFor` | app/components/send-webdeed-modal.tsx:112-146 | the read-only transfer string (with Copy/Done) shows exactly when `sentDeed` is non-empty (truthy), and it shows that string; otherwise, including for an empty string, the amount input shows |
| `SendModal.SendWebdeedModal.constructor` | app/components/send-webdeed-modal.tsx:50-51 | the amount input starts empty and nothing is copied |
| `SendModal.SendWebdeedModal.EditAmount` | app/components/send-webdeed-modal.tsx:140 | typing sets the amount text |
| `SendModal.SendWebdeedModal.HandleSend` | app/components/send-webdeed-modal.tsx:53-58 | `onSend(itemId, a)` is requested exactly when `a` parses finite with `0 < a <= amount`, and with exactly that `a` |
| `SendModal.SendWebdeedModal.HandleCopy` | app/components/send-webdeed-modal.tsx:60-66 | without a non-empty (truthy) transfer string nothing happens; with one exactly that string is written, and `copied` is set once the write succeeds |
| `SendModal.SendWebdeedModal.HandleClose` | app/components/send-webdeed-modal.tsx:68-81 | confirmation is asked iff the transfer string is non-empty (truthy); without one the dialog closes only; with one, yes means close then complete, and no means neither |
| `Home.StagedFor` | app/routes/home.tsx:244 | `generatedOutputs[id]` is defined iff the map has the id, and then it is the stored string |
| `Home.HomeRoute.ModalShown` | app/routes/home.tsx:233 | `selectedItemId && ...`: the dialog is rendered only for a selection that is defined and not the empty string |
| `Home.HomeRoute.constructor` | app/routes/home.tsx:51-56 | empty input, no selection, no staged strings, empty seen list, no items yet |
| `Home.HomeRoute.Mount` | app/routes/home.tsx:59-61 | on mount the seen list is loaded from storage; a corrupt value fails and leaves the state unchanged |
| `Home.HomeRoute.RecordSeen` | app/routes/home.tsx:68-70 | adding the listed ids one after the other fails only on the first call (a corrupt list, or no window), and then storage is untouched; on success the stored list is the old one with every new id appended in order; other keys are untouched |
| `Home.HomeRoute.RunItemsQuery` | app/routes/home.tsx:63-74 | the query succeeds iff `wallet.list()` succeeds, the stored list is readable, and there is a window or nothing to add. On success the items are exactly those listed, in order; every listed id is seen; the old list is a prefix; no duplicate appears; storage holds the new list. On failure nothing changes |
| `Home.HomeRoute.EditReceiveInput` | app/routes/home.tsx:153 | typing sets the receive input |
| `Home.HomeRoute.HandleReceive` | app/routes/home.tsx:103-107 | `[outputString]` is submitted iff the input has a non-whitespace character; only a successful receive clears it and asks for a refetch; a failure leaves it intact |
| `Home.HomeRoute.OnSendSettled` | app/routes/home.tsx:97-100 | a successful send sets `generatedOutputs[itemId]`, overwriting any earlier entry, leaves all other keys alone, and asks for a refetch; a failed one changes nothing |
| `Home.HomeRoute.SubmitFromModal` | app/components/send-webdeed-modal.tsx:154-171 | Send exists only in the amount view, so it is reachable only while the selected item has no non-empty (truthy) staged string; `wallet.send` is reached iff the typed amount passes `handleSend` against that item's available amount (home.tsx:109-111), with the parsed amount; only its success stages the string; a send never replaces or removes a non-empty staged string (a staged empty string is falsy and may be overwritten) |
| `Home.HomeRoute.HandleModalComplete` | app/routes/home.tsx:113-119 | only the rendered item's entry is removed; other entries are unchanged; it is a no-op when no entry exists |
| `Home.HomeRoute.CloseSendModal` | app/routes/home.tsx:233-247 | with a non-empty (truthy) staged string and no confirmation, both the string and the open dialog stay; it is dropped, and the dialog closed, only on a yes; without one, the dialog just closes; the staged map changes only on a confirmed close |
| `Home.HomeRoute.OpenFromInventory` | app/routes/home.tsx:186 | an inventory row's send opens the dialog on that item |
| `Home.HomeRoute.OpenFromSeen` | app/routes/home.tsx:219-221 | a Seen-tab row opens the dialog only when it is active |
| `Home.FirstFetchScenario` | app/routes/home.tsx:63-74 | a first fetch from an empty store that lists one item records that item as seen and keeps the fetched list |
| `Home.RefusedSendScenario` | app/components/send-webdeed-modal.tsx:53-58 | with 42.5 available and nothing staged, an amount of 50 makes no send request and stages nothing |
| `Home.AcknowledgeScenario` | app/components/send-webdeed-modal.tsx:68-81 | with a transfer string staged, a declined close keeps it and a confirmed close drops it and the selection |
| `Home.SpentItemScenario` | app/routes/home.tsx:122-129 | once a seen item is no longer listed, it stays in the all-time view with balance 0 and inactive |
| `Mint.QuantityFromInput` | app/routes/mint.tsx:87 | the quantity is never 0; it is the parsed integer when that is non-zero, else 1; negatives are kept |
| `Mint.ApplyChange` | app/routes/mint.tsx:83-89 | the edited text field takes the raw input; quantity takes the parsed integer, or 1 when that is NaN or 0; every other field is unchanged |
| `Mint.OtherInputsKeepTheirText` | app/routes/mint.tsx:83-89 | an edit leaves the text every other input shows unchanged |
| `Mint.RetypingShownTextIsNoOp` | app/routes/mint.tsx:168-176 | typing back the text an input shows, including the quantity's `toString()`, changes nothing |
| `Mint.MintRequest` | app/routes/mint.tsx:45-60 | the metadata copies name and description and maps `imageUrl` to `image`; there is exactly one initial output, for `quantity` units, on the placeholder id |
| `Mint.MintDeed` | app/routes/mint.tsx:43-65 | create comes first; receive is called with create's outputs only after create succeeds; a failed create means no receive; the id is returned only when both succeed |
| `Mint.MintRoute.constructor` | app/routes/mint.tsx:35-41 | the form starts empty with quantity 1, and `mintedDeed` is null |
| `Mint.MintRoute.ShowsSuccessCard` | app/routes/mint.tsx:105 | `mintedDeed ? ...`: the success card shows only for a defined, non-empty `mintedDeed`; the constructor and both handlers keep it false |
| `Mint.MintRoute.HandleChange` | app/routes/mint.tsx:83-89 | an edit applies `ApplyChange` and keeps the quantity non-zero and `mintedDeed` null |
| `Mint.MintRoute.HandleSubmit` | app/routes/mint.tsx:78-81 | submitting runs the mint sequence on the current form (create, then receive only after a successful create), returns create's error or else receive's error, and never sets `mintedDeed`, so the success card stays unreachable |

## Left out

- **IEEE-754 arithmetic.** Parsed numbers are exact reals, so the model has no
  rounding, no overflow of large exponents to Infinity, and no negative zero.
  The one visible effect of negative zero, `parseInt("-0") || 1`, still gives
  1.
- **`toString` of large integers.** `toString()` of an integer of 10^21 or
  more switches to exponent notation. `NatToDecimal` always writes plain
  digits.
- **Other JSON values in storage.** A stored JSON value that is not a list of
  strings, such as a number, is not modelled. JSON serialisation itself is
  also left out: `IdList` stands for the text `JSON.stringify` writes.
- **Storage write failures.** A write that fails for lack of quota is not
  modelled. The write fails only when there is no window.
- **react-query behaviour:**
  - caching and refetch timing;
  - the automatic retries of a failed query;
  - the `isPending` and `isLoading` flags, including the Send button's
    loading state;
  - mutations running concurrently.
  Each mutation is modelled as one step that runs until its service call
  settles.
- **The mint's success handler.** Its toast and its invalidation of the
  wallet-items query are left out, as is navigation back to the wallet.
- **The dialog's metadata fetch** (`client.registry.getItemById`) and
  everything it only renders.
- **The 2-second timer that resets `copied`.**
- **Inherited members of `generatedOutputs`.** It is a plain object
  (home.tsx:53-55), so `generatedOutputs[id]` (home.tsx:244) returns an
  inherited member, such as a function, for an id like "constructor" or
  "toString"; `StagedFor` returns `None` there. Item ids come from the token
  service, so such an id is not expected.
- **`onComplete` as an optional prop.** The model assumes `onComplete` is
  given, as the Home page always gives it.
- **The token service's internals.** `Wallet`, `Output`, `Secret` and the
  cryptographic scheme are left out. An output's string form is the
  `OutputText` datatype.
- **What the browser does with input attributes.** The amount input has
  `type="number"` (send-webdeed-modal.tsx:136), so a browser does not let
  text such as "abc" into it. `GuardsDisagreeOnlyOnNaN` and
  `NonNumericTextIsEnabledButRejected` describe the handlers on any text,
  which a browser may make unreachable. Likewise the form's `required` name
  (mint.tsx:134) and `min="1"` quantity (mint.tsx:172) may stop the browser
  from submitting; `HandleSubmit` models the handler once a submit happens.
- **React's error boundary.** The exception `getSeenWebdeeds` throws on mount
  (home.tsx:59) escapes `useEffect`, reaches the route's error boundary and
  replaces the page. `Mount` returning `Fail` is where the model stops: no
  later handler of that page runs.
- **Unmounting the dialog.** Closing the dialog clears the selection, which
  unmounts it (home.tsx:233), and that resets `sendAmount` and `copied`. The
  model keeps one `SendWebdeedModal` object across a close; a reopened
  dialog starts as a fresh `SendWebdeedModal.constructor`.
