/** The send dialog (`SendWebdeedModal`): the amount guards, the view
    switch between the amount input and the generated transfer string, and
    the close protocol that will not drop a generated string unless the
    user confirms. */
module SendModal {
  import opened Wrappers
  import opened JsText
  import opened JsNumber

  /** `onSend(itemId, amount)`: what the dialog asks its owner to send. */
  datatype SendRequest = SendRequest(itemId: string, amount: real)

  /** Which callbacks `handleClose` fires, in order. */
  datatype CloseEffect = StayOpen | CloseOnly | CloseThenComplete

  /** The body of the dialog: the read-only transfer string with Copy and
      Done, or the amount input with Send. */
  datatype View = OutputView(deed: string) | AmountView

  /** JavaScript truthiness of the optional `sentDeed` prop: present and not
      the empty string. */
  predicate Present(sentDeed: Option<string>) {
    sentDeed.Some? && sentDeed.value != ""
  }

  /** `handleSend`'s test: `parseFloat(sendAmount)` is not NaN, is above 0
      and is at most the available `amount`. */
  function SendAccepted(sendAmount: string, amount: real): (ok: bool)
    ensures ok <==> ParseFloat(sendAmount).Finite? && 0.0 < ParseFloat(sendAmount).value <= amount
  {
    var a := ParseFloat(sendAmount);
    !a.NaN? && Above(a, 0.0) && AtMost(a, amount)
  }

  /** The Send button's `isDisabled`: the input is empty, or parses to a
      number at most 0, or to one above `amount`. NaN compares false both
      ways, so non-numeric text leaves the button enabled. */
  function SendDisabled(sendAmount: string, amount: real): (disabled: bool)
    ensures disabled <==>
      || sendAmount == ""
      || ParseFloat(sendAmount).Infinity?
      || (ParseFloat(sendAmount).Finite? && (ParseFloat(sendAmount).value <= 0.0 || ParseFloat(sendAmount).value > amount))
  {
    sendAmount == "" || AtMost(ParseFloat(sendAmount), 0.0) || Above(ParseFloat(sendAmount), amount)
  }

  /** Whenever `handleSend` would call `onSend`, the Send button is enabled. */
  lemma AcceptedImpliesEnabled(sendAmount: string, amount: real)
    ensures SendAccepted(sendAmount, amount) ==> !SendDisabled(sendAmount, amount)
  {
    ParseFloatOfEmpty();
  }

  /** The two guards disagree exactly on non-empty text that is not a
      number: the button is enabled there but `handleSend` does nothing. */
  lemma GuardsDisagreeOnlyOnNaN(sendAmount: string, amount: real)
    ensures (!SendDisabled(sendAmount, amount) && !SendAccepted(sendAmount, amount))
            <==> (sendAmount != "" && ParseFloat(sendAmount).NaN?)
  {
    ParseFloatOfEmpty();
  }

  /** Text that is not a number enables the button and is still rejected. */
  lemma NonNumericTextIsEnabledButRejected(amount: real)
    ensures !SendDisabled("abc", amount) && !SendAccepted("abc", amount)
  {
    ParseFloatOfWord();
  }

  /** `parseFloat("abc")` is NaN: no digit, sign or `Infinity` starts it. */
  lemma ParseFloatOfWord()
    ensures ParseFloat("abc") == NaN
  {
    TrimStartOfVisible("abc");
    assert SplitSign("abc") == (false, "abc");
    assert SplitDigits("abc", 10) == ([], "abc");
  }

  /** With 42.5 available, sending 10 is accepted and sending 50 is refused
      on both guards, before any call to the token service. */
  lemma SendBoundsAtFortyTwoAndAHalf()
    ensures ParseFloat("10") == Finite(10.0)
    ensures SendAccepted("10", 42.5) && !SendDisabled("10", 42.5)
    ensures SendDisabled("50", 42.5) && !SendAccepted("50", 42.5)
  {
    assert IntToString(10) == "10";
    assert IntToString(50) == "50";
    ParseFloatOfIntToString(10);
    ParseFloatOfIntToString(50);
  }

  /** Typing exactly the available balance, written with a fraction as the
      amount input's 0.1 steps produce it (42.5, say), parses to that amount,
      is accepted and leaves Send enabled: the upper bound is inclusive. */
  lemma SendWholeBalance(whole: string, fraction: string)
    requires whole != [] && forall i :: 0 <= i < |whole| ==> IsDigit(whole[i], 10)
    requires forall i :: 0 <= i < |fraction| ==> IsDigit(fraction[i], 10)
    requires DigitsValue(whole + fraction, 10) > 0
    ensures var balance := DigitsValue(whole + fraction, 10) as real / Pow10(|fraction|) as real;
      && ParseFloat(whole + ("." + fraction)) == Finite(balance)
      && SendAccepted(whole + ("." + fraction), balance)
      && !SendDisabled(whole + ("." + fraction), balance)
  {
    ParseFloatOfFraction(whole, fraction);
    PositiveQuotient(DigitsValue(whole + fraction, 10), Pow10(|fraction|));
  }

  lemma PositiveQuotient(m: nat, p: nat)
    requires m > 0 && p > 0
    ensures m as real / p as real > 0.0
  {
  }

  /** The dialog body: the transfer string exactly when one is present. */
  function ViewFor(sentDeed: Option<string>): (v: View)
    ensures v.OutputView? <==> Present(sentDeed)
    ensures v.OutputView? ==> v.deed == sentDeed.value
  {
    if Present(sentDeed) then OutputView(sentDeed.value) else AmountView
  }

  /** The dialog's own state: the amount typed, and whether Copy succeeded. */
  class SendWebdeedModal {
    var sendAmount: string
    var copied: bool

    constructor ()
      ensures sendAmount == "" && !copied
    {
      sendAmount := "";
      copied := false;
    }

    /** The amount input's `onChange`. */
    method EditAmount(text: string)
      modifies this`sendAmount
      ensures sendAmount == text
    {
      sendAmount := text;
    }

    /** `handleSend`: asks for a send of the parsed amount exactly when the
        amount is a number in `(0, amount]`; otherwise does nothing. */
    method HandleSend(itemId: string, amount: real) returns (request: Option<SendRequest>)
      ensures request.Some? <==> SendAccepted(sendAmount, amount)
      ensures request.Some? ==> request.value == SendRequest(itemId, ParseFloat(sendAmount).value)
    {
      var amountToSend := ParseFloat(sendAmount);
      if SendAccepted(sendAmount, amount) {
        request := Some(SendRequest(itemId, amountToSend.value));
      } else {
        request := None;
      }
    }

    /** `handleCopy`: without a transfer string nothing happens; with one it
        writes exactly that string to the clipboard, and marks it copied once
        the write succeeds. */
    method HandleCopy(sentDeed: Option<string>, clipboardAccepts: bool) returns (written: Option<string>)
      modifies this`copied
      ensures !Present(sentDeed) ==> written == None && copied == old(copied)
      ensures Present(sentDeed) ==> written == sentDeed && copied == (clipboardAccepts || old(copied))
    {
      written := None;
      if Present(sentDeed) {
        written := sentDeed;
        if clipboardAccepts {
          copied := true;
        }
      }
    }

    /** `handleClose`, with `confirmed` the answer to `window.confirm`. With
        no transfer string it closes without asking; with one it asks, and
        closes and then completes only on a yes, doing nothing on a no. */
    method HandleClose(sentDeed: Option<string>, confirmed: bool) returns (asked: bool, effect: CloseEffect)
      ensures asked <==> Present(sentDeed)
      ensures effect == CloseThenComplete ==> Present(sentDeed) && confirmed
      ensures effect == StayOpen <==> Present(sentDeed) && !confirmed
      ensures effect == CloseOnly <==> !Present(sentDeed)
    {
      if Present(sentDeed) {
        asked := true;
        if confirmed {
          effect := CloseThenComplete;
        } else {
          effect := StayOpen;
        }
      } else {
        asked := false;
        effect := CloseOnly;
      }
    }
  }
}
