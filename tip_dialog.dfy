/**
  The tip dialog: a percentage of the order total or a fixed amount, typed
  as digits and read as hundredths, and the subset of people who pay it.
  Confirming hands the tip value and the payers to the caller and resets
  the dialog.

  The two text fields are held as the number of hundredths they denote
  (None for the empty string); the display strings are that same number
  formatted for the locale, which is not modelled.
 */
module TipDialog {
  import opened Domain
  import opened Decimal
  import Selection

  datatype TipType = Percentage | Value

  /** What `onConfirm` receives. */
  datatype TipConfirmation = TipConfirmation(tipValue: real, participants: seq<string>)

  /** The input handlers' parsing: keep the digits; none left gives the
      empty field, otherwise the digits read as a whole number of
      hundredths. */
  function ParseHundredths(input: string): (r: Option<nat>)
    ensures r.None? <==> KeepDigits(input) == ""
  {
    var numbers := KeepDigits(input);
    if numbers == "" then None else Some(DigitsValue(numbers))
  }

  /** `Number.parseInt(numbers) / 100`. */
  function Amount(hundredths: nat): real {
    (hundredths as real) / 100.0
  }

  /** `calculateTipValue`: a percentage of the order total in percentage mode,
      the typed amount in fixed mode, 0 when the active field is empty. */
  function TipValue(tipType: TipType, percentage: Option<nat>, fixed: Option<nat>, totalAmount: real): real {
    if tipType == Percentage && percentage.Some? then totalAmount * (Amount(percentage.value) / 100.0)
    else if tipType == Value && fixed.Some? then Amount(fixed.value)
    else 0.0
  }

  /** `isValid`: a positive tip and at least one payer. */
  predicate IsValid(tipValue: real, participants: seq<string>) {
    tipValue > 0.0 && |participants| > 0
  }

  /** The per-person line, shown only for a valid tip. */
  function PerPersonPreview(tipValue: real, participants: seq<string>): (r: Option<real>)
    ensures r.Some? <==> IsValid(tipValue, participants)
    ensures r.Some? ==> (|participants| as real) * r.value == tipValue && r.value > 0.0
  {
    if IsValid(tipValue, participants) then Some(tipValue / (|participants| as real)) else None
  }

  // ---------------------------------------------------------------------
  // Properties of the parsing and of the tip value

  lemma {:induction false} KeepDigitsEmpty(s: string)
    ensures KeepDigits(s) == "" <==> forall i :: 0 <= i < |s| ==> !IsDigit(s[i])
    decreases |s|
  {
    if |s| > 0 {
      var init := s[..|s| - 1];
      KeepDigitsEmpty(init);
      assert forall i :: 0 <= i < |init| ==> init[i] == s[i];
    }
  }

  /** An input with no digit at all clears the field; any digit makes it a
      number. */
  lemma ParseEmptyExactlyWithoutDigits(input: string)
    ensures ParseHundredths(input).None? <==> forall i :: 0 <= i < |input| ==> !IsDigit(input[i])
  {
    KeepDigitsEmpty(input);
  }

  /** Typing the digits of a number gives that many hundredths. */
  lemma ParseRoundTrip(n: nat)
    ensures ParseHundredths(Digits(n)) == Some(n)
  {
    KeepDigitsOfDigits(Digits(n));
    DigitsRoundTrip(n);
  }

  /** Separators and symbols typed anywhere do not change the value: the
      formatted display, edited, parses as its digits alone. */
  lemma ParseIgnoresNonDigits(a: string, c: char, b: string)
    requires !IsDigit(c)
    ensures ParseHundredths(a + [c] + b) == ParseHundredths(a + b)
  {
    KeepDigitsSkipsNonDigit(a, c, b);
  }

  /** "10,00" in percentage mode on a total of 100.00 is a tip of 10.00. */
  lemma PercentageExample()
    ensures ParseHundredths("10,00") == Some(1000)
    ensures TipValue(Percentage, Some(1000), None, 100.0) == 10.0
  {
    assert "10,00"[..4] == "10,0";
    assert "10,0"[..3] == "10,";
    assert "10,"[..2] == "10";
    assert KeepDigits("10,00") == "1000";
    assert "1000"[..3] == "100" && "100"[..2] == "10" && "10"[..1] == "1" && "1"[..0] == "";
  }

  /** A fixed tip of 20.00 over five payers is 4.00 each. */
  lemma FixedExample(people: seq<string>)
    requires |people| == 5
    ensures TipValue(Value, None, Some(2000), 0.0) == 20.0
    ensures PerPersonPreview(20.0, people) == Some(4.0)
  {
  }

  /** With a non-negative order total the tip is never negative, so a
      valid tip means a non-empty active field with a positive amount. */
  lemma TipValueNonNegative(tipType: TipType, percentage: Option<nat>, fixed: Option<nat>, totalAmount: real)
    requires totalAmount >= 0.0
    ensures TipValue(tipType, percentage, fixed, totalAmount) >= 0.0
    ensures TipValue(tipType, percentage, fixed, totalAmount) > 0.0 ==>
      (tipType == Percentage && percentage.Some? && percentage.value > 0 && totalAmount > 0.0) ||
      (tipType == Value && fixed.Some? && fixed.value > 0)
  {
    if tipType == Percentage && percentage.Some? {
      var p := Amount(percentage.value) / 100.0;
      assert p >= 0.0;
      assert totalAmount * p >= 0.0;
    }
  }

  // ---------------------------------------------------------------------
  // The dialog's state

  class Dialog {
    const people: seq<string>
    const totalAmount: real
    var tipType: TipType
    var percentageValue: Option<nat>
    var displayPercentage: Option<nat>
    var fixedValue: Option<nat>
    var displayFixedValue: Option<nat>
    var participants: seq<string>

    /** The initial state: percentage mode, empty fields, everyone pays. */
    constructor (people: seq<string>, totalAmount: real)
      ensures this.people == people && this.totalAmount == totalAmount
      ensures tipType == Percentage && participants == people
      ensures percentageValue == None && displayPercentage == None
      ensures fixedValue == None && displayFixedValue == None
    {
      this.people := people;
      this.totalAmount := totalAmount;
      tipType := Percentage;
      percentageValue := None;
      displayPercentage := None;
      fixedValue := None;
      displayFixedValue := None;
      participants := people;
    }

    function CalculateTipValue(): real
      reads this
    {
      TipValue(tipType, percentageValue, fixedValue, totalAmount)
    }

    /** `handlePriceChange`: both the fixed value and its display follow the
        digits of the input. */
    method HandlePriceChange(input: string)
      modifies this
      ensures fixedValue == ParseHundredths(input) && displayFixedValue == fixedValue
      ensures tipType == old(tipType) && participants == old(participants)
      ensures percentageValue == old(percentageValue) && displayPercentage == old(displayPercentage)
    {
      var numbers := KeepDigits(input);
      if numbers == "" {
        displayFixedValue := None;
        fixedValue := None;
        return;
      }
      var amount := DigitsValue(numbers);
      displayFixedValue := Some(amount);
      fixedValue := Some(amount);
    }

    /** `handlePercentageChange`: the same for the percentage field. */
    method HandlePercentageChange(input: string)
      modifies this
      ensures percentageValue == ParseHundredths(input) && displayPercentage == percentageValue
      ensures tipType == old(tipType) && participants == old(participants)
      ensures fixedValue == old(fixedValue) && displayFixedValue == old(displayFixedValue)
    {
      var numbers := KeepDigits(input);
      if numbers == "" {
        displayPercentage := None;
        percentageValue := None;
        return;
      }
      var amount := DigitsValue(numbers);
      displayPercentage := Some(amount);
      percentageValue := Some(amount);
    }

    /** The tab switch between percentage and fixed mode. */
    method SetTipType(t: TipType)
      modifies this
      ensures tipType == t
      ensures participants == old(participants)
      ensures percentageValue == old(percentageValue) && fixedValue == old(fixedValue)
      ensures displayPercentage == old(displayPercentage) && displayFixedValue == old(displayFixedValue)
    {
      tipType := t;
    }

    method HandleParticipantToggle(person: string)
      modifies this`participants
      ensures participants == Selection.Toggle(old(participants), person)
    {
      participants := Selection.Toggle(participants, person);
    }

    method HandleSelectAll()
      modifies this`participants
      ensures participants == Selection.SelectAll(old(participants), people)
    {
      if |participants| == |people| {
        participants := [];
      } else {
        participants := people;
      }
    }

    /** `handleReset`: the initial state again. */
    method HandleReset()
      modifies this
      ensures tipType == Percentage && participants == people
      ensures percentageValue == None && displayPercentage == None
      ensures fixedValue == None && displayFixedValue == None
    {
      percentageValue := None;
      displayPercentage := None;
      fixedValue := None;
      displayFixedValue := None;
      participants := people;
      tipType := Percentage;
    }

    /** `handleConfirm`: a valid tip is handed over with its payers and the
        dialog resets (and asks to close); otherwise nothing happens. */
    method HandleConfirm() returns (confirmed: Option<TipConfirmation>)
      modifies this
      ensures var tip := TipValue(old(tipType), old(percentageValue), old(fixedValue), totalAmount);
        if IsValid(tip, old(participants)) then
          confirmed == Some(TipConfirmation(tip, old(participants))) &&
          tipType == Percentage && participants == people &&
          percentageValue == None && displayPercentage == None &&
          fixedValue == None && displayFixedValue == None
        else
          confirmed == None &&
          tipType == old(tipType) && participants == old(participants) &&
          percentageValue == old(percentageValue) && displayPercentage == old(displayPercentage) &&
          fixedValue == old(fixedValue) && displayFixedValue == old(displayFixedValue)
    {
      var tipValue := CalculateTipValue();
      if tipValue > 0.0 && |participants| > 0 {
        confirmed := Some(TipConfirmation(tipValue, participants));
        HandleReset();
      } else {
        confirmed := None;
      }
    }
  }
}
