/**
 The checkout form: five text fields posted by the browser, the field
 requirements declared on the form, and the form-wide rule that card payments
 need all three card fields.

 Validation is modelled as Django runs it: every field is cleaned in
 declaration order (shipping_address, payment_method, then the three optional
 card fields, which cannot fail), and then the form-wide `clean` runs with the
 fields that cleaned successfully. A missing POST key is the empty string.
 */
module Forms {
  import opened Wrappers

  /** The four non-empty choices of payment_method. */
  datatype PaymentMethod = MobileMoney | CreditCard | DebitCard | CashOnDelivery

  /** The value the browser posts for each choice. */
  function ChoiceValue(m: PaymentMethod): string {
    match m
    case MobileMoney => "mobile_money"
    case CreditCard => "credit_card"
    case DebitCard => "debit_card"
    case CashOnDelivery => "cash_on_delivery"
  }

  /** Reads a posted value back as a choice; the placeholder "" and any other value are not choices. */
  function ParseChoice(v: string): (r: Option<PaymentMethod>)
    ensures r.Some? ==> ChoiceValue(r.value) == v
    ensures forall m :: ChoiceValue(m) == v ==> r == Some(m)
  {
    if v == "mobile_money" then Some(MobileMoney)
    else if v == "credit_card" then Some(CreditCard)
    else if v == "debit_card" then Some(DebitCard)
    else if v == "cash_on_delivery" then Some(CashOnDelivery)
    else None
  }

  predicate IsCard(m: PaymentMethod) {
    m == CreditCard || m == DebitCard
  }

  /** The raw POST data of the form. */
  datatype Submission = Submission(
    shippingAddress: string,
    paymentMethod: string,
    cardNumber: string,
    cardExpiry: string,
    cardCvv: string)

  /** cleaned_data of a valid form. */
  datatype Cleaned = Cleaned(
    shippingAddress: string,
    paymentMethod: PaymentMethod,
    cardNumber: string,
    cardExpiry: string,
    cardCvv: string)

  datatype FormError =
    | AddressRequired        // shipping_address is required
    | PaymentMethodRequired  // payment_method is required: the placeholder "" is refused
    | InvalidChoice          // payment_method is not one of the choices
    | CardNumberRequired
    | ExpiryRequired
    | CvvRequired

  /** The form-wide rule of `clean`, given payment_method as it cleaned (None when that field failed). */
  function CleanError(chosen: Option<PaymentMethod>, f: Submission): (r: Option<FormError>)
    // only a card payment is checked, and it passes exactly when all three card fields are filled
    ensures r.None? <==> !(chosen.Some? && IsCard(chosen.value)) || (f.cardNumber != "" && f.cardExpiry != "" && f.cardCvv != "")
    ensures r.Some? ==> r.value.CardNumberRequired? || r.value.ExpiryRequired? || r.value.CvvRequired?
    // the reported card field is missing, and it is the first missing one
    ensures r == Some(CardNumberRequired) ==> f.cardNumber == ""
    ensures r == Some(ExpiryRequired) ==> f.cardNumber != "" && f.cardExpiry == ""
    ensures r == Some(CvvRequired) ==> f.cardNumber != "" && f.cardExpiry != "" && f.cardCvv == ""
  {
    if chosen.Some? && IsCard(chosen.value) then
      if f.cardNumber == "" then Some(CardNumberRequired)
      else if f.cardExpiry == "" then Some(ExpiryRequired)
      else if f.cardCvv == "" then Some(CvvRequired)
      else None
    else None
  }

  /**
   Every error Django records for the form, in the order it records them:
   at most one per field, and the form-wide error of `clean` last. The
   null-character check of CharField is not modelled.
   */
  function Errors(f: Submission): (r: seq<FormError>)
    ensures |r| <= 3
    ensures forall i, j :: 0 <= i < j < |r| ==> r[i] != r[j]
    ensures AddressRequired in r <==> f.shippingAddress == ""
    ensures f.shippingAddress == "" ==> r[0] == AddressRequired
    ensures PaymentMethodRequired in r <==> f.paymentMethod == ""
    ensures InvalidChoice in r <==> f.paymentMethod != "" && ParseChoice(f.paymentMethod).None?
    ensures forall k :: 0 <= k < |r| && (r[k].CardNumberRequired? || r[k].ExpiryRequired? || r[k].CvvRequired?) ==>
      k == |r| - 1 && IsCardValue(f.paymentMethod)
  {
    var addressErrors := if f.shippingAddress == "" then [AddressRequired] else [];
    var chosen := ParseChoice(f.paymentMethod);
    var methodErrors :=
      if f.paymentMethod == "" then [PaymentMethodRequired]
      else if chosen.None? then [InvalidChoice]
      else [];
    var formErrors := match CleanError(chosen, f) case Some(e) => [e] case None => [];
    addressErrors + methodErrors + formErrors
  }

  /** The card values, as the browser posts them. */
  predicate IsCardValue(v: string) {
    v == "credit_card" || v == "debit_card"
  }

  /** What a valid submission is, stated without the order of the checks. */
  predicate Acceptable(f: Submission) {
    && f.shippingAddress != ""
    && f.paymentMethod in {"mobile_money", "credit_card", "debit_card", "cash_on_delivery"}
    && (IsCardValue(f.paymentMethod) ==> f.cardNumber != "" && f.cardExpiry != "" && f.cardCvv != "")
  }

  /**
   `form.is_valid()` followed by `cleaned_data`: the cleaned data of a valid
   form, or the first error the form records.
   */
  function Validate(f: Submission): (r: Result<Cleaned, FormError>)
    // valid exactly when the declarative rule holds, and exactly when no error is recorded
    ensures r.Success? <==> Acceptable(f)
    ensures r.Success? <==> Errors(f) == []
    ensures r.Failure? ==> r.error == Errors(f)[0]
    // a valid form hands back its data unchanged
    ensures r.Success? ==>
      && r.value.shippingAddress == f.shippingAddress
      && ChoiceValue(r.value.paymentMethod) == f.paymentMethod
      && r.value.cardNumber == f.cardNumber
      && r.value.cardExpiry == f.cardExpiry
      && r.value.cardCvv == f.cardCvv
    // required fields
    ensures f.shippingAddress == "" ==> r == Failure(AddressRequired)
    ensures f.shippingAddress != "" && f.paymentMethod == "" ==> r == Failure(PaymentMethodRequired)
    // card checks, in the order number, expiry, CVV
    ensures f.shippingAddress != "" && IsCardValue(f.paymentMethod) && f.cardNumber == "" ==>
      r == Failure(CardNumberRequired)
    ensures f.shippingAddress != "" && IsCardValue(f.paymentMethod) && f.cardNumber != "" && f.cardExpiry == "" ==>
      r == Failure(ExpiryRequired)
    ensures f.shippingAddress != "" && IsCardValue(f.paymentMethod) && f.cardNumber != "" && f.cardExpiry != "" && f.cardCvv == "" ==>
      r == Failure(CvvRequired)
    // the other two methods ignore the card fields
    ensures f.shippingAddress != "" && f.paymentMethod in {"mobile_money", "cash_on_delivery"} ==> r.Success?
  {
    if f.shippingAddress == "" then Failure(AddressRequired)
    else
      match ParseChoice(f.paymentMethod)
      case None =>
        if f.paymentMethod == "" then Failure(PaymentMethodRequired) else Failure(InvalidChoice)
      case Some(m) =>
        if IsCard(m) && f.cardNumber == "" then Failure(CardNumberRequired)
        else if IsCard(m) && f.cardExpiry == "" then Failure(ExpiryRequired)
        else if IsCard(m) && f.cardCvv == "" then Failure(CvvRequired)
        else Success(Cleaned(f.shippingAddress, m, f.cardNumber, f.cardExpiry, f.cardCvv))
  }
}
