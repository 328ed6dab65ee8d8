/** Worked examples of payment-intent validation around the service's unit-test
    fixture: the consistent sample intent, single-field variations of it, and
    the intents the rejection tests actually build. */
module PaymentIntentExamples {
  import opened Wrappers
  import opened Text
  import opened PaymentIntents
  import opened PaymentFixtures

  /** A string whose first char survives `trim()` is not blank. */
  lemma NonBlankByFirstChar(s: string)
    requires |s| > 0 && !IsSpace(s[0])
    ensures !IsNullOrBlank(Some(s))
  {
  }

  /** The local part of the sample address is made of allowed chars. */
  lemma SampleLocalPart()
    ensures IsLocalPart("test")
  {
    var t := "test";
    assert IsLocalChar(t[0]) && IsLocalChar(t[1]) && IsLocalChar(t[2]) && IsLocalChar(t[3]);
  }

  /** The domain of the sample address is made of allowed chars. */
  lemma SampleDomainPart()
    ensures IsDomainPart("example.com")
  {
    var t := "example.com";
    assert forall i :: 0 <= i < |t| ==> IsDomainChar(t[i]);
  }

  /** The sample address splits at its only '@'. */
  lemma SampleEmailSplit()
    ensures FirstAt("test@example.com") == 4
    ensures "test@example.com"[..4] == "test"
    ensures "test@example.com"[5..] == "example.com"
  {
    FirstAtIsUnique("test@example.com", 4);
  }

  /** The sample customer's address is accepted by the email matcher. */
  lemma SampleEmailIsValid()
    ensures IsEmail("test@example.com")
  {
    SampleEmailSplit();
    SampleLocalPart();
    SampleDomainPart();
  }

  /** The sample customer passes `CustomerInfo.validate`. */
  lemma SampleCustomerIsValid()
    ensures ValidateCustomer(SampleCustomer()) == Pass
  {
    SampleEmailIsValid();
    NonBlankByFirstChar("John");
    NonBlankByFirstChar("Doe");
    NonBlankByFirstChar("123 Test St");
    NonBlankByFirstChar("Paris");
    NonBlankByFirstChar("75001");
  }

  /** The sum of a single line of quantity one is its price. */
  lemma SingleLineTotal(price: int)
    ensures AllPriced(SampleIntent(price).items.value)
    ensures Total(SampleIntent(price).items.value) == price
  {
    var items := SampleIntent(price).items.value;
    assert Total(items[1..]) == 0;
  }

  /** Every check before the line-item sum passes on the sample intent,
      whatever its item price. */
  lemma SampleIntentPassesEarlyChecks(price: int)
    ensures SampleIntent(price).amount == Some(2500)
    ensures SampleIntent(price).currency.Some? && IsIsoCurrencyCode(SampleIntent(price).currency.value)
    ensures SampleIntent(price).customerInfo.Some?
    ensures ValidateCustomer(SampleIntent(price).customerInfo.value).Pass?
  {
    EurIsIsoCode();
    assert SampleIntent(price).customerInfo == Some(SampleCustomer());
    SampleCustomerIsValid();
  }

  /** "EUR" matches `^[A-Z]{3}$`. */
  lemma EurIsIsoCode()
    ensures IsIsoCurrencyCode("EUR")
  {
    var eur := "EUR";
    assert IsUpperAscii(eur[0]) && IsUpperAscii(eur[1]) && IsUpperAscii(eur[2]);
  }

  /** Worked example: 2500 cents declared for one item of 2500 × 1 passes. */
  lemma ValidateAcceptsConsistentSample()
    ensures Validate(SampleIntent(2500)) == Pass
  {
    SampleIntentPassesEarlyChecks(2500);
    SingleLineTotal(2500);
  }

  /** Worked example: 2500 cents declared for one item of 2000 × 1 fails,
      reporting 2000 as expected and 2500 as got. */
  lemma ValidateReportsMismatchSample()
    ensures Validate(SampleIntent(2000)) == Fail(AmountMismatch(2000, 2500))
  {
    SampleIntentPassesEarlyChecks(2000);
    SingleLineTotal(2000);
    SumDecidesOnceEarlierChecksPass(SampleIntent(2000));
  }

  /** Worked examples: lower-case, four-letter, padded and blank currencies are
      rejected, and so are a missing customer and a negative amount. */
  lemma ValidateRejectionExamples()
    ensures Validate(SampleIntent(2500).(currency := Some("eur"))) == Fail(CurrencyNotIsoCode)
    ensures Validate(SampleIntent(2500).(currency := Some("EURO"))) == Fail(CurrencyNotIsoCode)
    ensures Validate(SampleIntent(2500).(currency := Some(" EUR"))) == Fail(CurrencyNotIsoCode)
    ensures Validate(SampleIntent(2500).(currency := Some("  "))) == Fail(CurrencyRequired)
    ensures Validate(SampleIntent(2500).(customerInfo := None)) == Fail(CustomerInfoRequired)
    ensures Validate(SampleIntent(2500).(amount := Some(-100))) == Fail(AmountNotPositive)
  {
    NonBlankByFirstChar("eur");
    NonBlankByFirstChar("EURO");
    NonBlankByFirstChar("EUR");
    assert !IsNullOrBlank(Some(" EUR")) by {
      assert !IsSpace(" EUR"[1]);
    }
    assert !IsUpperAscii("eur"[0]) && !IsUpperAscii(" EUR"[0]);
    assert IsNullOrBlank(Some("  "));
    assert IsIsoCurrencyCode("EUR");
  }

  /** The "customer info is missing" test as written builds an intent with
      every field null: it is rejected, but by the amount check, so the
      customer check it was meant to exercise is never reached. */
  lemma MissingCustomerTestFailsOnAmount()
    ensures Validate(MissingCustomerAsWritten()) == Fail(AmountNotPositive)
    ensures Validate(MissingCustomerAsWritten()) != Fail(CustomerInfoRequired)
  {
  }

  /** The intent that test evidently meant, the valid sample without its
      customer, is rejected for the missing customer. */
  lemma MissingCustomerTestIntended()
    ensures Validate(MissingCustomerIntended()) == Fail(CustomerInfoRequired)
  {
    var p := MissingCustomerIntended();
    assert p.amount == Some(2500) && p.currency == Some("EUR") && p.customerInfo.None?;
    EurIsIsoCode();
    IsoCodeIsNotBlank("EUR");
  }

  /** The "amount is invalid" test as written sets only the amount; the
      amount check rejects it first, as the test expects. */
  lemma NegativeAmountTestAsWritten()
    ensures Validate(NegativeAmountAsWritten()) == Fail(AmountNotPositive)
  {
  }

  /** The two items of InvalidItems are priced and sum to 2500. */
  lemma InvalidItemsTotal()
    ensures AllPriced(InvalidItems()) && Total(InvalidItems()) == 2500
  {
    var bad := InvalidItems();
    assert Total(bad[1..]) == -500 by {
      assert Total(bad[1..][1..]) == 0;
    }
  }

  /** An intent whose items break `PaymentItem.validate` (a missing id and
      name, a negative price) still passes `validate` when its amount equals
      the sum. */
  lemma ValidateAcceptsInvalidItems()
    ensures ValidateItem(InvalidItems()[0]) == Fail(ItemIdRequired)
    ensures ValidateItem(InvalidItems()[1]) == Fail(ItemPriceNegative)
    ensures Validate(SampleIntent(2500).(items := Some(InvalidItems()))) == Pass
  {
    SampleIntentPassesEarlyChecks(2500);
    InvalidItemsTotal();
    NonBlankByFirstChar("x");
    NonBlankByFirstChar("y");
  }
}
