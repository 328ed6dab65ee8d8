/** The fixtures of the payment service's unit tests: a valid customer and a
    2500-cent EUR intent with a single line item. */
module PaymentFixtures {
  import opened Wrappers
  import opened PaymentIntents

  /** The valid customer of the unit tests. */
  function SampleCustomer(): CustomerInfo {
    CustomerInfo(Some("test@example.com"), Some("John"), Some("Doe"), Some("123 Test St"),
                 Some("Paris"), Some("75001"), Some("+33612345678"))
  }

  /** An intent of 2500 EUR cents with a single item priced `price`. */
  function SampleIntent(price: int): PaymentIntent {
    PaymentIntent(None, Some(2500), Some("EUR"), None, Some(SampleCustomer()),
                  Some([PaymentItem(Some("prod_001"), Some("Test Product"), Some(1), Some(price))]),
                  None, None)
  }

  /** What `PaymentIntent.builder().build()` gives: every field null. */
  function EmptyIntent(): PaymentIntent {
    PaymentIntent(None, None, None, None, None, None, None, None)
  }

  /** The "customer info is missing" test's intent as written: with `@Builder`
      and no `toBuilder`, `createValidPaymentIntent().builder()` is the static
      `builder()`, so only `customerInfo(null)` is set on a fresh builder. */
  function MissingCustomerAsWritten(): PaymentIntent {
    EmptyIntent().(customerInfo := None)
  }

  /** The same test's evidently intended intent: the valid sample without its
      customer. */
  function MissingCustomerIntended(): PaymentIntent {
    SampleIntent(2500).(customerInfo := None)
  }

  /** The "amount is invalid" test's intent as written: a fresh builder with
      only the amount set. */
  function NegativeAmountAsWritten(): PaymentIntent {
    EmptyIntent().(amount := Some(-100))
  }

  /** Two items that `PaymentItem.validate` rejects (no id or name; a negative
      price) but whose line amounts sum to 2500. */
  function InvalidItems(): seq<PaymentItem> {
    [PaymentItem(None, None, Some(1), Some(3000)),
     PaymentItem(Some("x"), Some("y"), Some(1), Some(-500))]
  }
}
