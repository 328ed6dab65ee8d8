# Payment and product domain of wlad-lwe9t-back, in Dafny

This project models the domain layer of the wlad-lwe9t-back shop backend
and proves properties of that model. The layer has two parts.

- **Payments.** The `PaymentIntent` value object has a status enumeration, a
  final-state rule and three business-rule validators: for the intent, its
  customer information and its line items. `PaymentService` sits in front of
  an abstract payment port. It validates before creating, and rejects null or
  blank ids in lookup, confirm and cancel. The webhook's intent id is passed
  on unchecked. It never confirms or cancels an intent whose fetched status is
  final.
- **Products.** The `Product` record is self-validating and trims its name and
  category. `ProductService` does check-then-act CRUD over a repository port,
  modelled as its JPA adapter behaves: rows keyed by identity, identities from
  a counter that only goes up, and a case-insensitive category lookup.

Java `null` is `Option`, and a nullable string is `JString`. An exception is
an `Err` or `Fail` value carrying the kind of violation. The payment provider
is a datatype of four functions over an arbitrary state type `S`. Every service
operation returns the provider's new state, its result, and the trace of
port calls with the replies they got. So properties such as "no confirm
without a prior fetch showing a non-final intent" are proved for every
possible provider. The product repository is a map from identity to
validated product plus the next identity to hand out.

Files:

- `wrappers.dfy`: `Option`, `Result`, `Outcome`.
- `text.dfy`: `trim()`, blank tests, ASCII case folding.
- `payment_intent.dfy`: module `PaymentIntents`.
- `payment_service.dfy`: module `PaymentService`.
- `payment_fixtures.dfy` and `payment_intent_examples.dfy`: the unit tests'
  sample intent and the verdicts the validators give on it.
- `product.dfy`: module `Products`.
- `product_repository.dfy`: module `ProductRepository`.
- `product_service.dfy`: module `ProductService`.

`PaymentItem.validate()` (PaymentIntent.java:118-134) exists, but
`PaymentIntent.validate()` (29-61) never calls it. The item rules are only
enforced by the request DTO's bean-validation annotations
(PaymentRequest.java:57-73), which are outside this model. So an intent whose
items have null ids or negative prices passes when the amounts add up
(`PaymentIntents.ValidateIgnoresItemLabels`,
`PaymentIntentExamples.ValidateAcceptsInvalidItems`). A null item price or
quantity raises a `NullPointerException` during the sum rather than an
`IllegalArgumentException`. This is the violation `ItemPriceOrQuantityNull`.

## Model

| member | source | states |
|---|---|---|
| Text.Trim | src/main/java/io/lacrobate/wladLwe9t/domain/model/Product.java:23-24 | the trimmed string has no strippable char at either end and is no longer than the input |
| Text.TrimIsSlice | src/main/java/io/lacrobate/wladLwe9t/domain/model/Product.java:23-24 | the trimmed string is a contiguous slice of the input |
| Text.BlankIffTrimsToEmpty | src/main/java/io/lacrobate/wladLwe9t/domain/model/PaymentIntent.java:34 | `s.trim().isEmpty()` holds exactly when every char of `s` is at most U+0020 |
| Text.TrimmedIsFixedPoint | src/main/java/io/lacrobate/wladLwe9t/domain/model/Product.java:23-24 | trimming a string that is already trimmed gives it back unchanged |
| Text.TrimIdempotent | src/main/java/io/lacrobate/wladLwe9t/domain/model/Product.java:23-24 | trimming twice is trimming once |
| Text.TrimOfNonBlankIsNonEmpty | src/main/java/io/lacrobate/wladLwe9t/domain/model/Product.java:14-24 | a name or category that passed the blank check is still non-empty after trimming |
| Text.EqualsIgnoreCaseCharwise | src/main/java/io/lacrobate/wladLwe9t/infrastructure/repository/JpaProductRepositoryAdapter.java:36-40 | two strings match ignoring case iff they have equal length and agree char by char after upper-casing |
| PaymentIntents.FinalStateClassification | src/main/java/io/lacrobate/wladLwe9t/domain/model/PaymentIntent.java:66-70 | every status is final or active and never both; an intent is final iff its status is SUCCEEDED, CANCELED or FAILED; a null status is not final |
| PaymentIntents.IsoCodeIsNotBlank | src/main/java/io/lacrobate/wladLwe9t/domain/model/PaymentIntent.java:34-40 | a currency that matches `^[A-Z]{3}$` also passes the blank check, so the currency checks fire in order |
| PaymentIntents.FirstAt | src/main/java/io/lacrobate/wladLwe9t/domain/model/PaymentIntent.java:84 | the returned index is the first `@`, or the length when there is none |
| PaymentIntents.EmailMatcherIsPattern | src/main/java/io/lacrobate/wladLwe9t/domain/model/PaymentIntent.java:84 | the hand-written matcher accepts exactly the strings that split as a non-empty local part of `[A-Za-z0-9+_.-]`, one `@`, and a non-empty domain of `[A-Za-z0-9.-]` |
| PaymentIntents.ValidateCustomer | src/main/java/io/lacrobate/wladLwe9t/domain/model/PaymentIntent.java:83-107 | the customer passes iff no rule is violated; a rejection reports the first rule broken in source order; passing means a pattern-matching email and non-blank first name, last name, address, city and postal code |
| PaymentIntents.CustomerPhoneIgnored | src/main/java/io/lacrobate/wladLwe9t/domain/model/PaymentIntent.java:81-107 | the phone number never affects the customer verdict |
| PaymentIntents.ValidateItem | src/main/java/io/lacrobate/wladLwe9t/domain/model/PaymentIntent.java:118-134 | an item passes iff its id and name are non-blank, its quantity is positive and its price non-negative; a rejection reports the first failing rule |
| PaymentIntents.TotalAppend | src/main/java/io/lacrobate/wladLwe9t/domain/model/PaymentIntent.java:52-54 | the line-item sum of a concatenation is the sum of the two sums |
| PaymentIntents.TotalRemove | src/main/java/io/lacrobate/wladLwe9t/domain/model/PaymentIntent.java:52-54 | the sum equals one line's amount plus the sum of the others |
| PaymentIntents.TotalPermutation | src/main/java/io/lacrobate/wladLwe9t/domain/model/PaymentIntent.java:52-54 | reordering the items does not change whether they are all priced or what they sum to |
| PaymentIntents.CalculatedAmount | src/main/java/io/lacrobate/wladLwe9t/domain/model/PaymentIntent.java:52-54 | the loop yields a sum iff every item has a price and a quantity, and that sum is the sum of price times quantity over the items |
| PaymentIntents.Validate | src/main/java/io/lacrobate/wladLwe9t/domain/model/PaymentIntent.java:29-61 | the intent passes iff no rule is violated; a rejection reports the first rule broken in source order; passing means a positive amount, an ISO currency code, a valid customer, a non-empty fully priced item list, and an amount equal to the items' sum |
| PaymentIntents.TotalIgnoresLabels | src/main/java/io/lacrobate/wladLwe9t/domain/model/PaymentIntent.java:52-54 | the sum depends only on each line's price and quantity |
| PaymentIntents.ValidateIgnoresItemLabels | src/main/java/io/lacrobate/wladLwe9t/domain/model/PaymentIntent.java:48-60 | item ids and names never affect the intent's verdict: the item rules are not applied |
| PaymentIntents.ValidateIgnoresItemOrder | src/main/java/io/lacrobate/wladLwe9t/domain/model/PaymentIntent.java:48-60 | reordering the items never changes the intent's verdict |
| PaymentIntents.EarlierChecksDecide | src/main/java/io/lacrobate/wladLwe9t/domain/model/PaymentIntent.java:29-50 | a missing or non-positive amount is always the reported violation; once the amount or currency check fails, the customer and items do not matter; a mismatch carries the items' sum as expected and the amount as got, which differ |
| PaymentIntents.SumDecidesOnceEarlierChecksPass | src/main/java/io/lacrobate/wladLwe9t/domain/model/PaymentIntent.java:52-60 | with every earlier check passed, the intent passes iff its amount equals the items' sum, and otherwise reports the mismatch as (sum, amount) |
| PaymentIntentExamples.SampleCustomerIsValid | src/test/java/io/lacrobate/wladLwe9t/domain/service/PaymentServiceTest.java:267-276 | the unit tests' sample customer passes validation |
| PaymentIntentExamples.ValidateAcceptsConsistentSample | src/test/java/io/lacrobate/wladLwe9t/domain/service/PaymentServiceTest.java:267-291 | the unit tests' sample intent (2500 cents, EUR, one item at 2500) passes validation |
| PaymentIntentExamples.ValidateReportsMismatchSample | src/main/java/io/lacrobate/wladLwe9t/domain/model/PaymentIntent.java:56-59 | the sample intent with its item priced 2000 is rejected as "expected 2000 but got 2500" |
| PaymentIntentExamples.ValidateRejectionExamples | src/main/java/io/lacrobate/wladLwe9t/domain/model/PaymentIntent.java:29-46 | single-field variations of the sample intent: a negative amount and a missing customer are rejected for exactly those reasons, and so are the currencies "eur", "EURO", " EUR" (not an ISO code) and "  " (required) |
| PaymentIntentExamples.MissingCustomerTestFailsOnAmount | src/test/java/io/lacrobate/wladLwe9t/domain/service/PaymentServiceTest.java:88-91 | the intent the "customer info is missing" test actually builds (a fresh builder, every field null) is rejected by the amount check, not the customer check |
| PaymentIntentExamples.MissingCustomerTestIntended | src/main/java/io/lacrobate/wladLwe9t/domain/model/PaymentIntent.java:42-44 | the valid sample intent without its customer is rejected for the missing customer |
| PaymentIntentExamples.NegativeAmountTestAsWritten | src/test/java/io/lacrobate/wladLwe9t/domain/service/PaymentServiceTest.java:72-75 | the intent the "amount is invalid" test actually builds (only the amount, -100, set) is rejected by the amount check |
| PaymentIntentExamples.ValidateAcceptsInvalidItems | src/main/java/io/lacrobate/wladLwe9t/domain/model/PaymentIntent.java:48-60 | items that break the item rules (null id, negative price) still make an intent pass when they sum to the amount |
| PaymentService.FromReply | src/main/java/io/lacrobate/wladLwe9t/domain/port/PaymentPort.java:10-59 | a port reply becomes the returned intent, or a provider failure carrying its cause |
| PaymentService.CreatePaymentIntent | src/main/java/io/lacrobate/wladLwe9t/domain/service/PaymentService.java:26-32 | an invalid intent is rejected with its first violation and no port call; a valid one is sent to the port's create once, unchanged, and the port's answer is returned |
| PaymentService.GetPaymentIntent | src/main/java/io/lacrobate/wladLwe9t/domain/service/PaymentService.java:40-46 | a null or blank id is rejected with no port call; otherwise exactly one retrieval, whose answer is returned; no call but that retrieval is made |
| PaymentService.FetchThenAct | src/main/java/io/lacrobate/wladLwe9t/domain/service/PaymentService.java:54-94 | case by case: a null or blank id, a failed fetch, a final intent (refused, naming the id and status) and a live intent (confirm or cancel performed), each with its exact trace and state |
| PaymentService.ConfirmPaymentIntent | src/main/java/io/lacrobate/wladLwe9t/domain/service/PaymentService.java:54-70 | no create or cancel is ever made; a confirm only comes second, right after a successful fetch of the same id that showed a non-final intent; a refusal names the requested id and a final status and leaves the provider untouched |
| PaymentService.CancelPaymentIntent | src/main/java/io/lacrobate/wladLwe9t/domain/service/PaymentService.java:78-94 | the same guarantees for cancel: no create or confirm, and a cancel only after an authorizing fetch |
| PaymentService.ProviderActsIffIntentLive | src/main/java/io/lacrobate/wladLwe9t/domain/service/PaymentService.java:59-69 | the provider is asked to confirm or cancel iff the id is present and the fetched intent is not final; otherwise its state is unchanged |
| PaymentService.SucceededIntentIsRefused | src/test/java/io/lacrobate/wladLwe9t/domain/service/PaymentServiceTest.java:167-239 | an already succeeded intent is refused for confirm and for cancel, after exactly one fetch and with no further call |
| PaymentService.ProcessWebhookEvent | src/main/java/io/lacrobate/wladLwe9t/domain/service/PaymentService.java:103-117 | a null or blank event type is rejected with no port call; otherwise one retrieval of the unchecked id, and the event succeeds iff that retrieval does; no call but that retrieval is made |
| PaymentService.WebhookIgnoresEventType | src/main/java/io/lacrobate/wladLwe9t/domain/service/PaymentService.java:103-117 | any two non-blank event types are handled identically |
| PaymentService.Serve | src/main/java/io/lacrobate/wladLwe9t/domain/service/PaymentService.java:26-117 | every single request produces a trace where creates are valid and acts follow an authorizing fetch; lookups and webhooks only read |
| PaymentService.DisciplinedAppend | src/main/java/io/lacrobate/wladLwe9t/domain/service/PaymentService.java:54-94 | two well-behaved traces stay well-behaved when joined, provided the second does not open with a confirm or cancel |
| PaymentService.SessionIsDisciplined | src/main/java/io/lacrobate/wladLwe9t/domain/service/PaymentService.java:26-117 | over any sequence of requests and any provider, no invalid intent reaches create and no confirm or cancel is sent without an immediately preceding fetch of that id showing a non-final intent |
| PaymentService.ReadOnlySession | src/main/java/io/lacrobate/wladLwe9t/domain/service/PaymentService.java:40-46 | a session of lookups and webhooks makes only retrievals (and so, with retrieval taken as read-only, leaves the provider state as it was) |
| Products.TrimmedNonBlank | src/main/java/io/lacrobate/wladLwe9t/domain/model/Product.java:14-24 | a non-blank field trims to a non-empty trimmed string |
| Products.NewProduct | src/main/java/io/lacrobate/wladLwe9t/domain/model/Product.java:13-25 | construction succeeds iff the name is non-blank, the price positive and the category non-blank; errors are reported in that order; the stored name and category are the trimmed inputs and the other fields are kept |
| Products.ReconstructIsIdentity | src/main/java/io/lacrobate/wladLwe9t/domain/model/Product.java:13-25 | rebuilding a valid product from its own fields gives it back unchanged |
| Products.ConstructorAbsorbsTrim | src/main/java/io/lacrobate/wladLwe9t/domain/model/Product.java:13-25 | pre-trimming the name and category does not change the constructed product |
| Products.Create | src/main/java/io/lacrobate/wladLwe9t/domain/model/Product.java:27-29 | the factory gives an available product without identity under the constructor's rules |
| Products.WithId | src/main/java/io/lacrobate/wladLwe9t/domain/model/Product.java:31-33 | the copy carries the new identity and every other field of the original |
| Products.WithIdLastWins | src/main/java/io/lacrobate/wladLwe9t/domain/model/Product.java:31-33 | setting the identity twice keeps only the last; setting it to its own value is the identity |
| ProductRepository.StoredUnderOwnId | src/main/java/io/lacrobate/wladLwe9t/infrastructure/repository/JpaProductRepositoryAdapter.java:21-33 | in a consistent store every listed product is the one stored under its own identity |
| ProductRepository.Save | src/main/java/io/lacrobate/wladLwe9t/infrastructure/repository/JpaProductRepositoryAdapter.java:43-48 | the saved product has an identity and is stored there, and no other row changes; a product naming a stored row replaces it, counter untouched; a product with no identity or an unknown one is inserted under the next identity with all other fields kept; consistency is preserved |
| ProductRepository.DeleteById | src/main/java/io/lacrobate/wladLwe9t/infrastructure/repository/JpaProductRepositoryAdapter.java:50-53 | exactly the row at the identity is removed; the other rows and the counter are untouched |
| ProductService.GetAllProducts | src/main/java/io/lacrobate/wladLwe9t/domain/service/ProductService.java:17-19 | every stored product is returned, and in a consistent store each returned one is stored under its own identity |
| ProductService.GetProductById | src/main/java/io/lacrobate/wladLwe9t/domain/service/ProductService.java:21-23 | a product is returned iff one is stored under the identity, and it is that one |
| ProductService.GetProductsByCategory | src/main/java/io/lacrobate/wladLwe9t/domain/service/ProductService.java:25-27 | a stored product is returned iff its category equals the requested one ignoring case; a null category matches nothing |
| ProductService.CreateProduct | src/main/java/io/lacrobate/wladLwe9t/domain/service/ProductService.java:29-31 | one save; a product naming a stored row replaces it; one without identity, or with an identity no row holds, lands under an identity no row had, keeping all its other fields |
| ProductService.UpdateProduct | src/main/java/io/lacrobate/wladLwe9t/domain/service/ProductService.java:33-39 | an unknown identity gives empty with no save; a known one is fully replaced by the update carrying that identity; the identity set and the other rows never change |
| ProductService.DeleteProduct | src/main/java/io/lacrobate/wladLwe9t/domain/service/ProductService.java:41-47 | the result is true iff the identity was stored; only that row is removed, and an unknown identity makes no delete call |
| ProductService.CreateThenGet | src/main/java/io/lacrobate/wladLwe9t/domain/service/ProductService.java:21-31 | a product created without identity (or with one no row holds) can be fetched by its new identity and equals the input apart from the identity |
| ProductService.DeleteThenGet | src/main/java/io/lacrobate/wladLwe9t/domain/service/ProductService.java:21-47 | after a delete the identity is gone, and a second delete reports false and changes nothing |
| ProductService.UpdateThenGet | src/main/java/io/lacrobate/wladLwe9t/domain/service/ProductService.java:21-39 | after an update of a known identity, fetching it gives the replacement |
| ProductService.CategoryLookupIgnoresCase | src/main/java/io/lacrobate/wladLwe9t/domain/service/ProductService.java:25-27 | category names that differ only in case select the same products |
| ProductService.Serve | src/main/java/io/lacrobate/wladLwe9t/domain/service/ProductService.java:17-47 | each request keeps the store consistent and never moves the counter back; only creation adds identities |
| ProductService.SessionKeepsStoreConsistent | src/main/java/io/lacrobate/wladLwe9t/domain/service/ProductService.java:17-47 | over any sequence of requests the store stays consistent and the counter never goes back; without creations no new identity appears |

## Left out

- PaymentService.GetPaymentIntent: the port's retrieval is taken as read-only (its type returns no new provider state), so "the state is unchanged" follows from that assumption; what the service itself is proved to do is make no call but the one retrieval.
- PaymentService.ProcessWebhookEvent: same assumption as for GetPaymentIntent; the proved part is that only the one retrieval is made.
- PaymentService.ReadOnlySession: same assumption; the proved part is that such a session makes only retrievals.
- ProductRepository.Save: a product carrying an identity no row holds is modelled as Hibernate's merge of an unknown detached entity with a generated key treats it, as an insert under a fresh identity. Hibernate versions that reject such a merge with an optimistic-lock error are not modelled. The service's callers never reach this case: `createProduct` receives id-less products from the request DTO, and `updateProduct` saves only stored identities.
- PaymentIntents.CalculatedAmount: Java `long` arithmetic is not modelled. The sum and each `price * quantity` are unbounded integers, so a total that wraps past 2^63 in Java is not reproduced.
- PaymentIntents.Validate: `amount.equals(calculatedAmount)` is compared as unbounded integers, for the same reason.
- Text.EqualsIgnoreCaseCharwise: case folding is ASCII only. The database's `upper` folding of non-ASCII letters is not modelled.
- Email and currency regexes are written out as character-class predicates over chars. They are not a general regex engine.
- Product prices are `BigDecimal`, modelled as `real`. Scale (`2.50` vs `2.5`) is not modelled.
- Lists returned by `findAll` and `findByCategory` are modelled as sets. Their order and duplicates are not modelled.
- Null elements inside the item list, and a null item itself, are not modelled.
- A `null` identity passed to the product repository or service is not modelled. Identities are plain integers.
- Concurrency is not modelled. The race between `existsById` and `save`/`deleteById` in `ProductService` cannot occur in this sequential model.
- `StripePaymentAdapter` and its status mapping are left out. The provider is the abstract port, free to return anything.
- Controllers, DTOs, security configuration, the status endpoint and the legacy `product` package are left out. They are outside the domain layer.
- The webhook's audit log line (`System.out.printf`) is left out, as is signature checking, which the service does not do.
- Timestamps (`createdAt`), ids and client secrets are opaque values supplied by the provider.
- Exception messages are modelled by their kind and the values they carry, not their text.

## Findings

| source | as written | input that shows it | evidently intended | confidence | as-written member | corrected member |
|---|---|---|---|---|---|---|
| src/test/java/io/lacrobate/wladLwe9t/domain/service/PaymentServiceTest.java:88-91 | `createValidPaymentIntent().builder().customerInfo(null).build()` calls the static `builder()` (`@Builder` without `toBuilder`), so the intent has every field null and `validate()` throws for the amount; the test passes without reaching the customer check | the test's own intent: `PaymentIntent.builder().customerInfo(null).build()` | a copy of the valid intent with only the customer removed (`toBuilder()`), rejected for the missing customer | high; not executed | PaymentIntentExamples.MissingCustomerTestFailsOnAmount | PaymentIntentExamples.MissingCustomerTestIntended |
