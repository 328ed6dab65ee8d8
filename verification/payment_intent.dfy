/** The payment-intent value object: its status enumeration, the final-state
    predicate, and the business-rule validators of the intent, its customer
    information and its line items. Amounts and prices are integers in the
    currency's minor unit (cents). */
module PaymentIntents {
  import opened Wrappers
  import opened Text

  datatype PaymentStatus =
    | RequiresPaymentMethod
    | RequiresConfirmation
    | RequiresAction
    | Processing
    | Succeeded
    | Canceled
    | Failed

  /** The terminal statuses: no confirm or cancel is attempted from these. */
  const FinalStatuses: set<PaymentStatus> := {Succeeded, Canceled, Failed}

  /** The statuses from which the service still confirms or cancels. */
  const ActiveStatuses: set<PaymentStatus> :=
    {RequiresPaymentMethod, RequiresConfirmation, RequiresAction, Processing}

  datatype CustomerInfo = CustomerInfo(
    email: JString,
    firstName: JString,
    lastName: JString,
    address: JString,
    city: JString,
    postalCode: JString,
    phone: JString)

  datatype PaymentItem = PaymentItem(
    id: JString,
    name: JString,
    quantity: Option<int>,
    price: Option<int>)

  /** Provider-issued fields (id, client secret, creation instant) are opaque;
      the instant is kept as an integer timestamp. */
  datatype PaymentIntent = PaymentIntent(
    id: JString,
    amount: Option<int>,
    currency: JString,
    status: Option<PaymentStatus>,
    customerInfo: Option<CustomerInfo>,
    items: Option<seq<PaymentItem>>,
    clientSecret: JString,
    createdAt: Option<int>)

  /** Why a validator rejected its input. Every kind is raised as an
      IllegalArgumentException except ItemPriceOrQuantityNull, which is the
      NullPointerException of unboxing a null item price or quantity while
      summing the line items. */
  datatype Violation =
    | AmountNotPositive
    | CurrencyRequired
    | CurrencyNotIsoCode
    | CustomerInfoRequired
    | EmailInvalid
    | FirstNameRequired
    | LastNameRequired
    | AddressRequired
    | CityRequired
    | PostalCodeRequired
    | ItemsRequired
    | ItemPriceOrQuantityNull
    | AmountMismatch(expected: int, got: int)
    | ItemIdRequired
    | ItemNameRequired
    | ItemQuantityNotPositive
    | ItemPriceNegative

  // ---------------------------------------------------------------------------
  // Final state

  /** `isFinalState()`: the intent's status is one of the three terminal ones.
      A null status is not final. */
  predicate IsFinalState(p: PaymentIntent)
  {
    p.status == Some(Succeeded) || p.status == Some(Canceled) || p.status == Some(Failed)
  }

  /** The seven statuses split into three final and four active ones, and an
      intent is final exactly when its status is one of the final three. */
  lemma FinalStateClassification(p: PaymentIntent)
    ensures FinalStatuses !! ActiveStatuses
    ensures forall s: PaymentStatus :: s in FinalStatuses || s in ActiveStatuses
    ensures IsFinalState(p) <==> p.status.Some? && p.status.value in FinalStatuses
    ensures p.status.Some? && p.status.value in ActiveStatuses ==> !IsFinalState(p)
    ensures p.status.None? ==> !IsFinalState(p)
  {
    forall s: PaymentStatus
      ensures s in FinalStatuses || s in ActiveStatuses
    {
      match s
      case RequiresPaymentMethod =>
      case RequiresConfirmation =>
      case RequiresAction =>
      case Processing =>
      case Succeeded =>
      case Canceled =>
      case Failed =>
    }
  }

  // ---------------------------------------------------------------------------
  // Character classes of the two regular expressions

  predicate IsUpperAscii(c: char) {
    'A' <= c <= 'Z'
  }

  predicate IsLetterOrDigit(c: char) {
    'A' <= c <= 'Z' || 'a' <= c <= 'z' || '0' <= c <= '9'
  }

  /** `[A-Za-z0-9+_.-]` */
  predicate IsLocalChar(c: char) {
    IsLetterOrDigit(c) || c == '+' || c == '_' || c == '.' || c == '-'
  }

  /** `[A-Za-z0-9.-]` */
  predicate IsDomainChar(c: char) {
    IsLetterOrDigit(c) || c == '.' || c == '-'
  }

  /** The whole string matches `^[A-Z]{3}$`. */
  predicate IsIsoCurrencyCode(s: string) {
    |s| == 3 && forall i :: 0 <= i < |s| ==> IsUpperAscii(s[i])
  }

  /** A currency code is never blank, so a code never trips the "required" check. */
  lemma IsoCodeIsNotBlank(s: string)
    ensures IsIsoCurrencyCode(s) ==> !IsBlank(s)
  {
    if IsIsoCurrencyCode(s) {
      assert !IsSpace(s[0]);
    }
  }

  /** `[A-Za-z0-9+_.-]+` */
  predicate IsLocalPart(t: string) {
    |t| > 0 && forall i :: 0 <= i < |t| ==> IsLocalChar(t[i])
  }

  /** `[A-Za-z0-9.-]+` */
  predicate IsDomainPart(t: string) {
    |t| > 0 && forall i :: 0 <= i < |t| ==> IsDomainChar(t[i])
  }

  /** What `s.matches("^[A-Za-z0-9+_.-]+@[A-Za-z0-9.-]+$")` means: some '@'
      splits `s` into a local part and a domain part. */
  ghost predicate MatchesEmailPattern(s: string) {
    exists k :: 0 <= k < |s| && s[k] == '@' && IsLocalPart(s[..k]) && IsDomainPart(s[k + 1..])
  }

  /** Index of the first '@' in `s`, or |s| when there is none. */
  function FirstAt(s: string): (k: nat)
    ensures k <= |s|
    ensures k < |s| ==> s[k] == '@'
    ensures forall i :: 0 <= i < k ==> s[i] != '@'
  {
    if |s| == 0 || s[0] == '@' then 0 else 1 + FirstAt(s[1..])
  }

  /** The first '@' is the one with no '@' before it. */
  lemma FirstAtIsUnique(s: string, k: nat)
    requires k < |s| && s[k] == '@'
    requires forall i :: 0 <= i < k ==> s[i] != '@'
    ensures FirstAt(s) == k
  {
  }

  /** The hand-written email matcher: neither character class contains '@',
      so the only split worth trying is at the first '@'. */
  predicate IsEmail(s: string) {
    var k := FirstAt(s);
    k < |s| && IsLocalPart(s[..k]) && IsDomainPart(s[k + 1..])
  }

  /** The matcher accepts exactly the strings the email regex matches. */
  lemma EmailMatcherIsPattern(s: string)
    ensures IsEmail(s) <==> MatchesEmailPattern(s)
  {
    var k := FirstAt(s);
    if IsEmail(s) {
      assert 0 <= k < |s| && s[k] == '@' && IsLocalPart(s[..k]) && IsDomainPart(s[k + 1..]);
    }
    if MatchesEmailPattern(s) {
      var j :| 0 <= j < |s| && s[j] == '@' && IsLocalPart(s[..j]) && IsDomainPart(s[j + 1..]);
      assert k == j;
    }
  }

  // ---------------------------------------------------------------------------
  // Customer information

  /** Every rule of `CustomerInfo.validate` that `c` breaks, in the order the
      rules are written; the phone number is subject to no rule. */
  function CustomerViolations(c: CustomerInfo): seq<Violation> {
    (if c.email.None? || !IsEmail(c.email.value) then [EmailInvalid] else [])
    + (if IsNullOrBlank(c.firstName) then [FirstNameRequired] else [])
    + (if IsNullOrBlank(c.lastName) then [LastNameRequired] else [])
    + (if IsNullOrBlank(c.address) then [AddressRequired] else [])
    + (if IsNullOrBlank(c.city) then [CityRequired] else [])
    + (if IsNullOrBlank(c.postalCode) then [PostalCodeRequired] else [])
  }

  /** `CustomerInfo.validate()`: passes when no rule is broken, and otherwise
      fails with the first rule broken. */
  function ValidateCustomer(c: CustomerInfo): (r: Outcome<Violation>)
    ensures r.Pass? <==> CustomerViolations(c) == []
    ensures r.Fail? ==> r.error == CustomerViolations(c)[0]
    ensures r.Pass? <==> c.email.Some? && MatchesEmailPattern(c.email.value)
                         && !IsNullOrBlank(c.firstName) && !IsNullOrBlank(c.lastName)
                         && !IsNullOrBlank(c.address) && !IsNullOrBlank(c.city)
                         && !IsNullOrBlank(c.postalCode)
  {
    var e := if c.email.Some? then c.email.value else "";
    EmailMatcherIsPattern(e);
    if c.email.None? || !IsEmail(c.email.value) then Fail(EmailInvalid)
    else if IsNullOrBlank(c.firstName) then Fail(FirstNameRequired)
    else if IsNullOrBlank(c.lastName) then Fail(LastNameRequired)
    else if IsNullOrBlank(c.address) then Fail(AddressRequired)
    else if IsNullOrBlank(c.city) then Fail(CityRequired)
    else if IsNullOrBlank(c.postalCode) then Fail(PostalCodeRequired)
    else Pass
  }

  /** The phone number never influences customer validation. */
  lemma CustomerPhoneIgnored(c: CustomerInfo, phone: JString)
    ensures ValidateCustomer(c.(phone := phone)) == ValidateCustomer(c)
  {
  }

  // ---------------------------------------------------------------------------
  // Line items

  /** Every rule of `PaymentItem.validate` that `it` breaks, in order. */
  function ItemViolations(it: PaymentItem): seq<Violation> {
    (if IsNullOrBlank(it.id) then [ItemIdRequired] else [])
    + (if IsNullOrBlank(it.name) then [ItemNameRequired] else [])
    + (if it.quantity.None? || it.quantity.value <= 0 then [ItemQuantityNotPositive] else [])
    + (if it.price.None? || it.price.value < 0 then [ItemPriceNegative] else [])
  }

  /** `PaymentItem.validate()`: passes exactly when id and name are non-blank,
      quantity is at least one and price is non-negative; otherwise it fails
      with the first broken rule. */
  function ValidateItem(it: PaymentItem): (r: Outcome<Violation>)
    ensures r.Pass? <==> ItemViolations(it) == []
    ensures r.Fail? ==> r.error == ItemViolations(it)[0]
    ensures r.Pass? <==> !IsNullOrBlank(it.id) && !IsNullOrBlank(it.name)
                         && it.quantity.Some? && it.quantity.value >= 1
                         && it.price.Some? && it.price.value >= 0
  {
    if IsNullOrBlank(it.id) then Fail(ItemIdRequired)
    else if IsNullOrBlank(it.name) then Fail(ItemNameRequired)
    else if it.quantity.None? || it.quantity.value <= 0 then Fail(ItemQuantityNotPositive)
    else if it.price.None? || it.price.value < 0 then Fail(ItemPriceNegative)
    else Pass
  }

  /** Unboxing `getPrice()` and `getQuantity()` succeeds. */
  predicate Priced(it: PaymentItem) {
    it.price.Some? && it.quantity.Some?
  }

  predicate AllPriced(items: seq<PaymentItem>) {
    forall i :: 0 <= i < |items| ==> Priced(items[i])
  }

  /** price × quantity of one line. */
  function LineAmount(it: PaymentItem): int
    requires Priced(it)
  {
    it.price.value * it.quantity.value
  }

  /** Σ price × quantity over the items, as unbounded integers. */
  function Total(items: seq<PaymentItem>): int
    requires AllPriced(items)
  {
    if |items| == 0 then 0 else LineAmount(items[0]) + Total(items[1..])
  }

  /** The sum splits over concatenation. */
  lemma {:induction false} TotalAppend(a: seq<PaymentItem>, b: seq<PaymentItem>)
    requires AllPriced(a) && AllPriced(b)
    ensures AllPriced(a + b)
    ensures Total(a + b) == Total(a) + Total(b)
  {
    if |a| == 0 {
      assert a + b == b;
    } else {
      assert (a + b)[1..] == a[1..] + b;
      TotalAppend(a[1..], b);
    }
  }

  /** Taking the k-th item out of a sequence takes its line amount out of the sum. */
  lemma TotalRemove(b: seq<PaymentItem>, k: int)
    requires AllPriced(b)
    requires 0 <= k < |b|
    ensures AllPriced(b[..k] + b[k + 1..])
    ensures Total(b) == LineAmount(b[k]) + Total(b[..k] + b[k + 1..])
  {
    assert b == b[..k] + [b[k]] + b[k + 1..];
    assert AllPriced(b[..k]) && AllPriced(b[k + 1..]);
    TotalAppend(b[..k], [b[k]]);
    TotalAppend(b[..k] + [b[k]], b[k + 1..]);
    TotalAppend(b[..k], b[k + 1..]);
  }

  /** Removing one occurrence of x from b removes it from b's multiset. */
  lemma MultisetRemove(b: seq<PaymentItem>, k: int)
    requires 0 <= k < |b|
    ensures multiset(b[..k] + b[k + 1..]) == multiset(b) - multiset{b[k]}
  {
    assert b == b[..k] + [b[k]] + b[k + 1..];
  }

  /** Every item of a permutation of fully priced items is priced. */
  lemma AllPricedPermutation(a: seq<PaymentItem>, b: seq<PaymentItem>)
    requires multiset(a) == multiset(b)
    requires AllPriced(a)
    ensures AllPriced(b)
  {
    forall j | 0 <= j < |b|
      ensures Priced(b[j])
    {
      assert b[j] in multiset(a);
    }
  }

  /** Matching the head of `a` with an equal item of its permutation `b`
      leaves two permutations of each other. */
  lemma PermutationTail(a: seq<PaymentItem>, b: seq<PaymentItem>, k: int)
    requires multiset(a) == multiset(b)
    requires 0 < |a| && 0 <= k < |b| && b[k] == a[0]
    ensures multiset(a[1..]) == multiset(b[..k] + b[k + 1..])
  {
    MultisetRemove(b, k);
    assert a == [a[0]] + a[1..];
  }

  /** The sum does not depend on the order of the items. */
  lemma {:induction false} TotalPermutation(a: seq<PaymentItem>, b: seq<PaymentItem>)
    requires multiset(a) == multiset(b)
    requires AllPriced(a)
    ensures AllPriced(b)
    ensures Total(a) == Total(b)
  {
    AllPricedPermutation(a, b);
    if |a| > 0 {
      assert a[0] in multiset(b);
      var k :| 0 <= k < |b| && b[k] == a[0];
      PermutationTail(a, b, k);
      TotalPermutation(a[1..], b[..k] + b[k + 1..]);
      TotalRemove(b, k);
    }
  }

  /** The `items.stream().mapToLong(price * quantity).sum()` pipeline, walking
      the items left to right: None when some item's price or quantity is null
      (the unboxing throws), otherwise the sum of the line amounts. */
  method CalculatedAmount(items: seq<PaymentItem>) returns (r: Option<int>)
    ensures r.Some? <==> AllPriced(items)
    ensures r.Some? ==> r.value == Total(items)
  {
    var sum := 0;
    var i := 0;
    while i < |items|
      invariant 0 <= i <= |items|
      invariant AllPriced(items[..i])
      invariant sum == Total(items[..i])
    {
      var it := items[i];
      if it.price.None? || it.quantity.None? {
        return None;
      }
      TotalAppend(items[..i], [it]);
      assert items[..i + 1] == items[..i] + [it];
      sum := sum + it.price.value * it.quantity.value;
      i := i + 1;
    }
    assert items[..i] == items;
    return Some(sum);
  }

  // ---------------------------------------------------------------------------
  // The intent

  /** Every rule of `PaymentIntent.validate` that `p` breaks, in the order the
      rules are written. A rule that can only be evaluated once an earlier field
      is present (the customer's own rules, the sum) contributes nothing when
      that field is absent. Item-level rules are not among them. */
  function IntentViolations(p: PaymentIntent): seq<Violation> {
    (if p.amount.None? || p.amount.value <= 0 then [AmountNotPositive] else [])
    + (if IsNullOrBlank(p.currency) then [CurrencyRequired]
       else if !IsIsoCurrencyCode(p.currency.value) then [CurrencyNotIsoCode]
       else [])
    + (if p.customerInfo.None? then [CustomerInfoRequired]
       else CustomerViolations(p.customerInfo.value))
    + (if p.items.None? || |p.items.value| == 0 then [ItemsRequired]
       else if !AllPriced(p.items.value) then [ItemPriceOrQuantityNull]
       else if p.amount.Some? && p.amount.value != Total(p.items.value)
       then [AmountMismatch(Total(p.items.value), p.amount.value)]
       else [])
  }

  /** `PaymentIntent.validate()`: passes when no rule is broken; otherwise it
      fails with the first broken rule, so an earlier check always decides
      over a later one. It passes exactly when the amount is positive, the
      currency is a three-letter upper-case code, the customer information is
      present and valid, the item list is non-empty with every price and
      quantity present, and the amount is Σ price × quantity. */
  function Validate(p: PaymentIntent): (r: Outcome<Violation>)
    ensures r.Pass? <==> IntentViolations(p) == []
    ensures r.Fail? ==> r.error == IntentViolations(p)[0]
    ensures r.Pass? <==>
              && p.amount.Some? && p.amount.value > 0
              && p.currency.Some? && IsIsoCurrencyCode(p.currency.value)
              && p.customerInfo.Some? && ValidateCustomer(p.customerInfo.value).Pass?
              && p.items.Some? && |p.items.value| > 0 && AllPriced(p.items.value)
              && p.amount.value == Total(p.items.value)
  {
    IsoCodeIsNotBlank(if p.currency.Some? then p.currency.value else "");
    if p.amount.None? || p.amount.value <= 0 then Fail(AmountNotPositive)
    else if IsNullOrBlank(p.currency) then Fail(CurrencyRequired)
    else if !IsIsoCurrencyCode(p.currency.value) then Fail(CurrencyNotIsoCode)
    else if p.customerInfo.None? then Fail(CustomerInfoRequired)
    else if ValidateCustomer(p.customerInfo.value).Fail? then ValidateCustomer(p.customerInfo.value)
    else if p.items.None? || |p.items.value| == 0 then Fail(ItemsRequired)
    else if !AllPriced(p.items.value) then Fail(ItemPriceOrQuantityNull)
    else if p.amount.value != Total(p.items.value) then
      Fail(AmountMismatch(Total(p.items.value), p.amount.value))
    else Pass
  }

  /** Two item lists that agree on every price and quantity, position by
      position, have the same sum. */
  lemma {:induction false} TotalIgnoresLabels(a: seq<PaymentItem>, b: seq<PaymentItem>)
    requires |a| == |b|
    requires forall i :: 0 <= i < |a| ==> a[i].price == b[i].price && a[i].quantity == b[i].quantity
    requires AllPriced(a)
    ensures AllPriced(b)
    ensures Total(a) == Total(b)
  {
    if |a| > 0 {
      TotalIgnoresLabels(a[1..], b[1..]);
    }
  }

  /** Only prices and quantities of the items reach `validate`: item ids and
      names are never looked at, so `PaymentItem.validate` is not part of it. */
  lemma ValidateIgnoresItemLabels(p: PaymentIntent, items: seq<PaymentItem>)
    requires p.items.Some? && |items| == |p.items.value|
    requires forall i :: 0 <= i < |items| ==>
               items[i].price == p.items.value[i].price && items[i].quantity == p.items.value[i].quantity
    ensures Validate(p.(items := Some(items))) == Validate(p)
  {
    var q := p.(items := Some(items));
    if AllPriced(p.items.value) {
      TotalIgnoresLabels(p.items.value, items);
    } else if AllPriced(items) {
      TotalIgnoresLabels(items, p.items.value);
    }
    assert IntentViolations(q) == IntentViolations(p);
  }

  /** Reordering the items never changes the verdict of `validate`. */
  lemma ValidateIgnoresItemOrder(p: PaymentIntent, items: seq<PaymentItem>)
    requires p.items.Some? && multiset(items) == multiset(p.items.value)
    ensures Validate(p.(items := Some(items))) == Validate(p)
  {
    var q := p.(items := Some(items));
    assert |items| == |multiset(items)| == |p.items.value|;
    if AllPriced(p.items.value) {
      TotalPermutation(p.items.value, items);
    } else if AllPriced(items) {
      TotalPermutation(items, p.items.value);
    }
    assert IntentViolations(q) == IntentViolations(p);
  }

  /** An amount check that fails decides the verdict whatever the other fields
      hold; a mismatch reports the computed sum as expected and the declared
      amount as got. */
  lemma EarlierChecksDecide(p: PaymentIntent, q: PaymentIntent)
    ensures (p.amount.None? || p.amount.value <= 0) ==> Validate(p) == Fail(AmountNotPositive)
    ensures p.amount == q.amount && p.currency == q.currency && Validate(p).Fail?
              && Validate(p).error in {AmountNotPositive, CurrencyRequired, CurrencyNotIsoCode}
            ==> Validate(q) == Validate(p)
    ensures Validate(p).Fail? && Validate(p).error.AmountMismatch? ==>
              && p.items.Some? && AllPriced(p.items.value)
              && Validate(p).error == AmountMismatch(Total(p.items.value), p.amount.value)
              && Validate(p).error.expected != Validate(p).error.got
  {
  }

  /** When every earlier check passes and the items are priced, `validate`
      passes exactly when the amount is the sum, and otherwise reports the sum
      as expected and the declared amount as got. */
  lemma SumDecidesOnceEarlierChecksPass(p: PaymentIntent)
    requires p.amount.Some? && p.amount.value > 0
    requires p.currency.Some? && IsIsoCurrencyCode(p.currency.value)
    requires p.customerInfo.Some? && ValidateCustomer(p.customerInfo.value).Pass?
    requires p.items.Some? && |p.items.value| > 0 && AllPriced(p.items.value)
    ensures p.amount.value == Total(p.items.value) ==> Validate(p) == Pass
    ensures p.amount.value != Total(p.items.value) ==>
              Validate(p) == Fail(AmountMismatch(Total(p.items.value), p.amount.value))
  {
    IsoCodeIsNotBlank(p.currency.value);
  }
}
