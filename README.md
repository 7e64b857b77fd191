# Storefront decision rules, modelled in Dafny

This project models the standalone logic of an e-commerce storefront built on a web framework and a commerce toolkit:

- the payment extension's string helpers:
  - `middle_truncate` shortens an over-long string by replacing its middle with a `...` indicator;
  - `clean_field_value` removes caret, colon and quote characters from a field value;
- the partner extension's pricing-strategy decisions:
  - which stock record the India strategy picks;
  - when a course seat is available to a user;
  - which strategy the selector hands out for a request;
- the order extension's predicates `is_fulfillable` and `contains_coupon`.

All of these are pure, so each is a Dafny function. Lemmas state their properties. Exceptions the source raises are modelled as `Outcomes.Result` values (`ValueError`, `IndexError`, `KeyError`), not excluded by preconditions. Python slicing, including its negative bounds, is modelled by `PaymentUtils.SliceBound`.

Files:
- `outcomes.dfy`: `Option`, the exception kinds and `Result`.
- `payment_utils.dfy`: `middle_truncate`, a corrected variant, and `clean_field_value`.
- `partner_strategy.dfy`: stock-record selection, seat availability, and strategy selection.
- `order_models.dfy`: order fulfilment and coupon predicates.

## Model

| member | source | states |
|---|---|---|
| PaymentUtils.SliceBound | ecommerce/extensions/payment/utils.py:90 | A Python slice bound lies within the sequence. A bound between 0 and the length is kept. A negative bound counts from the end, so `-0` is the start. A bound beyond either end is clamped to that end. |
| PaymentUtils.SliceTo | ecommerce/extensions/payment/utils.py:90 | `string[:k]` is a prefix of the string whose length is the normalised bound. |
| PaymentUtils.SliceFrom | ecommerce/extensions/payment/utils.py:90 | `string[-k:]` is a suffix of the string: everything after the normalised bound. |
| PaymentUtils.SliceSize | ecommerce/extensions/payment/utils.py:89 | `(chars - 3) // 2` is the largest `k` with `2k + 3 <= chars`. |
| PaymentUtils.MiddleTruncate | ecommerce/extensions/payment/utils.py:58-93 | A string that fits is returned unchanged. The call raises `ValueError` exactly when the string does not fit and the limit is below 3. |
| PaymentUtils.MiddleTruncateFits | ecommerce/extensions/payment/utils.py:76-77 | Any string no longer than the limit comes back unchanged. |
| PaymentUtils.MiddleTruncateRaises | ecommerce/extensions/payment/utils.py:83-87 | A string longer than a limit below the indicator length raises `ValueError`. |
| PaymentUtils.MiddleTruncateShape | ecommerce/extensions/payment/utils.py:89-91 | For limits of at least 5, the result is the first `k` characters, then `...`, then the last `k` characters, with `k >= 1`. Its length `2*((chars-3)//2)+3` is at most the limit. |
| PaymentUtils.MiddleTruncateSmallLimitOverflows | ecommerce/extensions/payment/utils.py:89-91 | For limits 3 and 4, the result is `...` followed by the whole input, which is longer than the limit. |
| PaymentUtils.MiddleTruncateExample | ecommerce/extensions/payment/utils.py:79-91 | "A Very Long Title" truncated to 11 is "A Ve...itle". |
| PaymentUtils.MiddleTruncateIdempotent | ecommerce/extensions/payment/utils.py:76-91 | For limits of at least 5, truncating twice gives the same result as truncating once. |
| PaymentUtils.MiddleTruncateSmallLimitNotIdempotent | ecommerce/extensions/payment/utils.py:76-91 | For limits 3 and 4, truncating the result again adds a second indicator. |
| PaymentUtils.MiddleTruncateFixed | ecommerce/extensions/payment/utils.py:68-70 | Same fit and error cases as the original. Every result is within the limit or is the unchanged input. |
| PaymentUtils.MiddleTruncateFixedWithinLimit | ecommerce/extensions/payment/utils.py:68-70 | For every limit of at least 3: the corrected truncation succeeds, stays within the limit, keeps `k` characters of each end, and is idempotent. |
| PaymentUtils.MiddleTruncateFixedAgrees | ecommerce/extensions/payment/utils.py:85-91 | The corrected and original truncations agree except when the limit is 3 or 4 and the string does not fit. |
| PaymentUtils.CleanFieldValue | ecommerce/extensions/payment/utils.py:96-107 | The cleaned value contains no `^`, `:`, `"` or `'` and is never longer than its input. |
| PaymentUtils.CleanFieldValueAppend | ecommerce/extensions/payment/utils.py:107 | Cleaning a concatenation is the concatenation of the cleaned parts. |
| PaymentUtils.CleanFieldValueSubsequence | ecommerce/extensions/payment/utils.py:99-107 | The cleaned value is a subsequence of the input, so the original order is kept. |
| PaymentUtils.CleanFieldValueCounts | ecommerce/extensions/payment/utils.py:99-107 | Each special character occurs zero times in the result. Every other character occurs as often as in the input. |
| PaymentUtils.CleanFieldValueUnchanged | ecommerce/extensions/payment/utils.py:107 | A value comes back unchanged exactly when it holds no special character. |
| PaymentUtils.CleanFieldValueIdempotent | ecommerce/extensions/payment/utils.py:107 | Cleaning a cleaned value changes nothing. |
| PaymentUtils.CleanFieldValueExample | ecommerce/extensions/payment/utils.py:99 | `a^b:"c"'d` cleans to `abcd`. |
| PartnerStrategy.SelectStockRecord | ecommerce/extensions/partner/strategy.py:46-50 | A record is returned exactly when there is at least one, and it is one of the product's records. With no records the result is `IndexError`. |
| PartnerStrategy.SelectStockRecordSecond | ecommerce/extensions/partner/strategy.py:46-48 | With two or more records, the second is selected. |
| PartnerStrategy.SelectStockRecordFallback | ecommerce/extensions/partner/strategy.py:49-50 | With one record, it is selected. With none, the fallback index raises `IndexError`. |
| PartnerStrategy.SelectStockRecordIgnoresTail | ecommerce/extensions/partner/strategy.py:48 | Records after the second never change the choice. |
| PartnerStrategy.IsStaff | ecommerce/extensions/partner/strategy.py:36 | A user counts as staff exactly when present and flagged staff. A missing user is not staff. |
| PartnerStrategy.AvailabilityPolicy | ecommerce/extensions/partner/strategy.py:31-41 | A seat is Unavailable exactly when the user is not staff and the product has an expiry earlier than now. Otherwise the stock-required policy decides. |
| PartnerStrategy.StaffDefersToStock | ecommerce/extensions/partner/strategy.py:36-39 | A staff user always gets the stock-required decision, whatever the expiry. |
| PartnerStrategy.MissingUserIsNonStaff | ecommerce/extensions/partner/strategy.py:36 | A missing user gets the same decision as a non-staff user. |
| PartnerStrategy.NonStaffFollowsExpiry | ecommerce/extensions/partner/strategy.py:37-41 | For a non-staff user: no expiry, or an expiry at or after now, gives the stock-required decision. An expiry before now gives Unavailable. |
| PartnerStrategy.UnavailableStaysUnavailable | ecommerce/extensions/partner/strategy.py:37 | Once a seat is unavailable, it stays unavailable at every later time. |
| PartnerStrategy.HasUser | ecommerce/extensions/partner/strategy.py:64 | `hasattr(request, 'user')`: false for a missing request; for a present request, true exactly when it has a user. |
| PartnerStrategy.LooksUpProfile | ecommerce/extensions/partner/strategy.py:64-66 | The profile is looked up only for a request with a user. For such a request, it is looked up exactly when the `user` argument is present and not anonymous. |
| PartnerStrategy.SelectStrategy | ecommerce/extensions/partner/strategy.py:63-77 | The India strategy is returned exactly when the request has a user, the `user` argument is present and not anonymous, and the profile country is exactly `IN`. `KeyError` is raised exactly when the profile is looked up and has no country. |
| PartnerStrategy.SelectorDefault | ecommerce/extensions/partner/strategy.py:76-77 | In every other case the default strategy is returned. It carries the request exactly when the request has a user. |
| PartnerStrategy.SelectorWithoutUserIsDefault | ecommerce/extensions/partner/strategy.py:66-77 | Without a `user` argument, or with an anonymous one, the default strategy is always returned. The payment view's call `Selector().strategy(self.request)` is such a case. |
| PartnerStrategy.SelectorIndiaNeedsExactCode | ecommerce/extensions/partner/strategy.py:71-73 | For a looked-up profile, India is chosen exactly when the country string equals `IN`. |
| OrderModels.IsFulfillable | ecommerce/extensions/order/models.py:16-18 | An order can be fulfilled exactly when its status is `ORDER.OPEN` or `ORDER.FULFILLMENT_ERROR`. |
| OrderModels.OpenIsFulfillable | ecommerce/extensions/order/models.py:16-18 | An order with status `ORDER.OPEN` can be fulfilled. |
| OrderModels.FulfillmentErrorIsFulfillable | ecommerce/extensions/order/models.py:16-18 | An order with status `ORDER.FULFILLMENT_ERROR` can be fulfilled. |
| OrderModels.OtherStatusNotFulfillable | ecommerce/extensions/order/models.py:18 | No other status allows fulfilment. |
| OrderModels.AnyCouponLine | ecommerce/extensions/order/models.py:23 | True exactly when some line's product is a coupon product. |
| OrderModels.ContainsCoupon | ecommerce/extensions/order/models.py:21-23 | True exactly when some basket line's product is a coupon product. |
| OrderModels.EmptyBasketHasNoCoupon | ecommerce/extensions/order/models.py:21-23 | An order whose basket has no lines contains no coupon. |
| OrderModels.AnyCouponLineAppend | ecommerce/extensions/order/models.py:23 | The coupon test on a concatenation of lines is the disjunction of the tests on the parts. |
| OrderModels.ContainsCouponPermutation | ecommerce/extensions/order/models.py:23 | Reordering the basket lines does not change the answer. |

## Findings

| source | as written | input that shows it | evidently intended | confidence | as-written member | corrected member |
|---|---|---|---|---|---|---|
| ecommerce/extensions/payment/utils.py:89-91 | `string[-slice_size:]` with `slice_size == 0` is the whole string. | `middle_truncate("abcde", 3)` returns `"...abcde"`, 8 characters for a limit of 3. | The documented result is at most `chars` characters long (utils.py:68-69). For limits 3 and 4 that is `"..."` alone. | high (not executed) | PaymentUtils.MiddleTruncateSmallLimitOverflows | PaymentUtils.MiddleTruncateFixedWithinLimit |

`PaymentUtils.MiddleTruncate` models the code as written. `PaymentUtils.MiddleTruncateFixed` takes the end slice as `string[len(string) - slice_size:]`. `PaymentUtils.MiddleTruncateFixedAgrees` shows that the two differ only for limits 3 and 4.

## Left out

- The translatable indicator `_('...')` is modelled as the fixed three-character string `...`; translations of another length are not modelled.
- `get_basket_program_uuid`, `get_program_uuid`, `embargo_check`, `checkSDN` and `SDNClient` are left out: ORM queries, outbound HTTP, logout and account deactivation.
- `IncludeGST` is left out: the tax arithmetic belongs to the toolkit's `FixedRateTax`, which is not part of this model.
- The default strategy's `UseFirstStockRecord` and the toolkit's `StockRequired` availability policy are not part of this model. `AvailabilityPolicy` returns only the decision to defer to that policy.
- `PartnerStrategy.AvailabilityPolicy` takes the strategy's user as an input. The toolkit's strategy constructor derives it from the request and is not part of this model. So the model does not show that `IndiaStrategy()`, built without a request, has no user.
- PartnerStrategy.AvailabilityPolicy: `timezone.now()` becomes the `now: int` parameter and `product.expires` becomes an `Option<int>`. Datetimes, time zones and the `TypeError` Python raises when comparing a naive with an aware datetime are not modelled.
- `PartnerStrategy.SelectStrategy` takes the profile's country as an input. The remote `account_details` lookup, and any exception it raises and the selector re-raises, are left out. The logging calls are left out.
- The concrete strings of `ORDER.OPEN` and `ORDER.FULFILLMENT_ERROR` are defined in `ecommerce/extensions/fulfillment/status.py`, which is not part of this model. The model uses `"Open"` and `"Fulfillment Error"`. Its lemmas rely only on the two being the fulfillable statuses.
- `OrderModels.ContainsCoupon` reads the basket's lines directly. An order without a basket, and the toolkit's `all_lines()` query, are not modelled.
- The Razorpay facade, processor and views are left out: they are gateway SDK calls, ORM lookups and HTTP views.
- The enterprise voucher-assignment, revocation, reminder, overview and form-validation behaviour is left out: only its tests are available, not its implementation.
- The JavaScript form view, the migration and the app configurations are left out: they hold no logic.
