/** The pricing-strategy decisions of the partner extension: which stock
    record the India strategy uses, when a course seat is available, and
    which strategy the selector hands out. */
module PartnerStrategy {
  import opened Outcomes

  // ---------------------------------------------------------------------
  // UseSecondStockRecord.select_stockrecord
  // ---------------------------------------------------------------------

  /** `select_stockrecord(product)` over the product's stock records: the
      record at index 1, or, when that index raises `IndexError`, the record
      at index 0, whose own `IndexError` is not caught. */
  function SelectStockRecord<R>(records: seq<R>): (r: Result<R>)
    ensures r.Ok? <==> |records| > 0
    ensures r.Err? ==> r.error == IndexError
    ensures r.Ok? ==> r.value in records
  {
    if |records| > 1 then Ok(records[1])
    else if |records| > 0 then Ok(records[0])
    else Err(IndexError)
  }

  /** With at least two stock records, the second one is used. */
  lemma SelectStockRecordSecond<R>(records: seq<R>)
    requires |records| >= 2
    ensures SelectStockRecord(records) == Ok(records[1])
  {
  }

  /** With exactly one stock record, that one is used; with none, the
      fallback index raises `IndexError`. */
  lemma SelectStockRecordFallback<R>(records: seq<R>)
    requires |records| <= 1
    ensures |records| == 1 ==> SelectStockRecord(records) == Ok(records[0])
    ensures |records| == 0 ==> SelectStockRecord(records) == Err(IndexError)
  {
  }

  /** The choice depends only on the first two records: extra records
      beyond the second never change it. */
  lemma SelectStockRecordIgnoresTail<R>(records: seq<R>, more: seq<R>)
    requires |records| >= 2
    ensures SelectStockRecord(records + more) == SelectStockRecord(records)
  {
    assert (records + more)[1] == records[1];
  }

  // ---------------------------------------------------------------------
  // CourseSeatAvailabilityPolicyMixin.availability_policy
  // ---------------------------------------------------------------------

  /** The user a strategy was built for; `is_anonymous` is read by the
      selector, `is_staff` by the availability policy. */
  datatype User = User(isStaff: bool, isAnonymous: bool)

  /** The two outcomes of the seat availability rule: defer to the
      stock-required policy of the toolkit, or report the seat unavailable. */
  datatype SeatAvailability = StockRequiredPolicy | Unavailable

  /** `getattr(self.user, 'is_staff', False)`: a missing user is not staff. */
  function IsStaff(user: Option<User>): (b: bool)
    ensures b <==> user.Some? && user.value.isStaff
  {
    match user
    case None => false
    case Some(u) => u.isStaff
  }

  /** `availability_policy(product, stockrecord)`, given the strategy's user,
      the product's expiry (`None` when it never expires) and the current
      time. */
  function AvailabilityPolicy(user: Option<User>, expires: Option<int>, now: int): (a: SeatAvailability)
    ensures a == Unavailable <==> !IsStaff(user) && expires.Some? && expires.value < now
  {
    var isAvailable := expires.None? || expires.value >= now;
    if IsStaff(user) || isAvailable then StockRequiredPolicy else Unavailable
  }

  /** A staff user always gets the stock-required decision, whatever the
      product's expiry. */
  lemma StaffDefersToStock(u: User, expires: Option<int>, now: int)
    requires u.isStaff
    ensures AvailabilityPolicy(Some(u), expires, now) == StockRequiredPolicy
  {
  }

  /** A missing user is treated exactly like a non-staff user. */
  lemma MissingUserIsNonStaff(u: User, expires: Option<int>, now: int)
    requires !u.isStaff
    ensures AvailabilityPolicy(None, expires, now) == AvailabilityPolicy(Some(u), expires, now)
  {
  }

  /** A non-staff user gets the stock-required decision when the product
      never expires or has not expired yet, and Unavailable otherwise. */
  lemma NonStaffFollowsExpiry(user: Option<User>, expires: Option<int>, now: int)
    requires !IsStaff(user)
    ensures expires.None? ==> AvailabilityPolicy(user, expires, now) == StockRequiredPolicy
    ensures expires.Some? && expires.value >= now ==> AvailabilityPolicy(user, expires, now) == StockRequiredPolicy
    ensures expires.Some? && expires.value < now ==> AvailabilityPolicy(user, expires, now) == Unavailable
  {
  }

  /** Moving the clock forward never makes an unavailable seat available
      again. */
  lemma UnavailableStaysUnavailable(user: Option<User>, expires: Option<int>, now: int, later: int)
    requires now <= later
    requires AvailabilityPolicy(user, expires, now) == Unavailable
    ensures AvailabilityPolicy(user, expires, later) == Unavailable
  {
  }

  // ---------------------------------------------------------------------
  // Selector.strategy
  // ---------------------------------------------------------------------

  /** The profile of the request's user as the account service returns it:
      its `'country'` entry, `None` when the entry is missing. */
  datatype Profile = Profile(country: Option<string>)

  /** A request: `userProfile` is `None` when the request has no `user`
      attribute, otherwise the profile of the request's user. */
  datatype Request = Request(userProfile: Option<Profile>)

  /** The strategies the selector builds. The default strategy is built
      with the request when the request has a user, and with `None`
      otherwise; the India strategy is built with no request at all. */
  datatype Strategy = IndiaStrategy | DefaultStrategy(request: Option<Request>)

  /** `hasattr(request, 'user')`; a missing request has no attribute. */
  predicate HasUser(request: Option<Request>)
    ensures HasUser(request) ==> request.Some?
    ensures request.Some? ==> (HasUser(request) <==> request.value.userProfile.Some?)
  {
    request.Some? && request.value.userProfile.Some?
  }

  /** Whether the selector looks up the profile: the request has a user and
      the `user` argument is present and not anonymous. */
  predicate LooksUpProfile(request: Option<Request>, user: Option<User>)
    ensures LooksUpProfile(request, user) ==> HasUser(request)
    ensures HasUser(request) ==> (LooksUpProfile(request, user) <==> user.Some? && !user.value.isAnonymous)
  {
    HasUser(request) && user.Some? && !user.value.isAnonymous
  }

  /** `Selector().strategy(request, user)`. Reading `profile['country']`
      raises `KeyError` when the profile has no country; the selector
      re-raises it. */
  function SelectStrategy(request: Option<Request>, user: Option<User>): (r: Result<Strategy>)
    ensures r == Ok(IndiaStrategy) <==>
      LooksUpProfile(request, user) && request.value.userProfile.value.country == Some("IN")
    ensures r.Err? <==> LooksUpProfile(request, user) && request.value.userProfile.value.country.None?
    ensures r.Err? ==> r.error == KeyError
  {
    if HasUser(request) && user.Some? && !user.value.isAnonymous then
      match request.value.userProfile.value.country
      case None => Err(KeyError)
      case Some(country) =>
        if country == "IN" then Ok(IndiaStrategy)
        else Ok(DefaultStrategy(request))
    else
      Ok(DefaultStrategy(if HasUser(request) then request else None))
  }

  /** In every case other than an Indian profile or a missing country, the
      selector hands out the default strategy, carrying the request exactly
      when the request has a user. */
  lemma SelectorDefault(request: Option<Request>, user: Option<User>)
    requires !(LooksUpProfile(request, user) && request.value.userProfile.value.country.None?)
    requires !(LooksUpProfile(request, user) && request.value.userProfile.value.country == Some("IN"))
    ensures SelectStrategy(request, user) == Ok(DefaultStrategy(if HasUser(request) then request else None))
  {
  }

  /** Without a `user` argument (the payment view calls
      `Selector().strategy(self.request)`), or with an anonymous one, the
      India strategy is never chosen. */
  lemma SelectorWithoutUserIsDefault(request: Option<Request>, user: Option<User>)
    requires user.None? || user.value.isAnonymous
    ensures SelectStrategy(request, user).Ok?
    ensures SelectStrategy(request, user).value.DefaultStrategy?
  {
  }

  /** The India strategy is chosen only for the exact country code `"IN"`. */
  lemma SelectorIndiaNeedsExactCode(request: Option<Request>, user: Option<User>, country: string)
    requires request == Some(Request(Some(Profile(Some(country)))))
    requires user.Some? && !user.value.isAnonymous
    ensures SelectStrategy(request, user) == Ok(IndiaStrategy) <==> country == "IN"
  {
  }
}
