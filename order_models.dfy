/** The order predicates of the order extension. */
module OrderModels {

  /** Order statuses are strings. The two that allow fulfilment are
      `ORDER.OPEN` and `ORDER.FULFILLMENT_ERROR`. */
  const Open: string := "Open"
  const FulfillmentError: string := "Fulfillment Error"

  /** The statuses for which an order can be fulfilled. */
  const FulfillableStatuses: set<string> := {Open, FulfillmentError}

  /** A catalogue product, as far as the predicates look at it. */
  datatype Product = Product(isCouponProduct: bool)

  /** A basket line and the product it holds. */
  datatype Line = Line(product: Product)

  /** An order: its status and the lines of its basket. */
  datatype Order = Order(status: string, basketLines: seq<Line>)

  /** `Order.is_fulfillable`: the status is one of the two fulfillable ones. */
  function IsFulfillable(o: Order): (b: bool)
    ensures b <==> o.status == Open || o.status == FulfillmentError
  {
    o.status in FulfillableStatuses
  }

  /** An open order can be fulfilled. */
  lemma OpenIsFulfillable(o: Order)
    requires o.status == Open
    ensures IsFulfillable(o)
  {
  }

  /** An order whose fulfilment failed can be fulfilled again. */
  lemma FulfillmentErrorIsFulfillable(o: Order)
    requires o.status == FulfillmentError
    ensures IsFulfillable(o)
  {
  }

  /** No other status allows fulfilment. */
  lemma OtherStatusNotFulfillable(o: Order)
    requires o.status != Open && o.status != FulfillmentError
    ensures !IsFulfillable(o)
  {
  }

  /** `any(line.product.is_coupon_product for line in lines)`. */
  function AnyCouponLine(lines: seq<Line>): (b: bool)
    ensures b <==> exists i :: 0 <= i < |lines| && lines[i].product.isCouponProduct
  {
    if lines == [] then false
    else lines[0].product.isCouponProduct || AnyCouponLine(lines[1..])
  }

  /** `Order.contains_coupon`: some basket line holds a coupon product. */
  function ContainsCoupon(o: Order): (b: bool)
    ensures b <==> exists l :: l in o.basketLines && l.product.isCouponProduct
  {
    AnyCouponLine(o.basketLines)
  }

  /** An order with an empty basket contains no coupon. */
  lemma EmptyBasketHasNoCoupon(o: Order)
    requires o.basketLines == []
    ensures !ContainsCoupon(o)
  {
  }

  /** Whether the lines contain a coupon is decided part by part. */
  lemma {:induction false} AnyCouponLineAppend(a: seq<Line>, b: seq<Line>)
    ensures AnyCouponLine(a + b) == (AnyCouponLine(a) || AnyCouponLine(b))
    decreases |a|
  {
    if a == [] {
      assert a + b == b;
    } else {
      assert (a + b)[0] == a[0];
      assert (a + b)[1..] == a[1..] + b;
      AnyCouponLineAppend(a[1..], b);
    }
  }

  /** The answer does not depend on the order of the basket lines. */
  lemma ContainsCouponPermutation(o: Order, p: Order)
    requires multiset(o.basketLines) == multiset(p.basketLines)
    ensures ContainsCoupon(o) == ContainsCoupon(p)
  {
    forall l | l in o.basketLines ensures l in p.basketLines {
      assert l in multiset(o.basketLines);
    }
    forall l | l in p.basketLines ensures l in o.basketLines {
      assert l in multiset(p.basketLines);
    }
  }
}
