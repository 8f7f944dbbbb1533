/** The lunch-order document and its schema. */
module OrderModel {
  import opened Wrappers
  import opened JsStrings
  import opened Schema

  /** A stored order. The schema has no `moneyPaid` path, so no stored order carries one. */
  datatype Order = Order(
    id: Id,
    locationId: Id,
    userId: Id,
    item: string,
    cost: real,
    notes: Option<string>,
    orderDate: int,
    createdAt: int)

  /**
   * The fields handed to `create`; `None` is a field left undefined (for `moneyPaid`,
   * `null`). `moneyPaid` is not a path of the schema and `create` discards it.
   */
  datatype OrderDraft = OrderDraft(
    locationId: Option<Id>,
    userId: Option<Id>,
    item: Option<string>,
    cost: JsonNumber,
    notes: Option<string>,
    moneyPaid: Option<real>,
    orderDate: Option<int>)

  /** `cost`: required (neither missing nor null), then at least 0. */
  function CostErrors(cost: JsonNumber): (r: seq<FieldError>)
    ensures r == [] <==> cost.Number? && cost.value >= 0.0
  {
    match cost
    case Number(c) => if c < 0.0 then [FieldError("cost", "Cost cannot be negative")] else []
    case _ => [FieldError("cost", "Please provide the cost")]
  }

  /** The validators of the schema, in path order, over the values after the setters ran. */
  function OrderErrors(d: OrderDraft, item: Option<string>): (r: seq<FieldError>)
    ensures r == [] <==>
      && Filled(d.locationId) && Filled(d.userId) && Filled(item)
      && d.cost.Number? && d.cost.value >= 0.0 && d.orderDate.Some?
  {
    var a := RequireString("locationId", d.locationId, RequiredMessage("locationId"));
    var b := RequireString("userId", d.userId, RequiredMessage("userId"));
    var c := RequireString("item", item, "Please provide what you want to order");
    var e := CostErrors(d.cost);
    var f := if d.orderDate.None? then [FieldError("orderDate", RequiredMessage("orderDate"))] else [];
    assert |a + b + c + e + f| == |a| + |b| + |c| + |e| + |f|;
    a + b + c + e + f
  }

  /** The draft passes the schema: both references, a non-blank item, a cost of at least 0 and a date. */
  predicate Acceptable(d: OrderDraft) {
    && Filled(d.locationId) && Filled(d.userId)
    && d.item.Some? && Trim(d.item.value) != ""
    && d.cost.Number? && d.cost.value >= 0.0
    && d.orderDate.Some?
  }

  /** `LunchOrder.create`: trims `item` and `notes` and validates. */
  function NewOrder(d: OrderDraft, id: Id, now: int): (r: Result<Order>)
    ensures r.Ok? <==> Acceptable(d)
    ensures r.Ok? ==> var o := r.value;
      && o.id == id && o.createdAt == now
      && o.locationId == d.locationId.value && o.userId == d.userId.value
      && o.item == Trim(d.item.value) && o.cost == d.cost.value && o.cost >= 0.0
      && o.notes == TrimOpt(d.notes)
      && o.orderDate == d.orderDate.value
    ensures r.Err? ==> StartsWith(r.error, FailureHead("LunchOrder"))
  {
    var item := TrimOpt(d.item);
    var errs := OrderErrors(d, item);
    assert Filled(item) <==> d.item.Some? && Trim(d.item.value) != "";
    var cost := if d.cost.Number? then d.cost.value else 0.0;
    var o := Order(id, d.locationId.GetOr(""), d.userId.GetOr(""), item.GetOr(""), cost,
                   TrimOpt(d.notes), d.orderDate.GetOr(0), now);
    Validated("LunchOrder", errs, o)
  }

  /** Whatever `moneyPaid` the caller passes, the created order (or the error) is the same. */
  lemma NewOrderIgnoresMoneyPaid(d: OrderDraft, paid: Option<real>, id: Id, now: int)
    ensures NewOrder(d.(moneyPaid := paid), id, now) == NewOrder(d, id, now)
  {
  }
}
