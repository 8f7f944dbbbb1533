/**
 * `/api/lunch-orders`: today's orders, optionally for one location, newest first; and
 * the placing of an order by a signed-in user, dated today.
 */
module OrdersRoute {
  import opened Wrappers
  import opened JsStrings
  import opened Schema
  import opened OrderModel
  import opened Database
  import opened Http
  import opened Auth
  import opened DateUtils
  import opened Handler
  import Seqs

  /** The query of a GET: today's window, and the location when one is given. */
  predicate Matches(o: Order, range: DayRange, locationId: Option<string>) {
    InRange(range, o.orderDate) && (!Filled(locationId) || o.locationId == locationId.value)
  }

  /** GET: the orders the query selects, sorted by creation time, newest first. */
  function ListOrders(st: Store, locationId: Option<string>, now: int, wall: int -> int, offset: int): (r: Response)
    ensures r.status == 200 && Succeeded(r) && r.body.data.Some? && r.body.data.value.OrderList?
    ensures var orders := r.body.data.value.orders;
      var range := GetTrinidadDateRange(now, wall, offset);
      && multiset(orders) == multiset(Seqs.Filter(st.orders, (o: Order) => Matches(o, range, locationId)))
      && (forall k :: 0 <= k < |orders| ==> range.startOfDay <= orders[k].orderDate <= range.endOfDay)
      && (forall k :: 0 <= k < |orders| && Filled(locationId) ==> orders[k].locationId == locationId.value)
      && (forall o :: o in st.orders && Matches(o, range, locationId) ==> o in orders)
      && (forall i, j :: 0 <= i < j < |orders| ==> orders[i].createdAt >= orders[j].createdAt)
  {
    var range := GetTrinidadDateRange(now, wall, offset);
    var selected := Seqs.Filter(st.orders, (o: Order) => Matches(o, range, locationId));
    var sorted := Seqs.SortDesc(selected, (o: Order) => o.createdAt, (o: Order) => o.createdAt);
    SelectedOrders(st, range, locationId, selected, sorted);
    Success(200, None, Some(OrderList(sorted)))
  }

  /** A permutation of the selected orders holds exactly the orders the query matches. */
  lemma SelectedOrders(st: Store, range: DayRange, locationId: Option<string>, selected: seq<Order>, sorted: seq<Order>)
    requires selected == Seqs.Filter(st.orders, (o: Order) => Matches(o, range, locationId))
    requires multiset(sorted) == multiset(selected)
    ensures forall k :: 0 <= k < |sorted| ==> Matches(sorted[k], range, locationId)
    ensures forall o :: o in st.orders && Matches(o, range, locationId) ==> o in sorted
  {
    forall k | 0 <= k < |sorted| ensures Matches(sorted[k], range, locationId) {
      assert sorted[k] in multiset(selected);
      var j :| 0 <= j < |selected| && selected[j] == sorted[k];
    }
    forall o | o in st.orders && Matches(o, range, locationId) ensures o in sorted {
      assert multiset(selected)[o] == multiset(st.orders)[o];
      assert o in multiset(sorted);
    }
  }

  /** The body of a POST: every member may be missing; numbers may also be `null`. */
  datatype OrderRequest = OrderRequest(
    locationId: Option<string>, item: Option<string>, cost: JsonNumber, notes: Option<string>, moneyPaid: JsonNumber)

  /** `locationId` and `item` are non-empty strings and `cost` is not `undefined`. */
  predicate Given(req: OrderRequest) {
    Filled(req.locationId) && Filled(req.item) && !req.cost.Undefined?
  }

  /** The checks of a POST before `create`, in order: presence, then the two bounds. */
  function Precheck(req: OrderRequest): (r: Option<string>)
    ensures r.None? <==>
      && Given(req)
      && !(req.cost.Number? && req.cost.value < 0.0)
      && !(req.moneyPaid.Number? && req.moneyPaid.value < 0.0)
    ensures !Given(req) ==> r == Some("Location, item, and cost are required")
    ensures Given(req) && req.cost.Number? && req.cost.value < 0.0 ==> r == Some("Cost cannot be negative")
    ensures Given(req) && !(req.cost.Number? && req.cost.value < 0.0) && req.moneyPaid.Number? && req.moneyPaid.value < 0.0
            ==> r == Some("Money paid cannot be negative")
  {
    if !Filled(req.locationId) || !Filled(req.item) || req.cost.Undefined? then Some("Location, item, and cost are required")
    else if req.cost.Number? && req.cost.value < 0.0 then Some("Cost cannot be negative")
    else if req.moneyPaid.Number? && req.moneyPaid.value < 0.0 then Some("Money paid cannot be negative")
    else None
  }

  /** The fields handed to `create`: the requester as `userId`, today's midnight as `orderDate`. */
  function DraftOf(req: OrderRequest, userId: Id, startOfDay: int): OrderDraft {
    OrderDraft(req.locationId, Some(userId), req.item, req.cost, req.notes,
               if req.moneyPaid.Number? then Some(req.moneyPaid.value) else None, Some(startOfDay))
  }

  /**
   * POST: authentication, the checks of `Precheck`, then creation; a failed validation or
   * write is 400 with its message, success is 201 with the new order.
   */
  function CreateOrder(st: Store, header: Option<string>, verify: string -> Option<Claims>,
                       req: OrderRequest, id: Id, now: int, wall: int -> int, offset: int): (r: Reply)
    ensures r.mail.None?
    ensures AuthenticateRequest(header, verify).Rejected? ==> r == Answer(st, AuthenticateRequest(header, verify).response)
    ensures AuthenticateRequest(header, verify).Authenticated? && Precheck(req).Some? ==>
      r == Answer(st, Fail(400, Precheck(req).value))
    ensures r.store != st ==> r.response.status == 201
    ensures r.response.status != 201 ==> r.store == st && !Succeeded(r.response)
    ensures r.response.status == 201 <==>
      && AuthenticateRequest(header, verify).Authenticated?
      && AuthenticateRequest(header, verify).user.userId != ""
      && Precheck(req).None? && req.cost.Number? && Trim(req.item.value) != ""
      && forall k :: 0 <= k < |st.orders| ==> st.orders[k].id != id
    ensures r.response.status == 201 ==>
      r.response.body.Envelope? && r.response.body.data.Some? && r.response.body.data.value.CreatedOrder?
    ensures r.response.status == 201 ==> var o := r.response.body.data.value.order;
      && r.response == Success(201, Some("Order created successfully"), Some(CreatedOrder(o)))
      && r.store == st.(orders := st.orders + [o])
      && o.id == id && o.createdAt == now
      && o.userId == AuthenticateRequest(header, verify).user.userId
      && o.orderDate == GetTrinidadDateRange(now, wall, offset).startOfDay
      && o.locationId == req.locationId.value && o.item == Trim(req.item.value)
      && o.cost == req.cost.value && o.cost >= 0.0
  {
    match AuthenticateRequest(header, verify)
    case Rejected(resp) => Answer(st, resp)
    case Authenticated(user) =>
      match Precheck(req)
      case Some(e) => Answer(st, Fail(400, e))
      case None =>
        var range := GetTrinidadDateRange(now, wall, offset);
        match NewOrder(DraftOf(req, user.userId, range.startOfDay), id, now)
        case Err(e) => Answer(st, Fail(400, e))
        case Ok(o) =>
          match InsertOrder(st, o)
          case Err(e) => Answer(st, Fail(400, e))
          case Ok(st2) => Answer(st2, Success(201, Some("Order created successfully"), Some(CreatedOrder(o))))
  }

  /** A cost of exactly 0 passes every check of the route. */
  lemma ZeroCostAccepted(locationId: string, item: string, notes: Option<string>)
    requires locationId != "" && item != ""
    ensures Precheck(OrderRequest(Some(locationId), Some(item), Number(0.0), notes, Undefined)).None?
    ensures Precheck(OrderRequest(Some(locationId), Some(item), Number(0.0), notes, Null)).None?
  {
  }
}
