/**
 * The life of an order after its approval: status changes, the borrower's
 * history, the lender's orders, marking an order returned, and the lender's
 * view of orders whose return was approved.
 */
module OrderService {
  import opened Wrappers
  import opened Dynamo
  import opened Listing
  import opened Models
  import ProductRepository
  import OrderRepository
  import ReturnRequestRepository

  // ---------------------------------------------------------------------
  // update_order_status

  /**
   * The order must exist; Returned is reachable only from Return Requested.
   * Any other target is written whatever the current status.
   */
  function UpdateStatusSpec(db: Db, id: int, st: OrderStatus, accepted: bool): (Result<(), Fault>, Db) {
    match OrderRepository.GetByIdSpec(db, id)
    case Err(e) => (Err(e), db)
    case Ok(None) => (Err(Fail("order not found")), db)
    case Ok(Some(o)) =>
      if st == Returned && o.status != ReturnRequested then
        (Err(Fail("order must be in return_requested status to mark as returned")), db)
      else OrderRepository.UpdateStatusSpec(db, id, st.Value(), accepted)
  }

  /**
   * update_order_status succeeds exactly when the order is found, the
   * Returned gate passes, the product is found and the store accepts; a
   * failure writes nothing. When the three copies of the order agree, the
   * order then reads back with the new status and nothing else changed.
   */
  lemma UpdateStatusEffect(db: Db, id: int, st: OrderStatus, accepted: bool)
    ensures var (r, db') := UpdateStatusSpec(db, id, st, accepted);
      var got := OrderRepository.GetByIdSpec(db, id);
      && (r.Ok? <==>
            && got.Ok? && got.value.Some?
            && (st == Returned ==> got.value.value.status == ReturnRequested)
            && OrderRepository.CurrentLender(db, id).Some? && accepted)
      && (r.Err? ==> db' == db)
      && (r.Ok? && OrderRepository.Agree(db, id, got.value.value.userId, OrderRepository.CurrentLender(db, id).value) ==>
            OrderRepository.GetByIdSpec(db', id) == Ok(Some(got.value.value.(status := st))))
  {
    var got := OrderRepository.GetByIdSpec(db, id);
    UpdateStatusOutcome(db, id, st, accepted);
    if UpdateStatusSpec(db, id, st, accepted).0.Ok? &&
       OrderRepository.Agree(db, id, got.value.value.userId, OrderRepository.CurrentLender(db, id).value) {
      OrderRepository.UpdateStatusSpecThenGet(db, id, st, accepted);
    }
  }

  lemma UpdateStatusOutcome(db: Db, id: int, st: OrderStatus, accepted: bool)
    ensures var (r, db') := UpdateStatusSpec(db, id, st, accepted);
      var got := OrderRepository.GetByIdSpec(db, id);
      && (r.Ok? <==>
            && got.Ok? && got.value.Some?
            && (st == Returned ==> got.value.value.status == ReturnRequested)
            && OrderRepository.CurrentLender(db, id).Some? && accepted)
      && (r.Err? ==> db' == db)
      && (r.Ok? ==> (r, db') == OrderRepository.UpdateStatusSpec(db, id, st.Value(), accepted))
  {
    OrderRepository.UpdateStatusEffect(db, id, st.Value(), accepted);
  }

  // ---------------------------------------------------------------------
  // get_order_history

  /** `[s.value for s in filter_statuses]`. */
  function Values(filter: seq<OrderStatus>): (r: seq<string>)
    ensures |r| == |filter|
    ensures forall i | 0 <= i < |filter| :: r[i] == filter[i].Value()
  {
    seq(|filter|, i requires 0 <= i < |filter| => filter[i].Value())
  }

  /** A status's value is in the value list exactly when the status is in the status list. */
  lemma ValuesMember(filter: seq<OrderStatus>, st: OrderStatus)
    ensures st.Value() in Values(filter) <==> st in filter
  {
    var vs := Values(filter);
    if st.Value() in vs {
      var i :| 0 <= i < |vs| && vs[i] == st.Value();
      assert filter[i].Value() == st.Value();
      assert ParseOrderStatus(st.Value()) == Some(filter[i]);
    }
    if st in filter {
      var i :| 0 <= i < |filter| && filter[i] == st;
      assert vs[i] == st.Value();
    }
  }

  /** int() of an absent user id raises; the caller's history under USER#user, filtered. */
  function HistorySpec(ctx: Ctx, rows: seq<Row>, filter: seq<OrderStatus>): Result<seq<Order>, Fault> {
    if ctx.userId.None? then Err(Missing)
    else OrderRepository.HistorySpec(rows, Values(filter))
  }

  /**
   * The history raises without a user id or on an undecodable copy;
   * otherwise it holds exactly the caller's decoded orders whose status is
   * one of the filter's, or all of them when the filter is empty.
   */
  lemma HistoryMembers(ctx: Ctx, rows: seq<Row>, filter: seq<OrderStatus>, o: Order)
    ensures HistorySpec(ctx, rows, filter).Ok? <==>
      ctx.userId.Some? && forall i | 0 <= i < |rows| :: OrderRepository.Decode(rows[i].item).Ok?
    ensures HistorySpec(ctx, rows, filter).Ok? ==>
      (o in HistorySpec(ctx, rows, filter).value <==>
         (exists i | 0 <= i < |rows| :: OrderRepository.Decode(rows[i].item) == Ok(o))
         && (filter == [] || o.status in filter))
  {
    OrderRepository.HistoryMembers(rows, Values(filter), o);
    ValuesMember(filter, o.status);
  }

  /** The borrower's and the lender's copies of an order both lie in the range their listings query. */
  lemma CopiesMatch(user: int, lender: int, id: int)
    ensures Matches(OrderRepository.UserKey(user, id), "USER#" + Str(user), OrderRepository.OrderPrefix)
    ensures Matches(OrderRepository.LenderKey(lender, id), "LENDER#" + Str(lender), OrderRepository.OrderPrefix)
  {
    assert "ORDER#ID#" + Str(id) == OrderRepository.OrderPrefix + ("ID#" + Str(id));
  }

  /**
   * After a successful create, every listing that covers one of the
   * order's copies holds a row decoding to the order with its new id.
   */
  lemma CreatedCopyListed(db: Db, o: Order, now: int, accepted: bool, k: Key, pk: string, rows: seq<Row>)
    requires ValidOrder(o)
    requires OrderRepository.CreateSpec(db, o, now, accepted).0.Ok?
    requires k in OrderRepository.Keys(OrderRepository.NewId(o, now), o.userId,
                                       ProductRepository.FindByIdSpec(db, o.productId).value.value.product.lenderId)
    requires Matches(k, pk, OrderRepository.OrderPrefix)
    requires IsQueryResult(OrderRepository.CreateSpec(db, o, now, accepted).1, pk, OrderRepository.OrderPrefix, rows)
    ensures exists i | 0 <= i < |rows| ::
      OrderRepository.Decode(rows[i].item) == Ok(o.(id := Some(OrderRepository.NewId(o, now))))
  {
    var id := OrderRepository.NewId(o, now);
    OrderRepository.CreateEffect(db, o, now, accepted);
    OrderRepository.DecodeAttributes(id, o);
    var i :| 0 <= i < |rows| && rows[i].key == k;
    assert rows[i].item == OrderRepository.Attributes(id, o);
  }

  /**
   * A placed order shows in its borrower's unfiltered history, as soon as
   * that listing does not raise.
   */
  lemma PlacedOrderInHistory(db: Db, o: Order, now: int, accepted: bool, ctx: Ctx, rows: seq<Row>)
    requires ValidOrder(o) && ctx.userId == Some(o.userId)
    requires OrderRepository.CreateSpec(db, o, now, accepted).0.Ok?
    requires IsQueryResult(OrderRepository.CreateSpec(db, o, now, accepted).1, "USER#" + Str(o.userId),
                           OrderRepository.OrderPrefix, rows)
    requires HistorySpec(ctx, rows, []).Ok?
    ensures o.(id := Some(OrderRepository.NewId(o, now))) in HistorySpec(ctx, rows, []).value
  {
    var id := OrderRepository.NewId(o, now);
    var lender := ProductRepository.FindByIdSpec(db, o.productId).value.value.product.lenderId;
    var k := OrderRepository.UserKey(o.userId, id);
    assert k in OrderRepository.Keys(id, o.userId, lender);
    CopiesMatch(o.userId, lender, id);
    CreatedCopyListed(db, o, now, accepted, k, "USER#" + Str(o.userId), rows);
    HistoryMembers(ctx, rows, [], o.(id := Some(id)));
  }

  // ---------------------------------------------------------------------
  // get_lender_orders

  /** Only lenders; the id must be positive; the lender's copies, unfiltered. */
  function LenderOrdersSpec(ctx: Ctx, rows: seq<Row>): Result<seq<Order>, Fault> {
    if !IsLender(ctx) then Err(Fail("only lender can get orders"))
    else if BadId(ctx.userId) then Err(Fail("invalid lender"))
    else OrderRepository.LenderOrdersSpec(rows)
  }

  /**
   * A placed order shows among the orders of its product's lender, as soon
   * as that lender's listing does not raise.
   */
  lemma PlacedOrderListedForLender(db: Db, o: Order, now: int, accepted: bool, ctx: Ctx, rows: seq<Row>)
    requires ValidOrder(o)
    requires OrderRepository.CreateSpec(db, o, now, accepted).0.Ok?
    requires ctx.userId == Some(ProductRepository.FindByIdSpec(db, o.productId).value.value.product.lenderId)
    requires IsQueryResult(OrderRepository.CreateSpec(db, o, now, accepted).1, "LENDER#" + Str(ctx.userId.value),
                           OrderRepository.OrderPrefix, rows)
    requires LenderOrdersSpec(ctx, rows).Ok?
    ensures o.(id := Some(OrderRepository.NewId(o, now))) in LenderOrdersSpec(ctx, rows).value
  {
    var id := OrderRepository.NewId(o, now);
    var lender := ctx.userId.value;
    var k := OrderRepository.LenderKey(lender, id);
    assert k in OrderRepository.Keys(id, o.userId, lender);
    CopiesMatch(o.userId, lender, id);
    CreatedCopyListed(db, o, now, accepted, k, "LENDER#" + Str(lender), rows);
    OrderRepository.LenderOrdersUnfiltered(rows);
    OrderRepository.HistoryMembers(rows, [], o.(id := Some(id)));
  }

  // ---------------------------------------------------------------------
  // mark_order_as_returned

  /**
   * Only the lender of the order's product may mark it returned; the
   * status is then written directly, without the gate of update_order_status.
   */
  function MarkReturnedSpec(db: Db, id: int, ctx: Ctx, accepted: bool): (Result<(), Fault>, Db) {
    match OrderRepository.GetByIdSpec(db, id)
    case Err(e) => (Err(e), db)
    case Ok(None) => (Err(Fail("order not found")), db)
    case Ok(Some(o)) =>
      match ProductRepository.FindByIdSpec(db, o.productId)
      case Err(e) => (Err(e), db)
      case Ok(None) => (Err(Fail("product not found")), db)
      case Ok(Some(view)) =>
        if ctx.userId.None? then (Err(Missing), db)
        else if view.product.lenderId != ctx.userId.value then (Err(Fail("unauthorized lender")), db)
        else OrderRepository.UpdateStatusSpec(db, id, Returned.Value(), accepted)
  }

  /**
   * Marking succeeds exactly when the order and its product are found, the
   * caller is the product's lender and the store accepts; a failure writes
   * nothing; with agreeing copies the order then reads back Returned.
   */
  lemma MarkReturnedEffect(db: Db, id: int, ctx: Ctx, accepted: bool)
    ensures var (r, db') := MarkReturnedSpec(db, id, ctx, accepted);
      var lender := OrderRepository.CurrentLender(db, id);
      && (r.Ok? <==> lender.Some? && ctx.userId == lender && accepted)
      && (r.Err? ==> db' == db)
      && (lender.Some? && ctx.userId.None? ==> r == Err(Missing))
      && (r.Ok? && OrderRepository.Agree(db, id, OrderRepository.GetByIdSpec(db, id).value.value.userId, lender.value) ==>
            OrderRepository.GetByIdSpec(db', id) == Ok(Some(OrderRepository.GetByIdSpec(db, id).value.value.(status := Returned))))
  {
    var lender := OrderRepository.CurrentLender(db, id);
    if lender.Some? && ctx.userId == lender {
      OrderRepository.UpdateStatusEffect(db, id, Returned.Value(), accepted);
      var o := OrderRepository.GetByIdSpec(db, id).value.value;
      if accepted && OrderRepository.Agree(db, id, o.userId, lender.value) {
        OrderRepository.UpdateStatusThenGet(db, id, o.userId, lender.value, Returned, accepted);
      }
    }
  }

  /**
   * The two routes to Returned disagree: for an order still In Use,
   * update_order_status refuses it and writes nothing, while its lender's
   * mark_order_as_returned performs the same write update_order_status
   * would have made from Return Requested.
   */
  lemma MarkReturnedSkipsGate(db: Db, id: int, ctx: Ctx, accepted: bool)
    requires OrderRepository.GetByIdSpec(db, id).Ok? && OrderRepository.GetByIdSpec(db, id).value.Some?
    requires OrderRepository.GetByIdSpec(db, id).value.value.status == InUse
    requires OrderRepository.CurrentLender(db, id).Some? && ctx.userId == OrderRepository.CurrentLender(db, id)
    ensures UpdateStatusSpec(db, id, Returned, accepted)
         == (Err(Fail("order must be in return_requested status to mark as returned")), db)
    ensures MarkReturnedSpec(db, id, ctx, accepted).0.Ok? <==> accepted
  {
    MarkReturnedEffect(db, id, ctx, accepted);
  }

  // ---------------------------------------------------------------------
  // get_all_approved_awaiting_orders

  /** The status filter the code passes: lower-case, unlike every stored status. */
  const AsWrittenFilter: seq<string> := ["approved"]

  /** The filter the view is meant to apply: the stored value of Approved. */
  const IntendedFilter: seq<string> := [ReturnStatus.Approved.Value()]

  /**
   * One iteration over the listed return requests: a failed read of the
   * order raises, a missing order or one not in Return Requested is skipped.
   */
  function AwaitStep(db: Db, rr: ReturnRequest): Step<Order, Fault> {
    match OrderRepository.GetByIdSpec(db, rr.orderId)
    case Err(e) => Stop(e)
    case Ok(None) => Skip
    case Ok(Some(o)) => if o.status != ReturnRequested then Skip else Keep(o)
  }

  function AwaitSteps(db: Db, rrs: seq<ReturnRequest>): (steps: seq<Step<Order, Fault>>)
    ensures |steps| == |rrs|
    ensures forall i | 0 <= i < |rrs| :: steps[i] == AwaitStep(db, rrs[i])
  {
    seq(|rrs|, i requires 0 <= i < |rrs| => AwaitStep(db, rrs[i]))
  }

  /** Only lenders; the return requests passing the filter, then their orders. */
  function AwaitingSpec(ctx: Ctx, db: Db, rows: seq<Row>, filter: seq<string>): Result<seq<Order>, Fault> {
    if !IsLender(ctx) then Err(Fail("only lender can get returned awaiting orders"))
    else
      match ReturnRequestRepository.GetAllSpec(rows, filter)
      case Err(e) => Err(e)
      case Ok(rrs) => Collect(AwaitSteps(db, rrs))
  }

  /** Every error of a return-request listing is an undecodable row. */
  lemma ListingErrIsMalformed(rows: seq<Row>, filter: seq<string>)
    requires ReturnRequestRepository.GetAllSpec(rows, filter).Err?
    ensures ReturnRequestRepository.GetAllSpec(rows, filter).error == Malformed
  {
    var steps := ReturnRequestRepository.ListSteps(filter, rows);
    CollectOk(steps);
    var i := FirstStop(steps);
    CollectStop(steps, i);
  }

  /**
   * As written, the view is empty for every table: a row passing the
   * lower-case filter has a status no ReturnStatus parses, so the listing
   * either raises on it or holds nothing, and no order is ever shown.
   */
  lemma AwaitingAsWrittenEmpty(ctx: Ctx, db: Db, rows: seq<Row>)
    requires IsLender(ctx)
    ensures AwaitingSpec(ctx, db, rows, AsWrittenFilter) == Ok([])
         || AwaitingSpec(ctx, db, rows, AsWrittenFilter) == Err(Malformed)
  {
    var listing := ReturnRequestRepository.GetAllSpec(rows, AsWrittenFilter);
    if listing.Err? {
      ListingErrIsMalformed(rows, AsWrittenFilter);
    } else if listing.value != [] {
      var rr := listing.value[0];
      ReturnRequestRepository.GetAllFiltered(rows, AsWrittenFilter, rr);
      assert false;
    }
  }

  /** The loop over the listed requests raises exactly when reading one of their orders raises. */
  lemma AwaitCollectOk(db: Db, rrs: seq<ReturnRequest>)
    ensures Collect(AwaitSteps(db, rrs)).Ok? <==> forall rr | rr in rrs :: OrderRepository.GetByIdSpec(db, rr.orderId).Ok?
  {
    var steps := AwaitSteps(db, rrs);
    CollectOk(steps);
    if !NoStop(steps) {
      var i :| 0 <= i < |steps| && steps[i].Stop?;
      assert rrs[i] in rrs;
    } else {
      forall rr | rr in rrs ensures OrderRepository.GetByIdSpec(db, rr.orderId).Ok? {
        var i :| 0 <= i < |rrs| && rrs[i] == rr;
        assert !steps[i].Stop?;
      }
    }
  }

  /** One iteration keeps an order exactly when it reads that order and the order awaits its return. */
  lemma AwaitStepKeeps(db: Db, rr: ReturnRequest, o: Order)
    ensures AwaitStep(db, rr) == Keep(o) <==>
      OrderRepository.GetByIdSpec(db, rr.orderId) == Ok(Some(o)) && o.status == ReturnRequested
  {
  }

  /** When it does not raise, the loop keeps exactly the found orders in Return Requested. */
  lemma AwaitCollectMember(db: Db, rrs: seq<ReturnRequest>, o: Order)
    requires Collect(AwaitSteps(db, rrs)).Ok?
    ensures o in Collect(AwaitSteps(db, rrs)).value <==>
      o.status == ReturnRequested && exists rr | rr in rrs :: OrderRepository.GetByIdSpec(db, rr.orderId) == Ok(Some(o))
  {
    var steps := AwaitSteps(db, rrs);
    CollectOk(steps);
    CollectNoStop(steps);
    KeptMember(steps, o);
    if o in Kept(steps) {
      var i :| 0 <= i < |steps| && steps[i] == Keep(o);
      AwaitStepKeeps(db, rrs[i], o);
      assert rrs[i] in rrs;
    }
    if o.status == ReturnRequested && exists rr | rr in rrs :: OrderRepository.GetByIdSpec(db, rr.orderId) == Ok(Some(o)) {
      var rr :| rr in rrs && OrderRepository.GetByIdSpec(db, rr.orderId) == Ok(Some(o));
      var i :| 0 <= i < |rrs| && rrs[i] == rr;
      AwaitStepKeeps(db, rr, o);
      assert steps[i] == Keep(o);
    }
  }

  /**
   * With the intended filter the view holds exactly the orders in Return
   * Requested whose return request is listed as Approved, and it raises
   * only when the listing or the read of such an order raises.
   */
  lemma AwaitingMembers(ctx: Ctx, db: Db, rows: seq<Row>, o: Order)
    requires IsLender(ctx)
    ensures var listing := ReturnRequestRepository.GetAllSpec(rows, IntendedFilter);
      && (AwaitingSpec(ctx, db, rows, IntendedFilter).Ok? <==>
            listing.Ok? && forall rr | rr in listing.value :: OrderRepository.GetByIdSpec(db, rr.orderId).Ok?)
      && (AwaitingSpec(ctx, db, rows, IntendedFilter).Ok? ==>
            (o in AwaitingSpec(ctx, db, rows, IntendedFilter).value <==>
               o.status == ReturnRequested &&
               exists rr | rr in listing.value ::
                 rr.status == ReturnStatus.Approved && OrderRepository.GetByIdSpec(db, rr.orderId) == Ok(Some(o))))
  {
    var listing := ReturnRequestRepository.GetAllSpec(rows, IntendedFilter);
    if listing.Ok? {
      var rrs := listing.value;
      AwaitCollectOk(db, rrs);
      forall rr | rr in rrs ensures rr.status == ReturnStatus.Approved {
        ReturnRequestRepository.GetAllFiltered(rows, IntendedFilter, rr);
      }
      if Collect(AwaitSteps(db, rrs)).Ok? {
        AwaitCollectMember(db, rrs, o);
      }
    }
  }

  // ---------------------------------------------------------------------
  // The service

  class OrderSvc {
    const table: Table
    const orders: OrderRepository.OrderRepo
    const products: ProductRepository.ProductRepo
    const returnRequests: ReturnRequestRepository.ReturnRequestRepo

    /** Every repository works on the one table. */
    predicate Wired() {
      && orders.table == table && products.table == table && returnRequests.table == table
      && orders.Wired() && products.Wired()
    }

    constructor (table: Table, orders: OrderRepository.OrderRepo, products: ProductRepository.ProductRepo,
                 returnRequests: ReturnRequestRepository.ReturnRequestRepo)
      requires orders.table == table && products.table == table && returnRequests.table == table
      requires orders.Wired() && products.Wired()
      ensures Wired()
    {
      this.table := table;
      this.orders := orders;
      this.products := products;
      this.returnRequests := returnRequests;
    }

    /** update_order_status. */
    method UpdateOrderStatus(id: int, st: OrderStatus) returns (r: Result<(), Fault>, ghost accepted: bool)
      requires Wired()
      modifies table
      ensures (r, table.items) == UpdateStatusSpec(old(table.items), id, st, accepted)
    {
      var got := orders.GetOrderById(id);
      if got.Err? {
        return Err(got.error), false;
      }
      if got.value.None? {
        return Err(Fail("order not found")), false;
      }
      if st == Returned && got.value.value.status != ReturnRequested {
        return Err(Fail("order must be in return_requested status to mark as returned")), false;
      }
      r, accepted := orders.UpdateOrderStatus(id, st.Value());
    }

    /** get_order_history. */
    method GetOrderHistory(ctx: Ctx, filter: seq<OrderStatus>) returns (r: Result<seq<Order>, Fault>, ghost rows: seq<Row>)
      requires Wired()
      ensures ctx.userId.Some? ==>
        IsQueryResult(table.items, "USER#" + Str(ctx.userId.value), OrderRepository.OrderPrefix, rows)
      ensures r == HistorySpec(ctx, rows, filter)
    {
      if ctx.userId.None? {
        return Err(Missing), [];
      }
      r, rows := orders.GetOrderHistory(ctx.userId.value, Values(filter));
    }

    /** get_lender_orders. */
    method GetLenderOrders(ctx: Ctx) returns (r: Result<seq<Order>, Fault>, ghost rows: seq<Row>)
      requires Wired()
      ensures IsLender(ctx) && !BadId(ctx.userId) ==>
        IsQueryResult(table.items, "LENDER#" + Str(ctx.userId.value), OrderRepository.OrderPrefix, rows)
      ensures r == LenderOrdersSpec(ctx, rows)
    {
      if ctx.role != Some(LenderRole.Value()) {
        return Err(Fail("only lender can get orders")), [];
      }
      if ctx.userId.None? || ctx.userId.value <= 0 {
        return Err(Fail("invalid lender")), [];
      }
      r, rows := orders.GetLenderOrders(ctx.userId.value);
    }

    /** mark_order_as_returned. */
    method MarkOrderAsReturned(id: int, ctx: Ctx) returns (r: Result<(), Fault>, ghost accepted: bool)
      requires Wired()
      modifies table
      ensures (r, table.items) == MarkReturnedSpec(old(table.items), id, ctx, accepted)
    {
      var got := orders.GetOrderById(id);
      if got.Err? {
        return Err(got.error), false;
      }
      if got.value.None? {
        return Err(Fail("order not found")), false;
      }
      var found := products.FindById(got.value.value.productId);
      if found.Err? {
        return Err(found.error), false;
      }
      if found.value.None? {
        return Err(Fail("product not found")), false;
      }
      if ctx.userId.None? {
        return Err(Missing), false;
      }
      if found.value.value.product.lenderId != ctx.userId.value {
        return Err(Fail("unauthorized lender")), false;
      }
      r, accepted := orders.UpdateOrderStatus(id, Returned.Value());
    }

    /**
     * get_all_approved_awaiting_orders, with the intended Approved filter:
     * the approved return requests, then each one's order, kept when it
     * awaits its return.
     */
    method GetAllApprovedAwaitingOrders(ctx: Ctx) returns (r: Result<seq<Order>, Fault>, ghost rows: seq<Row>)
      requires Wired()
      ensures IsLender(ctx) ==> IsQueryResult(table.items, ReturnRequestRepository.Partition, "", rows)
      ensures r == AwaitingSpec(ctx, table.items, rows, IntendedFilter)
    {
      if ctx.role != Some(LenderRole.Value()) {
        return Err(Fail("only lender can get returned awaiting orders")), [];
      }
      var listed;
      listed, rows := returnRequests.GetAllReturnRequests(IntendedFilter);
      if listed.Err? {
        return Err(listed.error), rows;
      }
      var rrs := listed.value;
      ghost var steps := AwaitSteps(table.items, rrs);
      var awaiting: seq<Order> := [];
      var i := 0;
      while i < |rrs|
        invariant 0 <= i <= |rrs|
        invariant Collect(steps[..i]) == Ok(awaiting)
      {
        CollectNext(steps, i);
        var got := orders.GetOrderById(rrs[i].orderId);
        if got.Err? {
          CollectErrSticky(steps, i + 1);
          return Err(got.error), rows;
        }
        if got.value.Some? && got.value.value.status == ReturnRequested {
          awaiting := awaiting + [got.value.value];
        }
        i := i + 1;
      }
      assert steps[..i] == steps;
      r := Ok(awaiting);
    }
  }
}
