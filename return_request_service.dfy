/**
 * Returning a borrowed product: the product's lender opens a return request
 * for an order in use, the borrower approves or rejects it, and the borrower
 * lists the pending requests on their orders.
 */
module ReturnRequestService {
  import opened Wrappers
  import opened Dynamo
  import opened Listing
  import opened Models
  import ProductRepository
  import OrderRepository
  import ReturnRequestRepository

  // ---------------------------------------------------------------------
  // create_return_request

  /**
   * The checks before any write: the order exists and is In Use, its
   * product exists and the caller is that product's lender, and the request
   * built from them is valid. Ok carries the order and the request.
   */
  function CreateGuard(db: Db, user: int, orderId: int): Result<(Order, ReturnRequest), Fault> {
    match OrderRepository.GetByIdSpec(db, orderId)
    case Err(e) => Err(e)
    case Ok(None) => Err(Fail("order not found"))
    case Ok(Some(o)) =>
      if o.status != InUse then Err(Fail("order is not in 'in_use' status"))
      else
        match ProductRepository.FindByIdSpec(db, o.productId)
        case Err(e) => Err(e)
        case Ok(None) => Err(Fail("product not found"))
        case Ok(Some(view)) =>
          if view.product.lenderId != user then Err(Fail("user is not lender of the order's product"))
          else
            var rr := ReturnRequest(None, orderId, user, ReturnStatus.Pending);
            if !ValidReturnRequest(rr) then Err(Invalid) else Ok((o, rr))
  }

  /**
   * The guards, then two separate writes: the order's status becomes Return
   * Requested, then the request is stored. `flagged` and `stored` are the
   * store's verdicts on the two writes.
   */
  function CreateSpec(db: Db, user: int, orderId: int, now: int, flagged: bool, stored: bool)
    : (Result<(), Fault>, Db)
  {
    match CreateGuard(db, user, orderId)
    case Err(e) => (Err(e), db)
    case Ok((_, rr)) =>
      var (flag, db1) := OrderRepository.UpdateStatusSpec(db, orderId, ReturnRequested.Value(), flagged);
      if flag.Err? then (flag, db1)
      else ReturnRequestRepository.CreateSpec(db1, rr, now, stored)
  }

  /** The two partitions the create writes to are disjoint: order keys never name a return request. */
  lemma OrderKeysOutside(id: int, user: int, lender: int)
    ensures forall k | k in OrderRepository.Keys(id, user, lender) :: k.pk != ReturnRequestRepository.Partition
  {
    var ks := OrderRepository.Keys(id, user, lender);
    assert ks[0].pk[0] == 'U' && ks[1].pk[0] == 'L' && ks[2].pk[0] == 'O';
    assert ReturnRequestRepository.Partition[0] == 'R';
  }

  /**
   * create succeeds exactly when the guards pass and the store accepts both
   * writes; a failed guard or a refused first write changes nothing.
   */
  lemma CreateOutcome(db: Db, user: int, orderId: int, now: int, flagged: bool, stored: bool)
    ensures var (r, db') := CreateSpec(db, user, orderId, now, flagged, stored);
      && (r.Ok? <==> CreateGuard(db, user, orderId).Ok? && flagged && stored)
      && (CreateGuard(db, user, orderId).Err? || !flagged ==> db' == db && r.Err?)
  {
    var guard := CreateGuard(db, user, orderId);
    if guard.Ok? {
      OrderRepository.UpdateStatusEffect(db, orderId, ReturnRequested.Value(), flagged);
      assert OrderRepository.CurrentLender(db, orderId).Some?;
      var db1 := OrderRepository.UpdateStatusSpec(db, orderId, ReturnRequested.Value(), flagged).1;
      ReturnRequestRepository.CreateThenGet(db1, guard.value.1, now, stored);
    }
  }

  /**
   * The writes are not atomic: once the order write is accepted, the order
   * reads Return Requested whether or not the request is then stored. A
   * successful create also stores the Pending request under the clock reading.
   */
  lemma CreateEffect(db: Db, user: int, orderId: int, now: int, flagged: bool, stored: bool)
    requires CreateGuard(db, user, orderId).Ok? && flagged
    requires var o := CreateGuard(db, user, orderId).value.0;
      OrderRepository.Agree(db, orderId, o.userId, user)
    ensures var (r, db') := CreateSpec(db, user, orderId, now, flagged, stored);
      var o := CreateGuard(db, user, orderId).value.0;
      && OrderRepository.GetByIdSpec(db', orderId) == Ok(Some(o.(status := ReturnRequested)))
      && (r.Ok? ==>
            ReturnRequestRepository.GetByIdSpec(db', now)
              == Ok(Some(ReturnRequest(Some(now), orderId, user, ReturnStatus.Pending))))
  {
    var (o, rr) := CreateGuard(db, user, orderId).value;
    OrderRepository.UpdateStatusEffect(db, orderId, ReturnRequested.Value(), flagged);
    assert OrderRepository.CurrentLender(db, orderId) == Some(user);
    var ops := OrderRepository.UpdateStatusOps(orderId, o.userId, user, ReturnRequested.Value());
    OrderRepository.UpdateStatusThenGet(db, orderId, o.userId, user, ReturnRequested, flagged);
    var db1 := Commit(db, ops, flagged).1;
    ReturnRequestRepository.CreateThenGet(db1, rr, now, stored);
    var k := OrderRepository.PrimaryKey(orderId);
    assert k.pk[0] == 'O' && ReturnRequestRepository.Partition[0] == 'R';
    assert k != ReturnRequestRepository.PrimaryKey(ReturnRequestRepository.NewId(rr, now));
  }

  // ---------------------------------------------------------------------
  // update_return_request_status

  /**
   * Only Approved or Rejected; the request must exist and be Pending; the
   * caller must own the order. Yields the request to decide.
   */
  function UpdateGuard(db: Db, user: int, requestId: int, st: ReturnStatus): Result<ReturnRequest, Fault> {
    if st != ReturnStatus.Approved && st != ReturnStatus.Rejected then Err(Fail("invalid status update"))
    else
      match ReturnRequestRepository.GetByIdSpec(db, requestId)
      case Err(e) => Err(e)
      case Ok(None) => Err(Fail("return request not found"))
      case Ok(Some(req)) =>
        if req.status != ReturnStatus.Pending then Err(Fail("return request is not in pending status"))
        else
          match OrderRepository.GetByIdSpec(db, req.orderId)
          case Err(e) => Err(e)
          case Ok(None) => Err(Fail("order not found"))
          case Ok(Some(o)) =>
            if o.userId != user then Err(Fail("user does not own this order")) else Ok(req)
  }

  /** The guards, then one status write under the id stored in the request. */
  function UpdateSpec(db: Db, user: int, requestId: int, st: ReturnStatus, accepted: bool): (Result<(), Fault>, Db) {
    match UpdateGuard(db, user, requestId, st)
    case Err(e) => (Err(e), db)
    case Ok(req) => ReturnRequestRepository.UpdateStatusSpec(db, req.id.value, st.Value(), accepted)
  }

  /** The borrower of the order a stored request is about, when both are found. */
  function Borrower(db: Db, requestId: int): Option<int> {
    var got := ReturnRequestRepository.GetByIdSpec(db, requestId);
    if got.Err? || got.value.None? then None
    else
      var order := OrderRepository.GetByIdSpec(db, got.value.value.orderId);
      if order.Err? || order.value.None? then None else Some(order.value.value.userId)
  }

  /**
   * A decision succeeds exactly when it is Approved or Rejected, the
   * request is found and Pending, the caller is the order's borrower and
   * the store accepts; a failure writes nothing. Success changes only the
   * return-request partition, and a request stored under its own id then
   * reads back with the new status.
   */
  lemma UpdateEffect(db: Db, user: int, requestId: int, st: ReturnStatus, accepted: bool)
    ensures var (r, db') := UpdateSpec(db, user, requestId, st, accepted);
      var got := ReturnRequestRepository.GetByIdSpec(db, requestId);
      && (r.Ok? <==>
            && st != ReturnStatus.Pending && got.Ok? && got.value.Some?
            && got.value.value.status == ReturnStatus.Pending
            && Borrower(db, requestId) == Some(user) && accepted)
      && (r.Err? ==> db' == db)
      && (forall k: Key | k.pk != ReturnRequestRepository.Partition :: Lookup(db', k) == Lookup(db, k))
      && (r.Ok? && got.value.value.id == Some(requestId) ==>
            ReturnRequestRepository.GetByIdSpec(db', requestId) == Ok(Some(got.value.value.(status := st))))
  {
    UpdateGuardPasses(db, user, requestId, st);
    var g := UpdateGuard(db, user, requestId, st);
    if g.Ok? {
      ReturnRequestRepository.UpdateStatusEffect(db, g.value.id.value, st, accepted);
    }
  }

  /**
   * The guards pass exactly when the status is a decision, the request is
   * found and Pending and the caller is its order's borrower; they then
   * yield the request as read.
   */
  lemma UpdateGuardPasses(db: Db, user: int, requestId: int, st: ReturnStatus)
    ensures var got := ReturnRequestRepository.GetByIdSpec(db, requestId);
      var g := UpdateGuard(db, user, requestId, st);
      && (g.Ok? <==>
            && st != ReturnStatus.Pending && got.Ok? && got.value.Some?
            && got.value.value.status == ReturnStatus.Pending
            && Borrower(db, requestId) == Some(user))
      && (g.Ok? ==> g.value == got.value.value)
  {
  }

  // ---------------------------------------------------------------------
  // get_pending_return_requests

  const PendingFilter: seq<string> := [ReturnStatus.Pending.Value()]

  /** One iteration: a failed order read raises; the request is kept when its order is the caller's. */
  function PendingStep(db: Db, user: int, rr: ReturnRequest): Step<ReturnRequest, Fault> {
    match OrderRepository.GetByIdSpec(db, rr.orderId)
    case Err(e) => Stop(e)
    case Ok(None) => Skip
    case Ok(Some(o)) => if o.userId == user then Keep(rr) else Skip
  }

  function PendingSteps(db: Db, user: int, rrs: seq<ReturnRequest>): (steps: seq<Step<ReturnRequest, Fault>>)
    ensures |steps| == |rrs|
    ensures forall i | 0 <= i < |rrs| :: steps[i] == PendingStep(db, user, rrs[i])
  {
    seq(|rrs|, i requires 0 <= i < |rrs| => PendingStep(db, user, rrs[i]))
  }

  function PendingSpec(db: Db, user: int, rows: seq<Row>): Result<seq<ReturnRequest>, Fault> {
    match ReturnRequestRepository.GetAllSpec(rows, PendingFilter)
    case Err(e) => Err(e)
    case Ok(rrs) => Collect(PendingSteps(db, user, rrs))
  }

  /** Whether the order the request is about is found and borrowed by the user. */
  predicate OnOrderOf(db: Db, user: int, rr: ReturnRequest) {
    var got := OrderRepository.GetByIdSpec(db, rr.orderId);
    got.Ok? && got.value.Some? && got.value.value.userId == user
  }

  lemma PendingStepKeeps(db: Db, user: int, rr: ReturnRequest, x: ReturnRequest)
    ensures PendingStep(db, user, rr) == Keep(x) <==> x == rr && OnOrderOf(db, user, rr)
  {
  }

  /** The loop raises exactly when reading the order of a listed request raises. */
  lemma PendingCollectOk(db: Db, user: int, rrs: seq<ReturnRequest>)
    ensures Collect(PendingSteps(db, user, rrs)).Ok? <==>
      forall rr | rr in rrs :: OrderRepository.GetByIdSpec(db, rr.orderId).Ok?
  {
    var steps := PendingSteps(db, user, rrs);
    CollectOk(steps);
    if !NoStop(steps) {
      var i :| 0 <= i < |steps| && steps[i].Stop?;
      assert rrs[i] in rrs;
    } else {
      forall rr | rr in rrs ensures OrderRepository.GetByIdSpec(db, rr.orderId).Ok? {
        var i :| 0 <= i < |rrs| && rrs[i] == rr;
        assert !steps[i].Stop?;
      }
    }
  }

  /** Without a raise, the loop keeps exactly the listed requests on the user's orders. */
  lemma PendingCollectMember(db: Db, user: int, rrs: seq<ReturnRequest>, x: ReturnRequest)
    requires Collect(PendingSteps(db, user, rrs)).Ok?
    ensures x in Collect(PendingSteps(db, user, rrs)).value <==> x in rrs && OnOrderOf(db, user, x)
  {
    var steps := PendingSteps(db, user, rrs);
    CollectOk(steps);
    CollectNoStop(steps);
    KeptMember(steps, x);
    if x in Kept(steps) {
      var i :| 0 <= i < |steps| && steps[i] == Keep(x);
      PendingStepKeeps(db, user, rrs[i], x);
    }
    if x in rrs && OnOrderOf(db, user, x) {
      var i :| 0 <= i < |rrs| && rrs[i] == x;
      PendingStepKeeps(db, user, x, x);
      assert steps[i] == Keep(x);
    }
  }

  /**
   * The pending listing holds exactly the Pending requests whose order is
   * found and borrowed by the user; it raises when the listing raises or
   * the read of a listed request's order does.
   */
  lemma PendingMembers(db: Db, user: int, rows: seq<Row>, x: ReturnRequest)
    ensures var listing := ReturnRequestRepository.GetAllSpec(rows, PendingFilter);
      && (PendingSpec(db, user, rows).Ok? <==>
            listing.Ok? && forall rr | rr in listing.value :: OrderRepository.GetByIdSpec(db, rr.orderId).Ok?)
      && (PendingSpec(db, user, rows).Ok? ==>
            (x in PendingSpec(db, user, rows).value <==>
               x in listing.value && x.status == ReturnStatus.Pending && OnOrderOf(db, user, x)))
  {
    var listing := ReturnRequestRepository.GetAllSpec(rows, PendingFilter);
    if listing.Ok? {
      PendingCollectOk(db, user, listing.value);
      if x in listing.value {
        ReturnRequestRepository.GetAllFiltered(rows, PendingFilter, x);
      }
      if Collect(PendingSteps(db, user, listing.value)).Ok? {
        PendingCollectMember(db, user, listing.value, x);
      }
    }
  }

  // ---------------------------------------------------------------------
  // The service

  class ReturnRequestSvc {
    const table: Table
    const orders: OrderRepository.OrderRepo
    const products: ProductRepository.ProductRepo
    const returnRequests: ReturnRequestRepository.ReturnRequestRepo

    /** Every repository works on the one table. */
    predicate Wired() {
      && orders.table == table && products.table == table && returnRequests.table == table
      && orders.Wired() && products.Wired()
    }

    constructor (table: Table, orders: OrderRepository.OrderRepo, products: ProductRepository.ProductRepo,
                 returnRequests: ReturnRequestRepository.ReturnRequestRepo)
      requires orders.table == table && products.table == table && returnRequests.table == table
      requires orders.Wired() && products.Wired()
      ensures Wired()
    {
      this.table := table;
      this.orders := orders;
      this.products := products;
      this.returnRequests := returnRequests;
    }

    /** The checks create_return_request makes before writing. */
    method CheckCreate(user: int, orderId: int) returns (r: Result<(Order, ReturnRequest), Fault>)
      requires Wired()
      ensures r == CreateGuard(table.items, user, orderId)
    {
      var got := orders.GetOrderById(orderId);
      if got.Err? {
        return Err(got.error);
      }
      if got.value.None? {
        return Err(Fail("order not found"));
      }
      var o := got.value.value;
      if o.status != InUse {
        return Err(Fail("order is not in 'in_use' status"));
      }
      var found := products.FindById(o.productId);
      if found.Err? {
        return Err(found.error);
      }
      if found.value.None? {
        return Err(Fail("product not found"));
      }
      if found.value.value.product.lenderId != user {
        return Err(Fail("user is not lender of the order's product"));
      }
      var rr := ReturnRequest(None, orderId, user, ReturnStatus.Pending);
      if !ValidReturnRequest(rr) {
        return Err(Invalid);
      }
      r := Ok((o, rr));
    }

    /** create_return_request; `now` stands for the clock reading the repository takes as id. */
    method CreateReturnRequest(user: int, orderId: int, now: int)
      returns (r: Result<(), Fault>, ghost flagged: bool, ghost stored: bool)
      requires Wired()
      modifies table
      ensures (r, table.items) == CreateSpec(old(table.items), user, orderId, now, flagged, stored)
    {
      var guard := CheckCreate(user, orderId);
      if guard.Err? {
        return Err(guard.error), false, false;
      }
      var flag;
      flag, flagged := orders.UpdateOrderStatus(orderId, ReturnRequested.Value());
      if flag.Err? {
        return flag, flagged, false;
      }
      r, stored := returnRequests.CreateReturnRequest(guard.value.1, now);
    }

    /** update_return_request_status. */
    method UpdateReturnRequestStatus(user: int, requestId: int, st: ReturnStatus)
      returns (r: Result<(), Fault>, ghost accepted: bool)
      requires Wired()
      modifies table
      ensures (r, table.items) == UpdateSpec(old(table.items), user, requestId, st, accepted)
    {
      var checked := CheckUpdate(user, requestId, st);
      if checked.Err? {
        return Err(checked.error), false;
      }
      r, accepted := returnRequests.UpdateReturnRequestStatus(checked.value.id.value, st.Value());
    }

    /** The reads and guards of update_return_request_status. */
    method CheckUpdate(user: int, requestId: int, st: ReturnStatus) returns (r: Result<ReturnRequest, Fault>)
      requires Wired()
      ensures r == UpdateGuard(table.items, user, requestId, st)
    {
      if st != ReturnStatus.Approved && st != ReturnStatus.Rejected {
        return Err(Fail("invalid status update"));
      }
      var got := returnRequests.GetReturnRequestById(requestId);
      if got.Err? {
        return Err(got.error);
      }
      if got.value.None? {
        return Err(Fail("return request not found"));
      }
      var req := got.value.value;
      if req.status != ReturnStatus.Pending {
        return Err(Fail("return request is not in pending status"));
      }
      var order := orders.GetOrderById(req.orderId);
      if order.Err? {
        return Err(order.error);
      }
      if order.value.None? {
        return Err(Fail("order not found"));
      }
      if order.value.value.userId != user {
        return Err(Fail("user does not own this order"));
      }
      r := Ok(req);
    }

    /** get_pending_return_requests: the Pending requests, then a read of each one's order. */
    method GetPendingReturnRequests(user: int) returns (r: Result<seq<ReturnRequest>, Fault>, ghost rows: seq<Row>)
      requires Wired()
      ensures IsQueryResult(table.items, ReturnRequestRepository.Partition, "", rows)
      ensures r == PendingSpec(table.items, user, rows)
    {
      var listed;
      listed, rows := returnRequests.GetAllReturnRequests(PendingFilter);
      if listed.Err? {
        return Err(listed.error), rows;
      }
      var rrs := listed.value;
      ghost var steps := PendingSteps(table.items, user, rrs);
      var mine: seq<ReturnRequest> := [];
      var i := 0;
      while i < |rrs|
        invariant 0 <= i <= |rrs|
        invariant Collect(steps[..i]) == Ok(mine)
      {
        CollectNext(steps, i);
        var got := orders.GetOrderById(rrs[i].orderId);
        if got.Err? {
          CollectErrSticky(steps, i + 1);
          return Err(got.error), rows;
        }
        if got.value.Some? && got.value.value.userId == user {
          mine := mine + [rrs[i]];
        }
        i := i + 1;
      }
      assert steps[..i] == steps;
      r := Ok(mine);
    }
  }
}
