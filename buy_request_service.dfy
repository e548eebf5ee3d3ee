/**
 * The first step of a loan: a user asks to borrow a product, and a lender
 * approves (placing an order priced by the product's category) or rejects
 * the request.
 */
module BuyRequestService {
  import opened Wrappers
  import opened Dynamo
  import opened Listing
  import opened Models
  import ProductRepository
  import OrderRepository
  import BuyRequestRepository

  // ---------------------------------------------------------------------
  // create_buyer_request

  /** The status filter of the duplicate check: Pending only. */
  const PendingFilter: seq<string> := [BuyRequestStatus.Pending.Value()]

  /**
   * The checks before the duplicate listing: the product exists and is
   * available, the caller id is positive and is not the product's lender.
   * Ok carries the requester id.
   */
  function CreateGuard(db: Db, productId: int, ctx: Ctx): Result<int, Fault> {
    match ProductRepository.FindByIdSpec(db, productId)
    case Err(e) => Err(e)
    case Ok(None) => Err(Fail("product not found"))
    case Ok(Some(view)) =>
      if !view.product.isAvailable then Err(Fail("product not available"))
      else if BadId(ctx.userId) then Err(Fail("invalid request id"))
      else if view.product.lenderId == ctx.userId.value then
        Err(Fail("lender cannot create a buying request for their own product"))
      else Ok(ctx.userId.value)
  }

  /** Whether one of the listed requests comes from the requester. */
  predicate HasRequestFrom(requests: seq<BuyRequest>, requester: int) {
    exists i | 0 <= i < |requests| :: requests[i].requestedBy == requester
  }

  /** The request a successful create stores. */
  function NewRequest(productId: int, requester: int): BuyRequest {
    BuyRequest(None, productId, requester, BuyRequestStatus.Pending)
  }

  /**
   * Everything create_buyer_request decides before writing, over the table
   * and the rows the Pending listing returned: the guards, the duplicate
   * check and the validation of the new request, which Ok carries.
   */
  function Admission(db: Db, productId: int, ctx: Ctx, rows: seq<Row>): Result<BuyRequest, Fault> {
    match CreateGuard(db, productId, ctx)
    case Err(e) => Err(e)
    case Ok(requester) =>
      match BuyRequestRepository.GetAllSpec(rows, Some(productId), PendingFilter)
      case Err(e) => Err(e)
      case Ok(existing) =>
        if HasRequestFrom(existing, requester) then Err(Fail("a pending or approved request already exists"))
        else
          var b := NewRequest(productId, requester);
          if !ValidBuyRequest(b) then Err(Invalid) else Ok(b)
  }

  /** create_buyer_request: the admission, then one repository create. */
  function CreateSpec(db: Db, productId: int, ctx: Ctx, rows: seq<Row>, now: int, accepted: bool)
    : (Result<(), Fault>, Db)
  {
    match Admission(db, productId, ctx, rows)
    case Err(e) => (Err(e), db)
    case Ok(b) => BuyRequestRepository.CreateSpec(db, b, now, accepted)
  }

  /**
   * The admission passes exactly when the guards pass, the listing reads
   * cleanly with nothing from the requester and the product id is
   * positive; it then carries a Pending request from the caller.
   */
  lemma AdmissionPasses(db: Db, productId: int, ctx: Ctx, rows: seq<Row>)
    ensures var a := Admission(db, productId, ctx, rows);
      var listing := BuyRequestRepository.GetAllSpec(rows, Some(productId), PendingFilter);
      && (a.Ok? <==>
            && CreateGuard(db, productId, ctx).Ok? && listing.Ok?
            && !HasRequestFrom(listing.value, ctx.userId.value) && productId > 0)
      && (a.Ok? ==> a.value == NewRequest(productId, ctx.userId.value) && ValidBuyRequest(a.value))
  {
    var g := CreateGuard(db, productId, ctx);
    if g.Ok? {
      assert g.value == ctx.userId.value && ctx.userId.value > 0;
    }
  }

  /**
   * create succeeds exactly when the guards pass, the Pending listing reads
   * cleanly and holds nothing from the requester, the product id is
   * positive and the store accepts. It then stores exactly one request
   * {product, requester, Pending} under the clock reading, found again by
   * get_by_id, with its status projection, and changes nothing else; a
   * failure writes nothing.
   */
  lemma CreateEffect(db: Db, productId: int, ctx: Ctx, rows: seq<Row>, now: int, accepted: bool)
    ensures var (r, db') := CreateSpec(db, productId, ctx, rows, now, accepted);
      var listing := BuyRequestRepository.GetAllSpec(rows, Some(productId), PendingFilter);
      && (r.Ok? <==>
            && CreateGuard(db, productId, ctx).Ok? && listing.Ok?
            && !HasRequestFrom(listing.value, ctx.userId.value)
            && productId > 0 && accepted)
      && (r.Err? ==> db' == db)
      && (r.Ok? ==>
            var stored := BuyRequest(Some(now), productId, ctx.userId.value, BuyRequestStatus.Pending);
            && BuyRequestRepository.GetByIdSpec(db', now) == Ok(Some(stored))
            && Lookup(db', BuyRequestRepository.StatusKey(BuyRequestStatus.Pending.Value(), now))
               == Lookup(db', BuyRequestRepository.PrimaryKey(now))
            && forall k | k != BuyRequestRepository.PrimaryKey(now)
                          && k != BuyRequestRepository.StatusKey(BuyRequestStatus.Pending.Value(), now) ::
                 Lookup(db', k) == Lookup(db, k))
  {
    AdmissionPasses(db, productId, ctx, rows);
    var a := Admission(db, productId, ctx, rows);
    if a.Ok? {
      BuyRequestRepository.CreateEffect(db, a.value, now, accepted);
      if accepted {
        BuyRequestRepository.CreateThenGet(db, a.value, now, accepted);
      }
    }
  }

  /** The created_at argument create_buyer_request passes: `datetime.now`, uncalled. */
  const CreateStamp: Stamp := ClockMethod

  /**
   * create_buyer_request building its request with the given created_at
   * argument: past the admission, a stamp that does not validate raises
   * the validation error before the repository is called.
   */
  function CreateBuilt(db: Db, productId: int, ctx: Ctx, rows: seq<Row>, stamp: Stamp, now: int, accepted: bool)
    : (Result<(), Fault>, Db)
  {
    match Admission(db, productId, ctx, rows)
    case Err(e) => (Err(e), db)
    case Ok(_) =>
      if StampValidates(stamp) then CreateSpec(db, productId, ctx, rows, now, accepted) else (Err(Invalid), db)
  }

  /**
   * As written, create_buyer_request never stores a request: past the
   * admission it raises the validation error of the uncalled clock and
   * writes nothing, where a clock reading would have stored the request
   * exactly when the store accepts. With a clock reading the create is
   * CreateSpec.
   */
  lemma CreateAsWrittenStoresNothing(db: Db, productId: int, ctx: Ctx, rows: seq<Row>, now: int, accepted: bool)
    ensures var (r, db') := CreateBuilt(db, productId, ctx, rows, CreateStamp, now, accepted);
      && r.Err? && db' == db
      && (Admission(db, productId, ctx, rows).Ok? ==>
            && r == Err(Invalid)
            && (CreateSpec(db, productId, ctx, rows, now, accepted).0.Ok? <==> accepted))
    ensures CreateBuilt(db, productId, ctx, rows, Reading, now, accepted) == CreateSpec(db, productId, ctx, rows, now, accepted)
  {
    AdmissionPasses(db, productId, ctx, rows);
    CreateEffect(db, productId, ctx, rows, now, accepted);
  }

  /**
   * A Pending request in the table from the same requester on the same
   * product makes create fail and write nothing: the listing either raises
   * or shows that request.
   */
  lemma DuplicateRejected(db: Db, productId: int, ctx: Ctx, rows: seq<Row>, now: int, accepted: bool, k: Key)
    requires CreateGuard(db, productId, ctx).Ok?
    requires IsQueryResult(db, BuyRequestRepository.Partition, BuyRequestRepository.ListPrefix(PendingFilter), rows)
    requires k in db && Matches(k, BuyRequestRepository.Partition, BuyRequestRepository.ListPrefix(PendingFilter))
    requires BuyRequestRepository.Decode(db[k]).Ok?
    requires BuyRequestRepository.Decode(db[k]).value.productId == productId
    requires BuyRequestRepository.Decode(db[k]).value.requestedBy == ctx.userId.value
    requires BuyRequestRepository.Decode(db[k]).value.status == BuyRequestStatus.Pending
    ensures CreateSpec(db, productId, ctx, rows, now, accepted).0.Err?
    ensures CreateSpec(db, productId, ctx, rows, now, accepted).1 == db
  {
    var i :| 0 <= i < |rows| && rows[i].key == k;
    DuplicateNotAdmitted(db, productId, ctx, rows, i, BuyRequestRepository.Decode(db[k]).value);
  }

  /** The duplicate keeps the request from being admitted. */
  lemma DuplicateNotAdmitted(db: Db, productId: int, ctx: Ctx, rows: seq<Row>, i: int, b: BuyRequest)
    requires CreateGuard(db, productId, ctx).Ok?
    requires 0 <= i < |rows| && BuyRequestRepository.Decode(rows[i].item) == Ok(b)
    requires b.productId == productId && b.status == BuyRequestStatus.Pending
    requires b.requestedBy == ctx.userId.value
    ensures Admission(db, productId, ctx, rows).Err?
  {
    ListingShowsRequest(rows, productId, i, b);
  }

  /** A decodable Pending row of the product and the requester is either refused or listed. */
  lemma ListingShowsRequest(rows: seq<Row>, productId: int, i: int, b: BuyRequest)
    requires 0 <= i < |rows| && BuyRequestRepository.Decode(rows[i].item) == Ok(b)
    requires b.productId == productId && b.status == BuyRequestStatus.Pending
    ensures var listing := BuyRequestRepository.GetAllSpec(rows, Some(productId), PendingFilter);
      listing.Ok? ==> HasRequestFrom(listing.value, b.requestedBy)
  {
    var steps := BuyRequestRepository.ListSteps(rows, Some(productId), PendingFilter);
    assert BuyRequestRepository.StatusOf(rows[i].item) == BuyRequestStatus.Pending.Value();
    assert steps[i] == Keep(b);
    var listing := BuyRequestRepository.GetAllSpec(rows, Some(productId), PendingFilter);
    if listing.Ok? {
      CollectOk(steps);
      CollectNoStop(steps);
      KeptMember(steps, b);
      var j :| 0 <= j < |listing.value| && listing.value[j] == b;
    }
  }

  /** Requests of other users never block: the check looks only at the requester's own. */
  lemma OthersDoNotBlock(existing: seq<BuyRequest>, others: seq<BuyRequest>, requester: int)
    requires forall i | 0 <= i < |others| :: others[i].requestedBy != requester
    ensures HasRequestFrom(existing + others, requester) == HasRequestFrom(existing, requester)
  {
    if HasRequestFrom(existing + others, requester) {
      var i :| 0 <= i < |existing + others| && (existing + others)[i].requestedBy == requester;
      if i < |existing| {
        assert existing[i] == (existing + others)[i];
      }
    }
    if HasRequestFrom(existing, requester) {
      var i :| 0 <= i < |existing| && existing[i].requestedBy == requester;
      assert (existing + others)[i] == existing[i];
    }
  }

  // ---------------------------------------------------------------------
  // update_buyer_request_status

  const Decisions: seq<string> := [BuyRequestStatus.Approved.Value(), BuyRequestStatus.Rejected.Value()]

  /** Whether the caller and the target status pass the checks made before any read. */
  predicate Admitted(status: string, ctx: Ctx) {
    IsLender(ctx) && status in Decisions
  }

  /**
   * next() over the listed requests: the first whose id equals the one
   * sought; int() of a request without an id raises.
   */
  function FirstWithId(requests: seq<BuyRequest>, id: int): Result<Option<BuyRequest>, Fault>
    decreases |requests|
  {
    if requests == [] then Ok(None)
    else if requests[0].id.None? then Err(Missing)
    else if requests[0].id.value == id then Ok(Some(requests[0]))
    else FirstWithId(requests[1..], id)
  }

  /**
   * On requests that all carry ids, the search finds the first request with
   * the id sought, and finds nothing exactly when none has it.
   */
  lemma {:induction false} FirstWithIdFinds(requests: seq<BuyRequest>, id: int)
    requires forall i | 0 <= i < |requests| :: requests[i].id.Some?
    ensures FirstWithId(requests, id).Ok?
    ensures FirstWithId(requests, id) == Ok(None) <==> forall i | 0 <= i < |requests| :: requests[i].id != Some(id)
    ensures FirstWithId(requests, id).value.Some? ==>
      exists i | 0 <= i < |requests| ::
        && requests[i] == FirstWithId(requests, id).value.value && requests[i].id == Some(id)
        && forall j | 0 <= j < i :: requests[j].id != Some(id)
    decreases |requests|
  {
    if requests != [] && requests[0].id.value != id {
      var rest := requests[1..];
      FirstWithIdFinds(rest, id);
      assert forall i | 0 <= i < |rest| :: rest[i] == requests[i + 1];
      if FirstWithId(rest, id).value.Some? {
        var i :| 0 <= i < |rest| && rest[i] == FirstWithId(rest, id).value.value && rest[i].id == Some(id)
                 && forall j | 0 <= j < i :: rest[j].id != Some(id);
        assert requests[i + 1] == rest[i];
      }
    }
  }

  /**
   * What an approval places: an order for the request's product and
   * borrower, priced by the category of the product, In Use. The category
   * is read by the id of the category attached to the product; when no
   * category is attached, reading its id raises.
   */
  function ApprovalOrder(db: Db, req: BuyRequest): Result<Order, Fault> {
    match ProductRepository.FindByIdSpec(db, req.productId)
    case Err(e) => Err(e)
    case Ok(None) => Err(Fail("product not found"))
    case Ok(Some(view)) =>
      if view.category.None? || view.category.value.id.None? then Err(Missing)
      else
        match ProductRepository.CategorySpec(db, view.category.value.id.value)
        case Err(e) => Err(e)
        case Ok(None) => Err(Fail("category not found"))
        case Ok(Some(c)) => Ok(Order(None, req.productId, req.requestedBy, c.price, c.security, OrderStatus.InUse))
  }

  /**
   * The checks of update_buyer_request_status before any write: the
   * caller's role, the target status, the listing of every request and the
   * search for the one sought, which Ok carries.
   */
  function UpdateGuard(requestId: int, status: string, ctx: Ctx, rows: seq<Row>): Result<BuyRequest, Fault> {
    if !IsLender(ctx) then Err(Fail("unauthorized: only lenders can update request status"))
    else if status !in Decisions then Err(Fail("invalid status: only 'approved' or 'rejected' allowed"))
    else
      match BuyRequestRepository.GetAllSpec(rows, None, [])
      case Err(e) => Err(e)
      case Ok(all) =>
        match FirstWithId(all, requestId)
        case Err(e) => Err(e)
        case Ok(None) => Err(Fail("buyer request not found"))
        case Ok(Some(req)) => Ok(req)
  }

  /**
   * The approval of a found request: the order is placed (store verdict
   * `placed`) and, only if that succeeds, the request is flipped to
   * Approved (store verdict `flipped`).
   */
  function Approve(db: Db, requestId: int, req: BuyRequest, now: int, placed: bool, flipped: bool)
    : (Result<(), Fault>, Db)
  {
    match ApprovalOrder(db, req)
    case Err(e) => (Err(e), db)
    case Ok(o) =>
      var (created, db1) := OrderRepository.CreateSpec(db, o, now, placed);
      if created.Err? then (created, db1)
      else BuyRequestRepository.UpdateStatusSpec(db1, requestId, BuyRequestStatus.Approved.Value(), flipped)
  }

  /**
   * update_buyer_request_status over the table, the rows of the listing of
   * every request, the clock reading the order takes as id, and the store's
   * verdicts on the order write (placed) and the status write (flipped).
   */
  function UpdateSpec(db: Db, requestId: int, status: string, ctx: Ctx, rows: seq<Row>, now: int,
                      placed: bool, flipped: bool): (Result<(), Fault>, Db)
  {
    match UpdateGuard(requestId, status, ctx, rows)
    case Err(e) => (Err(e), db)
    case Ok(req) =>
      if status == BuyRequestStatus.Rejected.Value() then
        BuyRequestRepository.UpdateStatusSpec(db, requestId, status, flipped)
      else Approve(db, requestId, req, now, placed, flipped)
  }

  /** The request the update acts on, when the listing and the search both succeed. */
  function Target(requestId: int, rows: seq<Row>): Option<BuyRequest> {
    var listing := BuyRequestRepository.GetAllSpec(rows, None, []);
    if listing.Err? then None
    else
      var found := FirstWithId(listing.value, requestId);
      if found.Err? || found.value.None? then None else found.value
  }

  /**
   * A caller without the lender role, or a target other than Approved or
   * Rejected, is refused whatever the table and the listing hold: nothing
   * is read and nothing is written.
   */
  lemma UpdateRefusesEarly(db: Db, requestId: int, status: string, ctx: Ctx, rows: seq<Row>, now: int,
                           placed: bool, flipped: bool)
    requires !Admitted(status, ctx)
    ensures var (r, db') := UpdateSpec(db, requestId, status, ctx, rows, now, placed, flipped);
      && db' == db
      && r == Err(Fail(if !IsLender(ctx) then "unauthorized: only lenders can update request status"
                       else "invalid status: only 'approved' or 'rejected' allowed"))
  {
  }

  /**
   * The caller's id plays no part: any lender may decide any request,
   * whoever owns the product.
   */
  lemma UpdateIgnoresCallerId(db: Db, requestId: int, status: string, ctx: Ctx, other: Option<int>, rows: seq<Row>,
                              now: int, placed: bool, flipped: bool)
    ensures UpdateSpec(db, requestId, status, ctx, rows, now, placed, flipped)
         == UpdateSpec(db, requestId, status, Ctx(other, ctx.role), rows, now, placed, flipped)
  {
  }

  /** An order key never lies in the buy-request partition. */
  lemma OrderKeysOutside(id: int, user: int, lender: int)
    ensures forall k | k in OrderRepository.Keys(id, user, lender) :: k.pk != BuyRequestRepository.Partition
  {
    var ks := OrderRepository.Keys(id, user, lender);
    assert ks[0].pk[0] == 'U' && ks[1].pk[0] == 'L';
    assert BuyRequestRepository.Partition[0] == 'B';
  }

  /**
   * Rejecting changes only items of the buy-request partition: the status
   * write on the request, and no order.
   */
  lemma RejectWritesOnlyRequests(db: Db, requestId: int, ctx: Ctx, rows: seq<Row>, now: int, placed: bool,
                                 flipped: bool)
    requires IsLender(ctx)
    ensures var (r, db') := UpdateSpec(db, requestId, BuyRequestStatus.Rejected.Value(), ctx, rows, now, placed, flipped);
      && (r.Ok? ==>
            && Target(requestId, rows).Some?
            && db' == BuyRequestRepository.UpdateStatusSpec(db, requestId, BuyRequestStatus.Rejected.Value(), flipped).1)
      && forall k: Key | k.pk != BuyRequestRepository.Partition :: Lookup(db', k) == Lookup(db, k)
  {
    GuardFindsTarget(requestId, BuyRequestStatus.Rejected.Value(), ctx, rows);
    BuyRequestRepository.UpdateStatusEffect(db, requestId, BuyRequestStatus.Rejected.Value(), flipped);
  }

  /** Past the role and status checks, the guard yields exactly the target. */
  lemma GuardFindsTarget(requestId: int, status: string, ctx: Ctx, rows: seq<Row>)
    requires Admitted(status, ctx)
    ensures UpdateGuard(requestId, status, ctx, rows).Ok? <==> Target(requestId, rows).Some?
    ensures UpdateGuard(requestId, status, ctx, rows).Ok? ==>
      UpdateGuard(requestId, status, ctx, rows).value == Target(requestId, rows).value
  {
  }

  /** The target found by the update is one of the listed requests. */
  lemma FirstWithIdFindsTarget(requestId: int, rows: seq<Row>)
    requires Target(requestId, rows).Some?
    ensures BuyRequestRepository.GetAllSpec(rows, None, []).Ok?
    ensures Target(requestId, rows).value in BuyRequestRepository.GetAllSpec(rows, None, []).value
    ensures Target(requestId, rows).value.id == Some(requestId)
  {
    var all := BuyRequestRepository.GetAllSpec(rows, None, []).value;
    forall i | 0 <= i < |all| ensures all[i].id.Some? {
      BuyRequestRepository.GetAllSound(rows, None, [], all[i]);
      var j :| 0 <= j < |rows| && BuyRequestRepository.Decode(rows[j].item) == Ok(all[i]);
    }
    FirstWithIdFinds(all, requestId);
  }

  /**
   * A lender's approval of a request the listing found is the approval of
   * that request, which carries its own id and valid ids of product and
   * requester.
   */
  lemma UpdateApproves(db: Db, requestId: int, ctx: Ctx, rows: seq<Row>, now: int, placed: bool, flipped: bool)
    requires IsLender(ctx) && Target(requestId, rows).Some?
    ensures UpdateSpec(db, requestId, BuyRequestStatus.Approved.Value(), ctx, rows, now, placed, flipped)
         == Approve(db, requestId, Target(requestId, rows).value, now, placed, flipped)
    ensures Target(requestId, rows).value.id == Some(requestId)
    ensures ValidBuyRequest(Target(requestId, rows).value)
  {
    GuardFindsTarget(requestId, BuyRequestStatus.Approved.Value(), ctx, rows);
    FirstWithIdFindsTarget(requestId, rows);
    BuyRequestRepository.GetAllSound(rows, None, [], Target(requestId, rows).value);
  }

  /** A status write on a buy request leaves every order item as it was. */
  lemma StatusWriteKeepsOrders(db: Db, requestId: int, status: string, flipped: bool, k: Key)
    requires k.pk != BuyRequestRepository.Partition
    ensures Lookup(BuyRequestRepository.UpdateStatusSpec(db, requestId, status, flipped).1, k) == Lookup(db, k)
  {
    BuyRequestRepository.UpdateStatusEffect(db, requestId, status, flipped);
  }

  /** Once the order is placed, it is found again after the status write, whatever that write's verdict. */
  lemma PlacedOrderStays(db: Db, o: Order, now: int, placed: bool, requestId: int, flipped: bool)
    requires ValidOrder(o) && o.id.None?
    requires OrderRepository.CreateSpec(db, o, now, placed).0.Ok?
    ensures var db1 := OrderRepository.CreateSpec(db, o, now, placed).1;
      var db' := BuyRequestRepository.UpdateStatusSpec(db1, requestId, BuyRequestStatus.Approved.Value(), flipped).1;
      OrderRepository.GetByIdSpec(db', now) == Ok(Some(o.(id := Some(now))))
  {
    OrderRepository.CreateThenGet(db, o, now, placed);
    var db1 := OrderRepository.CreateSpec(db, o, now, placed).1;
    var key := OrderRepository.PrimaryKey(now);
    assert key.pk[0] == 'O' && BuyRequestRepository.Partition[0] == 'B';
    StatusWriteKeepsOrders(db1, requestId, BuyRequestStatus.Approved.Value(), flipped, key);
  }

  /**
   * Approval places the order first and flips the request afterwards, in two
   * separate writes. If the order is refused, nothing changes and the
   * request keeps its status.
   */
  lemma RefusedOrderChangesNothing(db: Db, requestId: int, req: BuyRequest, now: int, placed: bool, flipped: bool)
    requires ApprovalOrder(db, req).Ok?
    ensures var (created, db1) := OrderRepository.CreateSpec(db, ApprovalOrder(db, req).value, now, placed);
      created.Err? ==> Approve(db, requestId, req, now, placed, flipped) == (created, db)
  {
    OrderRepository.CreateEffect(db, ApprovalOrder(db, req).value, now, placed);
  }

  /** Once the order is placed it stays, whether or not the flip succeeds. */
  lemma PlacedOrderKept(db: Db, requestId: int, req: BuyRequest, now: int, placed: bool, flipped: bool)
    requires ValidBuyRequest(req) && ApprovalOrder(db, req).Ok?
    ensures var o := ApprovalOrder(db, req).value;
      OrderRepository.CreateSpec(db, o, now, placed).0.Ok? ==>
        OrderRepository.GetByIdSpec(Approve(db, requestId, req, now, placed, flipped).1, now) == Ok(Some(o.(id := Some(now))))
  {
    var o := ApprovalOrder(db, req).value;
    if OrderRepository.CreateSpec(db, o, now, placed).0.Ok? {
      PlacedOrderStays(db, o, now, placed, requestId, flipped);
    }
  }

  /** Success leaves both the order and the Approved status. */
  lemma ApprovedAfterSuccess(db: Db, requestId: int, req: BuyRequest, now: int, placed: bool, flipped: bool)
    requires ApprovalOrder(db, req).Ok?
    ensures var (r, db') := Approve(db, requestId, req, now, placed, flipped);
      r.Ok? ==>
        && OrderRepository.CreateSpec(db, ApprovalOrder(db, req).value, now, placed).0.Ok?
        && Lookup(db', BuyRequestRepository.PrimaryKey(requestId)).Some?
        && BuyRequestRepository.StatusOf(db'[BuyRequestRepository.PrimaryKey(requestId)]) == BuyRequestStatus.Approved.Value()
  {
    var got := OrderRepository.CreateSpec(db, ApprovalOrder(db, req).value, now, placed);
    if got.0.Ok? {
      BuyRequestRepository.UpdateStatusEffect(got.1, requestId, BuyRequestStatus.Approved.Value(), flipped);
    }
  }

  /**
   * Nothing checks that the request is still Pending: approving a request
   * whose stored status is already Approved places a second order, and then
   * the status write fails (its delete and put name the same projection), so
   * the call reports an error while the new order stays.
   */
  lemma ReapprovalPlacesSecondOrder(db: Db, requestId: int, req: BuyRequest, now: int, flipped: bool)
    requires ValidBuyRequest(req) && ApprovalOrder(db, req).Ok?
    requires BuyRequestRepository.PrimaryKey(requestId) in db
    requires BuyRequestRepository.StatusOf(db[BuyRequestRepository.PrimaryKey(requestId)]) == BuyRequestStatus.Approved.Value()
    requires OrderRepository.CreateSpec(db, ApprovalOrder(db, req).value, now, true).0.Ok?
    ensures var o := ApprovalOrder(db, req).value;
      var (r, db') := Approve(db, requestId, req, now, true, flipped);
      r.Err? && OrderRepository.GetByIdSpec(db', now) == Ok(Some(o.(id := Some(now))))
  {
    var o := ApprovalOrder(db, req).value;
    PlacedOrderKept(db, requestId, req, now, true, flipped);
    OrderWriteKeepsRequests(db, o, now, true, BuyRequestRepository.PrimaryKey(requestId));
    var db1 := OrderRepository.CreateSpec(db, o, now, true).1;
    BuyRequestRepository.UpdateStatusEffect(db1, requestId, BuyRequestStatus.Approved.Value(), flipped);
  }

  /** Placing an order leaves every buy-request item as it was. */
  lemma OrderWriteKeepsRequests(db: Db, o: Order, now: int, placed: bool, k: Key)
    requires k.pk == BuyRequestRepository.Partition
    ensures Lookup(OrderRepository.CreateSpec(db, o, now, placed).1, k) == Lookup(db, k)
  {
    OrderRepository.CreateEffect(db, o, now, placed);
    var found := ProductRepository.FindByIdSpec(db, o.productId);
    if found.Ok? && found.value.Some? {
      OrderKeysOutside(OrderRepository.NewId(o, now), o.userId, found.value.value.product.lenderId);
    }
  }

  /** The created_at argument of the order an approval builds: `datetime.now`, uncalled. */
  const OrderStamp: Stamp := ClockMethod

  /** The approval building its order with the given created_at argument. */
  function ApproveBuilt(db: Db, requestId: int, req: BuyRequest, stamp: Stamp, now: int, placed: bool, flipped: bool)
    : (Result<(), Fault>, Db)
  {
    match ApprovalOrder(db, req)
    case Err(e) => (Err(e), db)
    case Ok(_) => if StampValidates(stamp) then Approve(db, requestId, req, now, placed, flipped) else (Err(Invalid), db)
  }

  /** update_buyer_request_status with the order built with the given created_at argument. */
  function UpdateBuilt(db: Db, requestId: int, status: string, ctx: Ctx, rows: seq<Row>, stamp: Stamp, now: int,
                       placed: bool, flipped: bool): (Result<(), Fault>, Db)
  {
    match UpdateGuard(requestId, status, ctx, rows)
    case Err(e) => (Err(e), db)
    case Ok(req) =>
      if status == BuyRequestStatus.Rejected.Value() then
        BuyRequestRepository.UpdateStatusSpec(db, requestId, status, flipped)
      else ApproveBuilt(db, requestId, req, stamp, now, placed, flipped)
  }

  /**
   * As written, no approval succeeds or writes anything: the order raises
   * its validation error before create_order, so no order is placed and no
   * request becomes Approved, and only a rejection writes. With a clock
   * reading the update is UpdateSpec.
   */
  lemma ApprovalAsWrittenWritesNothing(db: Db, requestId: int, status: string, ctx: Ctx, rows: seq<Row>, now: int,
                                       placed: bool, flipped: bool)
    ensures var (r, db') := UpdateBuilt(db, requestId, status, ctx, rows, OrderStamp, now, placed, flipped);
      && (status != BuyRequestStatus.Rejected.Value() ==> r.Err? && db' == db)
      && (status == BuyRequestStatus.Rejected.Value() ==>
            (r, db') == UpdateSpec(db, requestId, status, ctx, rows, now, placed, flipped))
    ensures UpdateBuilt(db, requestId, status, ctx, rows, Reading, now, placed, flipped)
         == UpdateSpec(db, requestId, status, ctx, rows, now, placed, flipped)
  {
    var g := UpdateGuard(requestId, status, ctx, rows);
    if g.Ok? && status != BuyRequestStatus.Rejected.Value() {
      ApproveBuiltStamps(db, requestId, g.value, now, placed, flipped);
    }
  }

  /** A method object as created_at fails the approval without a write; a clock reading is the approval. */
  lemma ApproveBuiltStamps(db: Db, requestId: int, req: BuyRequest, now: int, placed: bool, flipped: bool)
    ensures ApproveBuilt(db, requestId, req, OrderStamp, now, placed, flipped).0.Err?
    ensures ApproveBuilt(db, requestId, req, OrderStamp, now, placed, flipped).1 == db
    ensures ApproveBuilt(db, requestId, req, Reading, now, placed, flipped) == Approve(db, requestId, req, now, placed, flipped)
  {
  }

  /**
   * A lender's approval of a found request whose product and category are
   * found: as written it raises the validation error and places nothing,
   * while with a clock reading the order the store places is found again.
   */
  lemma ApprovalAsWrittenPlacesNoOrder(db: Db, requestId: int, ctx: Ctx, rows: seq<Row>, now: int,
                                       placed: bool, flipped: bool)
    requires IsLender(ctx) && Target(requestId, rows).Some?
    requires ApprovalOrder(db, Target(requestId, rows).value).Ok?
    ensures var approved := BuyRequestStatus.Approved.Value();
      UpdateBuilt(db, requestId, approved, ctx, rows, OrderStamp, now, placed, flipped) == (Err(Invalid), db)
    ensures var o := ApprovalOrder(db, Target(requestId, rows).value).value;
      var approved := BuyRequestStatus.Approved.Value();
      OrderRepository.CreateSpec(db, o, now, placed).0.Ok? ==>
        OrderRepository.GetByIdSpec(UpdateSpec(db, requestId, approved, ctx, rows, now, placed, flipped).1, now)
          == Ok(Some(o.(id := Some(now))))
  {
    var req := Target(requestId, rows).value;
    GuardFindsTarget(requestId, BuyRequestStatus.Approved.Value(), ctx, rows);
    UpdateApproves(db, requestId, ctx, rows, now, placed, flipped);
    PlacedOrderKept(db, requestId, req, now, placed, flipped);
  }

  // ---------------------------------------------------------------------
  // The service

  /** next() over the listed requests, one request at a time. */
  method FindRequest(requests: seq<BuyRequest>, id: int) returns (r: Result<Option<BuyRequest>, Fault>)
    ensures r == FirstWithId(requests, id)
  {
    var i := 0;
    while i < |requests|
      invariant 0 <= i <= |requests|
      invariant FirstWithId(requests[i..], id) == FirstWithId(requests, id)
    {
      assert requests[i..][1..] == requests[i + 1..];
      if requests[i].id.None? {
        return Err(Missing);
      }
      if requests[i].id.value == id {
        return Ok(Some(requests[i]));
      }
      i := i + 1;
    }
    r := Ok(None);
  }

  /** The duplicate check: a scan of the listed requests for one from the requester. */
  method AnyFrom(requests: seq<BuyRequest>, requester: int) returns (found: bool)
    ensures found == HasRequestFrom(requests, requester)
  {
    var i := 0;
    while i < |requests|
      invariant 0 <= i <= |requests|
      invariant forall j | 0 <= j < i :: requests[j].requestedBy != requester
    {
      if requests[i].requestedBy == requester {
        return true;
      }
      i := i + 1;
    }
    found := false;
  }

  class BuyRequestSvc {
    const table: Table
    const products: ProductRepository.ProductRepo
    const requests: BuyRequestRepository.BuyRequestRepo
    const orders: OrderRepository.OrderRepo

    /** Every repository works on the one table; categories are read through the product repository. */
    predicate Wired() {
      && products.table == table && requests.table == table && orders.table == table
      && products.Wired() && orders.Wired()
    }

    constructor (table: Table, products: ProductRepository.ProductRepo, requests: BuyRequestRepository.BuyRequestRepo,
                 orders: OrderRepository.OrderRepo)
      requires products.table == table && requests.table == table && orders.table == table
      requires products.Wired() && orders.Wired()
      ensures Wired()
    {
      this.table := table;
      this.products := products;
      this.requests := requests;
      this.orders := orders;
    }

    /** The checks create_buyer_request makes before listing: product, availability, caller. */
    method CheckCreate(productId: int, ctx: Ctx) returns (r: Result<int, Fault>)
      requires Wired()
      ensures r == CreateGuard(table.items, productId, ctx)
    {
      var found := products.FindById(productId);
      if found.Err? {
        return Err(found.error);
      }
      if found.value.None? {
        return Err(Fail("product not found"));
      }
      var product := found.value.value.product;
      if !product.isAvailable {
        return Err(Fail("product not available"));
      }
      if ctx.userId.None? || ctx.userId.value <= 0 {
        return Err(Fail("invalid request id"));
      }
      if product.lenderId == ctx.userId.value {
        return Err(Fail("lender cannot create a buying request for their own product"));
      }
      r := Ok(ctx.userId.value);
    }

    /** create_buyer_request; `now` stands for the clock reading the repository takes as id. */
    method CreateBuyerRequest(productId: int, ctx: Ctx, now: int)
      returns (r: Result<(), Fault>, ghost rows: seq<Row>, ghost accepted: bool)
      requires Wired()
      modifies table
      ensures CreateGuard(old(table.items), productId, ctx).Ok? ==>
        IsQueryResult(old(table.items), BuyRequestRepository.Partition, BuyRequestRepository.ListPrefix(PendingFilter), rows)
      ensures (r, table.items) == CreateSpec(old(table.items), productId, ctx, rows, now, accepted)
    {
      var guard := CheckCreate(productId, ctx);
      if guard.Err? {
        return Err(guard.error), [], false;
      }
      var requester := guard.value;
      var existing;
      existing, rows := requests.GetAll(Some(productId), [BuyRequestStatus.Pending.Value()]);
      if existing.Err? {
        return Err(existing.error), rows, false;
      }
      var duplicate := AnyFrom(existing.value, requester);
      if duplicate {
        return Err(Fail("a pending or approved request already exists")), rows, false;
      }
      var b := BuyRequest(None, productId, requester, BuyRequestStatus.Pending);
      if !ValidBuyRequest(b) {
        return Err(Invalid), rows, false;
      }
      r, accepted := requests.Create(b, now);
    }

    /**
     * update_buyer_request_status; `now` stands for the clock reading the
     * order repository takes as id.
     */
    method UpdateBuyerRequestStatus(requestId: int, status: string, ctx: Ctx, now: int)
      returns (r: Result<(), Fault>, ghost rows: seq<Row>, ghost placed: bool, ghost flipped: bool)
      requires Wired()
      modifies table
      ensures Admitted(status, ctx) ==>
        IsQueryResult(old(table.items), BuyRequestRepository.Partition, BuyRequestRepository.ListPrefix([]), rows)
      ensures (r, table.items) == UpdateSpec(old(table.items), requestId, status, ctx, rows, now, placed, flipped)
    {
      var checked;
      checked, rows := CheckUpdate(requestId, status, ctx);
      if checked.Err? {
        return Err(checked.error), rows, false, false;
      }
      if status == BuyRequestStatus.Rejected.Value() {
        r, flipped := requests.UpdateStatus(requestId, BuyRequestStatus.Rejected.Value());
        return r, rows, false, flipped;
      }
      r, placed, flipped := ApproveRequest(requestId, checked.value, now);
    }

    /** The checks of update_buyer_request_status: role, status, listing and search. */
    method CheckUpdate(requestId: int, status: string, ctx: Ctx)
      returns (r: Result<BuyRequest, Fault>, ghost rows: seq<Row>)
      requires Wired()
      ensures Admitted(status, ctx) ==>
        IsQueryResult(table.items, BuyRequestRepository.Partition, BuyRequestRepository.ListPrefix([]), rows)
      ensures r == UpdateGuard(requestId, status, ctx, rows)
    {
      if ctx.role != Some(LenderRole.Value()) {
        return Err(Fail("unauthorized: only lenders can update request status")), [];
      }
      if status != BuyRequestStatus.Approved.Value() && status != BuyRequestStatus.Rejected.Value() {
        return Err(Fail("invalid status: only 'approved' or 'rejected' allowed")), [];
      }
      var all;
      all, rows := requests.GetAll(None, []);
      if all.Err? {
        return Err(all.error), rows;
      }
      var search := FindRequest(all.value, requestId);
      if search.Err? {
        return Err(search.error), rows;
      }
      if search.value.None? {
        return Err(Fail("buyer request not found")), rows;
      }
      r := Ok(search.value.value);
    }

    /** The approval branch: price the order by the product's category, place it, then flip the request. */
    method ApproveRequest(requestId: int, req: BuyRequest, now: int)
      returns (r: Result<(), Fault>, ghost placed: bool, ghost flipped: bool)
      requires Wired()
      modifies table
      ensures (r, table.items) == Approve(old(table.items), requestId, req, now, placed, flipped)
    {
      var found := products.FindById(req.productId);
      if found.Err? {
        return Err(found.error), false, false;
      }
      if found.value.None? {
        return Err(Fail("product not found")), false, false;
      }
      var view := found.value.value;
      if view.category.None? || view.category.value.id.None? {
        return Err(Missing), false, false;
      }
      var category := products.FindCategory(view.category.value.id.value);
      if category.Err? {
        return Err(category.error), false, false;
      }
      if category.value.None? {
        return Err(Fail("category not found")), false, false;
      }
      var c := category.value.value;
      var order := Order(None, req.productId, req.requestedBy, c.price, c.security, OrderStatus.InUse);
      var created;
      created, placed := orders.CreateOrder(order, now);
      if created.Err? {
        return created, placed, false;
      }
      r, flipped := requests.UpdateStatus(requestId, BuyRequestStatus.Approved.Value());
    }

    /** get_all_buyer_requests: the repository listing, passed through. */
    method GetAllBuyerRequests(productId: Option<int>, filter: seq<string>)
      returns (r: Result<seq<BuyRequest>, Fault>, ghost rows: seq<Row>)
      requires Wired()
      ensures IsQueryResult(table.items, BuyRequestRepository.Partition, BuyRequestRepository.ListPrefix(filter), rows)
      ensures r == BuyRequestRepository.GetAllSpec(rows, productId, filter)
    {
      r, rows := requests.GetAll(productId, filter);
    }
  }
}
