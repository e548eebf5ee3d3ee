/**
 * Feedback on a loan: a user writes it about an order, addressed to the
 * lender of the order's product, and can list what they gave or received.
 */
module FeedbackService {
  import opened Wrappers
  import opened Dynamo
  import opened Models
  import ProductRepository
  import OrderRepository
  import FeedbackRepository

  // ---------------------------------------------------------------------
  // give_feedback

  /**
   * The guard chain of give_feedback, then one put. The caller id is
   * checked before any read; the recipient is the product's lender.
   */
  function GiveGuard(db: Db, orderId: int, text: string, rating: int, ctx: Ctx): Result<Feedback, Fault> {
    if BadId(ctx.userId) then Err(Fail("invalid user"))
    else
      match OrderRepository.GetByIdSpec(db, orderId)
      case Err(e) => Err(e)
      case Ok(None) => Err(Fail("order not found"))
      case Ok(Some(o)) =>
        match ProductRepository.FindByIdSpec(db, o.productId)
        case Err(e) => Err(e)
        case Ok(None) => Err(Fail("product not found"))
        case Ok(Some(view)) =>
          var user := ctx.userId.value;
          var lender := view.product.lenderId;
          if user == lender then Err(Fail("you cannot give feedback to yourself"))
          else
            var f := Feedback(None, user, lender, text, rating);
            if !ValidFeedback(f) then Err(Invalid) else Ok(f)
  }

  function GiveSpec(db: Db, orderId: int, text: string, rating: int, ctx: Ctx, now: int, accepted: bool)
    : (Result<(), Fault>, Db)
  {
    match GiveGuard(db, orderId, text, rating, ctx)
    case Err(e) => (Err(e), db)
    case Ok(f) => FeedbackRepository.CreateSpec(db, f, now, accepted)
  }

  /**
   * The guards pass exactly when the caller id is positive, the order and
   * its product are found, the caller is not the product's lender and the
   * feedback is valid; they yield the feedback addressed to that lender.
   */
  lemma GiveGuardPasses(db: Db, orderId: int, text: string, rating: int, ctx: Ctx)
    ensures var g := GiveGuard(db, orderId, text, rating, ctx);
      && (g.Ok? <==>
            && !BadId(ctx.userId) && Recipient(db, orderId).Some?
            && ctx.userId.value != Recipient(db, orderId).value
            && ValidFeedback(Feedback(None, ctx.userId.value, Recipient(db, orderId).value, text, rating)))
      && (g.Ok? ==> g.value == Feedback(None, ctx.userId.value, Recipient(db, orderId).value, text, rating))
  {
  }

  /** The lender of the order's product, when both are found. */
  function Recipient(db: Db, orderId: int): Option<int> {
    var got := OrderRepository.GetByIdSpec(db, orderId);
    if got.Err? || got.value.None? then None
    else
      var found := ProductRepository.FindByIdSpec(db, got.value.value.productId);
      if found.Err? || found.value.None? then None else Some(found.value.value.product.lenderId)
  }

  /** A missing or non-positive caller id is refused whatever the store holds, and nothing is written. */
  lemma GiveRejectsBadUser(db: Db, orderId: int, text: string, rating: int, ctx: Ctx, now: int, accepted: bool)
    requires BadId(ctx.userId)
    ensures GiveSpec(db, orderId, text, rating, ctx, now, accepted) == (Err(Fail("invalid user")), db)
  {
  }

  /**
   * give_feedback succeeds exactly when the caller is valid, the order and
   * its product are found, the caller is not the lender, the feedback is
   * valid and the store accepts. It then stores one feedback from the
   * caller to the lender under the clock reading, and nothing else changes;
   * a failure writes nothing.
   */
  lemma GiveEffect(db: Db, orderId: int, text: string, rating: int, ctx: Ctx, now: int, accepted: bool)
    ensures var (r, db') := GiveSpec(db, orderId, text, rating, ctx, now, accepted);
      && (r.Ok? <==>
            && !BadId(ctx.userId) && Recipient(db, orderId).Some?
            && ctx.userId.value != Recipient(db, orderId).value
            && ValidFeedback(Feedback(None, ctx.userId.value, Recipient(db, orderId).value, text, rating))
            && accepted)
      && (r.Err? ==> db' == db)
      && (r.Ok? ==>
            var f := Feedback(Some(now), ctx.userId.value, Recipient(db, orderId).value, text, rating);
            && Lookup(db', FeedbackRepository.ItemKey(now)) == Some(FeedbackRepository.Attributes(now, f))
            && FeedbackRepository.Decode(db'[FeedbackRepository.ItemKey(now)]) == Ok(f)
            && (forall k | k != FeedbackRepository.ItemKey(now) :: Lookup(db', k) == Lookup(db, k)))
  {
    GiveGuardPasses(db, orderId, text, rating, ctx);
    var g := GiveGuard(db, orderId, text, rating, ctx);
    if g.Ok? {
      var f := g.value;
      FeedbackRepository.CreateEffect(db, f, now, accepted);
      FeedbackRepository.DecodeAttributes(now, f);
      assert FeedbackRepository.Attributes(now, f) == FeedbackRepository.Attributes(now, f.(id := Some(now)));
    }
  }

  // ---------------------------------------------------------------------
  // get_all_given_feedbacks and get_all_received_feedbacks

  /** Which party of a feedback a listing matches the caller against. */
  datatype Side = Giver | Receiver

  function Party(f: Feedback, side: Side): int {
    match side
    case Giver => f.givenBy
    case Receiver => f.givenTo
  }

  /** The feedbacks whose `side` party is the user, in listing order. */
  function Involving(fs: seq<Feedback>, user: int, side: Side): (r: seq<Feedback>)
    ensures forall f :: f in r <==> f in fs && Party(f, side) == user
    ensures |r| <= |fs|
    decreases |fs|
  {
    if fs == [] then []
    else (if Party(fs[0], side) == user then [fs[0]] else []) + Involving(fs[1..], user, side)
  }

  /** The selection distributes over concatenation: it keeps the listing's order. */
  lemma {:induction false} InvolvingConcat(a: seq<Feedback>, b: seq<Feedback>, user: int, side: Side)
    ensures Involving(a + b, user, side) == Involving(a, user, side) + Involving(b, user, side)
    decreases |a|
  {
    if a != [] {
      assert (a + b)[0] == a[0];
      assert (a + b)[1..] == a[1..] + b;
      InvolvingConcat(a[1..], b, user, side);
    } else {
      assert a + b == b;
    }
  }

  function ListSpec(ctx: Ctx, rows: seq<Row>, side: Side): Result<seq<Feedback>, Fault> {
    if BadId(ctx.userId) then Err(Fail("invalid user"))
    else
      match FeedbackRepository.GetAllSpec(rows)
      case Err(e) => Err(e)
      case Ok(fs) => Ok(Involving(fs, ctx.userId.value, side))
  }

  /**
   * A listing fails for a bad caller id or an undecodable row; otherwise it
   * holds exactly the stored feedbacks whose party on that side is the caller.
   */
  lemma ListMembers(ctx: Ctx, rows: seq<Row>, side: Side, f: Feedback)
    ensures ListSpec(ctx, rows, side).Ok? <==>
      !BadId(ctx.userId) && forall i | 0 <= i < |rows| :: FeedbackRepository.Decode(rows[i].item).Ok?
    ensures ListSpec(ctx, rows, side).Ok? ==>
      (f in ListSpec(ctx, rows, side).value <==>
         Party(f, side) == ctx.userId.value &&
         exists i | 0 <= i < |rows| :: FeedbackRepository.Decode(rows[i].item) == Ok(f))
  {
    FeedbackRepository.GetAllMembers(rows, f);
  }

  /**
   * After a successful give_feedback, a listing of the new table that does
   * not raise shows the feedback among what the caller gave and among what
   * the lender received; the two parties differ.
   */
  lemma GiveThenListed(db: Db, orderId: int, text: string, rating: int, ctx: Ctx, now: int, accepted: bool,
                       rows: seq<Row>)
    requires GiveSpec(db, orderId, text, rating, ctx, now, accepted).0.Ok?
    requires IsQueryResult(GiveSpec(db, orderId, text, rating, ctx, now, accepted).1, FeedbackRepository.Partition, "", rows)
    requires FeedbackRepository.GetAllSpec(rows).Ok?
    ensures var lender := Recipient(db, orderId).value;
      var f := Feedback(Some(now), ctx.userId.value, lender, text, rating);
      && lender != ctx.userId.value
      && f in ListSpec(ctx, rows, Giver).value
      && f in ListSpec(Ctx(Some(lender), ctx.role), rows, Receiver).value
  {
    GiveEffect(db, orderId, text, rating, ctx, now, accepted);
    var lender := Recipient(db, orderId).value;
    var f := Feedback(Some(now), ctx.userId.value, lender, text, rating);
    var db' := GiveSpec(db, orderId, text, rating, ctx, now, accepted).1;
    assert Matches(FeedbackRepository.ItemKey(now), FeedbackRepository.Partition, "");
    var i :| 0 <= i < |rows| && rows[i].key == FeedbackRepository.ItemKey(now);
    assert FeedbackRepository.Decode(rows[i].item) == Ok(f);
    ListMembers(ctx, rows, Giver, f);
    ListMembers(Ctx(Some(lender), ctx.role), rows, Receiver, f);
  }

  // ---------------------------------------------------------------------
  // The service

  class FeedbackSvc {
    const table: Table
    const feedbacks: FeedbackRepository.FeedbackRepo
    const products: ProductRepository.ProductRepo
    const orders: OrderRepository.OrderRepo

    /** All three repositories work on the one table. */
    predicate Wired() {
      && feedbacks.table == table && products.table == table && orders.table == table
      && products.Wired() && orders.Wired()
    }

    constructor (table: Table, feedbacks: FeedbackRepository.FeedbackRepo, products: ProductRepository.ProductRepo,
                 orders: OrderRepository.OrderRepo)
      requires feedbacks.table == table && products.table == table && orders.table == table
      requires products.Wired() && orders.Wired()
      ensures Wired()
    {
      this.table := table;
      this.feedbacks := feedbacks;
      this.products := products;
      this.orders := orders;
    }

    /** give_feedback; `now` stands for the clock reading the repository takes as id. */
    method GiveFeedback(orderId: int, text: string, rating: int, ctx: Ctx, now: int)
      returns (r: Result<(), Fault>, ghost accepted: bool)
      requires Wired()
      modifies table
      ensures (r, table.items) == GiveSpec(old(table.items), orderId, text, rating, ctx, now, accepted)
    {
      if ctx.userId.None? || ctx.userId.value <= 0 {
        return Err(Fail("invalid user")), false;
      }
      var user := ctx.userId.value;
      var got := orders.GetOrderById(orderId);
      if got.Err? {
        return Err(got.error), false;
      }
      if got.value.None? {
        return Err(Fail("order not found")), false;
      }
      var found := products.FindById(got.value.value.productId);
      if found.Err? {
        return Err(found.error), false;
      }
      if found.value.None? {
        return Err(Fail("product not found")), false;
      }
      var givenTo := found.value.value.product.lenderId;
      if user == givenTo {
        return Err(Fail("you cannot give feedback to yourself")), false;
      }
      var f := Feedback(None, user, givenTo, text, rating);
      if !ValidFeedback(f) {
        return Err(Invalid), false;
      }
      r, accepted := feedbacks.CreateFeedback(f, now);
    }

    /** get_all_given_feedbacks. */
    method GetAllGivenFeedbacks(ctx: Ctx) returns (r: Result<seq<Feedback>, Fault>, ghost rows: seq<Row>)
      requires Wired()
      ensures !BadId(ctx.userId) ==> IsQueryResult(table.items, FeedbackRepository.Partition, "", rows)
      ensures r == ListSpec(ctx, rows, Giver)
    {
      r, rows := List(ctx, Giver);
    }

    /** get_all_received_feedbacks. */
    method GetAllReceivedFeedbacks(ctx: Ctx) returns (r: Result<seq<Feedback>, Fault>, ghost rows: seq<Row>)
      requires Wired()
      ensures !BadId(ctx.userId) ==> IsQueryResult(table.items, FeedbackRepository.Partition, "", rows)
      ensures r == ListSpec(ctx, rows, Receiver)
    {
      r, rows := List(ctx, Receiver);
    }

    /** The body both listings share: check the caller, list everything, keep the caller's side. */
    method List(ctx: Ctx, side: Side) returns (r: Result<seq<Feedback>, Fault>, ghost rows: seq<Row>)
      requires Wired()
      ensures !BadId(ctx.userId) ==> IsQueryResult(table.items, FeedbackRepository.Partition, "", rows)
      ensures r == ListSpec(ctx, rows, side)
    {
      if ctx.userId.None? || ctx.userId.value <= 0 {
        return Err(Fail("invalid user")), [];
      }
      var all;
      all, rows := feedbacks.GetAllFeedbacks();
      if all.Err? {
        return Err(all.error), rows;
      }
      r := Ok(Involving(all.value, ctx.userId.value, side));
    }
  }
}
