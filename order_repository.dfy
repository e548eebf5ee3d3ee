/**
 * Orders in the shared table. An order is written three times: under its
 * borrower (USER#user, ORDER#ID#id), under the product's lender
 * (LENDER#lender, ORDER#ID#id) and under (ORDER, ID#id). The lender is not
 * part of the order: it is read from the product at every write.
 */
module OrderRepository {
  import opened Wrappers
  import opened Dynamo
  import opened Listing
  import opened Models
  import ProductRepository

  function UserKey(user: int, id: int): Key {
    Key("USER#" + Str(user), "ORDER#ID#" + Str(id))
  }

  function LenderKey(lender: int, id: int): Key {
    Key("LENDER#" + Str(lender), "ORDER#ID#" + Str(id))
  }

  function PrimaryKey(id: int): Key {
    Key("ORDER", "ID#" + Str(id))
  }

  /** The three keys of order id, in the order create writes them. */
  function Keys(id: int, user: int, lender: int): seq<Key> {
    [UserKey(user, id), LenderKey(lender, id), PrimaryKey(id)]
  }

  /** The attributes every copy of an order is written with (dates aside). */
  function Attributes(id: int, o: Order): Item {
    map["ID" := N(id), "ProductID" := N(o.productId), "UserID" := N(o.userId),
        "TotalAmount" := N(o.totalAmount), "SecurityAmount" := N(o.securityAmount),
        "Status" := S(o.status.Value())]
  }

  /** An amount attribute: a stored number. */
  function AmountOf(v: Option<Value>): Option<int> {
    if v.Some? && v.value.N? then Some(v.value.n) else None
  }

  /** Reading an order back from any of its copies; the status is parsed from str() of the attribute. */
  function Decode(item: Item): (r: Result<Order, Fault>)
    ensures r.Err? ==> r.error == Malformed
  {
    var id := IntOf(Get(item, "ID"));
    var product := IntOf(Get(item, "ProductID"));
    var user := IntOf(Get(item, "UserID"));
    var total := AmountOf(Get(item, "TotalAmount"));
    var security := AmountOf(Get(item, "SecurityAmount"));
    var status := ParseOrderStatus(StrOf(Get(item, "Status")));
    if id.None? || product.None? || user.None? || total.None? || security.None? || status.None? then Err(Malformed)
    else
      var o := Order(Some(id.value), product.value, user.value, total.value, security.value, status.value);
      if ValidOrder(o) then Ok(o) else Err(Malformed)
  }

  /** An order written by create reads back as itself, under the id it was written with. */
  lemma DecodeAttributes(id: int, o: Order)
    requires ValidOrder(o)
    ensures Decode(Attributes(id, o)) == Ok(o.(id := Some(id)))
  {
  }

  /** The three copies of one order are three different keys. */
  lemma KeysDistinct(id: int, user: int, lender: int)
    ensures UserKey(user, id).pk != LenderKey(lender, id).pk
    ensures UserKey(user, id).pk != PrimaryKey(id).pk
    ensures LenderKey(lender, id).pk != PrimaryKey(id).pk
  {
    SkHeadsDiffer("USER#", Str(user), "LENDER#", Str(lender));
    assert UserKey(user, id).pk[0] != PrimaryKey(id).pk[0];
    assert LenderKey(lender, id).pk[0] != PrimaryKey(id).pk[0];
  }

  lemma PrimaryKeyInjective(a: int, b: int)
    requires PrimaryKey(a) == PrimaryKey(b)
    ensures a == b
  {
    DropCommonPrefix("ID#", Str(a), Str(b));
    StrInjective(a, b);
  }

  /** The three copies of order id exist and hold the same item. */
  ghost predicate Agree(db: Db, id: int, user: int, lender: int) {
    var ks := Keys(id, user, lender);
    && ks[0] in db && ks[1] in db && ks[2] in db
    && db[ks[0]] == db[ks[2]] && db[ks[1]] == db[ks[2]]
  }

  // ---------------------------------------------------------------------
  // get_order_by_id

  /** None when the item is absent; an item that does not decode raises. */
  function GetByIdSpec(db: Db, id: int): Result<Option<Order>, Fault> {
    match Lookup(db, PrimaryKey(id))
    case None => Ok(None)
    case Some(item) =>
      match Decode(item)
      case Err(e) => Err(e)
      case Ok(o) => Ok(Some(o))
  }

  // ---------------------------------------------------------------------
  // create_order

  /** `order.id if order.id else time.time_ns()`: an id of 0 is replaced too. */
  function NewId(o: Order, now: int): int {
    if Truthy(o.id) then o.id.value else now
  }

  function CreateOps(id: int, o: Order, lender: int): seq<Op> {
    var a := Attributes(id, o);
    [Put(UserKey(o.userId, id), a, Unconditional), Put(LenderKey(lender, id), a, Unconditional),
     Put(PrimaryKey(id), a, Unconditional)]
  }

  /** The product is read first for its lender; a missing product aborts the create. */
  function CreateSpec(db: Db, o: Order, now: int, accepted: bool): (Result<(), Fault>, Db) {
    match ProductRepository.FindByIdSpec(db, o.productId)
    case Err(e) => (Err(e), db)
    case Ok(None) => (Err(Fail("failed to fetch product for lender info")), db)
    case Ok(Some(view)) =>
      var (out, db') := Commit(db, CreateOps(NewId(o, now), o, view.product.lenderId), accepted);
      (Done(out), db')
  }

  lemma CreateOpsShape(id: int, o: Order, lender: int)
    ensures DistinctKeys(CreateOps(id, o, lender))
    ensures |CreateOps(id, o, lender)| == 3
    ensures forall i | 0 <= i < 3 ::
      CreateOps(id, o, lender)[i] == Put(Keys(id, o.userId, lender)[i], Attributes(id, o), Unconditional)
  {
    KeysDistinct(id, o.userId, lender);
  }

  /**
   * create_order writes the three copies with the product's current lender,
   * all or nothing; without the product nothing is written; no other item
   * changes.
   */
  lemma CreateEffect(db: Db, o: Order, now: int, accepted: bool)
    ensures var (r, db') := CreateSpec(db, o, now, accepted);
      var found := ProductRepository.FindByIdSpec(db, o.productId);
      && (r.Ok? <==> found.Ok? && found.value.Some? && accepted)
      && (r.Err? ==> db' == db)
      && (r.Ok? ==>
            var ks := Keys(NewId(o, now), o.userId, found.value.value.product.lenderId);
            && (forall k | k in ks :: Lookup(db', k) == Some(Attributes(NewId(o, now), o)))
            && (forall k | k !in ks :: Lookup(db', k) == Lookup(db, k)))
  {
    var found := ProductRepository.FindByIdSpec(db, o.productId);
    if found.Ok? && found.value.Some? {
      var id := NewId(o, now);
      var lender := found.value.value.product.lenderId;
      var ops := CreateOps(id, o, lender);
      var ks := Keys(id, o.userId, lender);
      CreateOpsShape(id, o, lender);
      if accepted {
        CommittedAll(db, ops, accepted);
        forall k | k in ks ensures Lookup(Commit(db, ops, accepted).1, k) == Some(Attributes(id, o)) {
          var i :| 0 <= i < 3 && ks[i] == k;
          assert ops[i].key == k;
        }
        forall k | k !in ks ensures !Touches(ops, k) {
        }
      }
    }
  }

  /** A committed create is found again by its id, and its three copies agree. */
  lemma CreateThenGet(db: Db, o: Order, now: int, accepted: bool)
    requires ValidOrder(o)
    requires CreateSpec(db, o, now, accepted).0.Ok?
    ensures var db' := CreateSpec(db, o, now, accepted).1;
      var id := NewId(o, now);
      && GetByIdSpec(db', id) == Ok(Some(o.(id := Some(id))))
      && Agree(db', id, o.userId, ProductRepository.FindByIdSpec(db, o.productId).value.value.product.lenderId)
  {
    CreateEffect(db, o, now, accepted);
    var id := NewId(o, now);
    var ks := Keys(id, o.userId, ProductRepository.FindByIdSpec(db, o.productId).value.value.product.lenderId);
    assert ks[0] in ks && ks[1] in ks && ks[2] in ks;
    DecodeAttributes(id, o);
  }

  // ---------------------------------------------------------------------
  // update_order_status

  function StatusSet(status: string): Item {
    map["Status" := S(status)]
  }

  function UpdateStatusOps(id: int, user: int, lender: int, status: string): seq<Op> {
    [Op.Update(UserKey(user, id), StatusSet(status)), Op.Update(LenderKey(lender, id), StatusSet(status)),
     Op.Update(PrimaryKey(id), StatusSet(status))]
  }

  /**
   * Re-reads the order and its product, then sets Status on the three keys
   * named by the order's user and the product's current lender; any string
   * is written as given.
   */
  function UpdateStatusSpec(db: Db, id: int, status: string, accepted: bool): (Result<(), Fault>, Db) {
    match GetByIdSpec(db, id)
    case Err(e) => (Err(e), db)
    case Ok(None) => (Err(Fail("order not found")), db)
    case Ok(Some(o)) =>
      match ProductRepository.FindByIdSpec(db, o.productId)
      case Err(e) => (Err(e), db)
      case Ok(None) => (Err(Fail("failed to fetch product for order")), db)
      case Ok(Some(view)) =>
        var (out, db') := Commit(db, UpdateStatusOps(id, o.userId, view.product.lenderId, status), accepted);
        (Done(out), db')
  }

  /** The lender the status write uses, when the order and its product are both found. */
  function CurrentLender(db: Db, id: int): Option<int> {
    var got := GetByIdSpec(db, id);
    if got.Err? || got.value.None? then None
    else
      var found := ProductRepository.FindByIdSpec(db, got.value.value.productId);
      if found.Err? || found.value.None? then None else Some(found.value.value.product.lenderId)
  }

  /**
   * A committed status write sets Status on the three keys, creating a
   * Status-only item where one is missing, and changes nothing else.
   */
  lemma UpdateStatusCommitted(db: Db, id: int, user: int, lender: int, status: string, accepted: bool)
    requires Commit(db, UpdateStatusOps(id, user, lender, status), accepted).0 == Committed
    ensures var db' := Commit(db, UpdateStatusOps(id, user, lender, status), accepted).1;
      && (forall k | k in Keys(id, user, lender) ::
            Lookup(db', k) == Some((if k in db then db[k] else map[]) + StatusSet(status)))
      && (forall k | k !in Keys(id, user, lender) :: Lookup(db', k) == Lookup(db, k))
  {
    var ops := UpdateStatusOps(id, user, lender, status);
    assert [] + ops == ops;
    CommittedDeletesThenUpserts(db, [], ops, {}, Keys(id, user, lender), StatusSet(status), accepted);
  }

  /** The three status writes name three different keys, none of them conditionally. */
  lemma UpdateStatusOpsAccepted(db: Db, id: int, user: int, lender: int, status: string)
    ensures DistinctKeys(UpdateStatusOps(id, user, lender, status))
    ensures ConditionsHold(db, UpdateStatusOps(id, user, lender, status))
  {
    KeysDistinct(id, user, lender);
  }

  /**
   * update_order_status succeeds exactly when the order and its product are
   * found and the store accepts; it then is the status write on the keys of
   * the order's user and the product's current lender.
   */
  lemma UpdateStatusEffect(db: Db, id: int, status: string, accepted: bool)
    ensures var (r, db') := UpdateStatusSpec(db, id, status, accepted);
      && (r.Ok? <==> CurrentLender(db, id).Some? && accepted)
      && (r.Err? ==> db' == db)
      && (r.Ok? ==>
            Commit(db, UpdateStatusOps(id, GetByIdSpec(db, id).value.value.userId, CurrentLender(db, id).value, status),
                   accepted) == (Committed, db'))
  {
    if CurrentLender(db, id).Some? {
      UpdateStatusOpsAccepted(db, id, GetByIdSpec(db, id).value.value.userId, CurrentLender(db, id).value, status);
    }
  }

  /**
   * When the three copies agree, a status write keeps them agreeing and
   * changes only the status: the order reads back as before with the new one.
   */
  lemma UpdateStatusThenGet(db: Db, id: int, user: int, lender: int, st: OrderStatus, accepted: bool)
    requires Agree(db, id, user, lender)
    requires GetByIdSpec(db, id).Ok? && GetByIdSpec(db, id).value.Some?
    requires Commit(db, UpdateStatusOps(id, user, lender, st.Value()), accepted).0 == Committed
    ensures var db' := Commit(db, UpdateStatusOps(id, user, lender, st.Value()), accepted).1;
      && GetByIdSpec(db', id) == Ok(Some(GetByIdSpec(db, id).value.value.(status := st)))
      && Agree(db', id, user, lender)
  {
    UpdateStatusCommitted(db, id, user, lender, st.Value(), accepted);
    var ks := Keys(id, user, lender);
    assert ks[0] in ks && ks[1] in ks && ks[2] in ks;
    StatusSetDecodes(db[PrimaryKey(id)], st);
  }

  /**
   * A successful status write on an order whose copies agree reads back as
   * the same order with the new status.
   */
  lemma UpdateStatusSpecThenGet(db: Db, id: int, st: OrderStatus, accepted: bool)
    requires UpdateStatusSpec(db, id, st.Value(), accepted).0.Ok?
    requires Agree(db, id, GetByIdSpec(db, id).value.value.userId, CurrentLender(db, id).value)
    ensures GetByIdSpec(UpdateStatusSpec(db, id, st.Value(), accepted).1, id) ==
      Ok(Some(GetByIdSpec(db, id).value.value.(status := st)))
  {
    UpdateStatusEffect(db, id, st.Value(), accepted);
    UpdateStatusThenGet(db, id, GetByIdSpec(db, id).value.value.userId, CurrentLender(db, id).value, st, accepted);
  }

  /** Setting a known status on a stored order changes only its status. */
  lemma StatusSetDecodes(item: Item, st: OrderStatus)
    requires Decode(item).Ok?
    ensures Decode(item + StatusSet(st.Value())) == Ok(Decode(item).value.(status := st))
  {
    var after := item + StatusSet(st.Value());
    assert Get(after, "Status") == Some(S(st.Value()));
    assert forall a | a != "Status" :: Get(after, a) == Get(item, a);
  }

  /**
   * When the product has moved to a lender that holds no copy of the order,
   * the status update creates a Status-only item under the new lender: it
   * does not decode, so that lender's order listing raises from then on.
   */
  lemma UpdateStatusAfterLenderChange(db: Db, id: int, status: string, accepted: bool)
    requires CurrentLender(db, id).Some?
    requires LenderKey(CurrentLender(db, id).value, id) !in db
    requires UpdateStatusSpec(db, id, status, accepted).0.Ok?
    ensures var db' := UpdateStatusSpec(db, id, status, accepted).1;
      var k := LenderKey(CurrentLender(db, id).value, id);
      k in db' && db'[k] == StatusSet(status) && Decode(db'[k]).Err?
  {
    var user := GetByIdSpec(db, id).value.value.userId;
    var lender := CurrentLender(db, id).value;
    UpdateStatusEffect(db, id, status, accepted);
    StatusOnlyCopy(db, id, user, lender, status, accepted);
    StatusOnlyMalformed(status);
  }

  /** A status write on a key that held nothing leaves the status alone there. */
  lemma StatusOnlyCopy(db: Db, id: int, user: int, lender: int, status: string, accepted: bool)
    requires LenderKey(lender, id) !in db
    requires Commit(db, UpdateStatusOps(id, user, lender, status), accepted).0 == Committed
    ensures var db' := Commit(db, UpdateStatusOps(id, user, lender, status), accepted).1;
      LenderKey(lender, id) in db' && db'[LenderKey(lender, id)] == StatusSet(status)
  {
    UpdateStatusCommitted(db, id, user, lender, status, accepted);
    var ks := Keys(id, user, lender);
    assert ks[1] in ks;
    assert map[] + StatusSet(status) == StatusSet(status);
  }

  /** An item holding nothing but a status is not an order. */
  lemma StatusOnlyMalformed(status: string)
    ensures Decode(StatusSet(status)).Err?
  {
    assert Get(StatusSet(status), "ID") == None;
  }

  // ---------------------------------------------------------------------
  // get_order_history and get_lender_orders

  const OrderPrefix: string := "ORDER#"

  function ListStep(item: Item): Step<Order, Fault> {
    match Decode(item)
    case Err(e) => Stop(e)
    case Ok(o) => Keep(o)
  }

  function ListSteps(rows: seq<Row>): (steps: seq<Step<Order, Fault>>)
    ensures |steps| == |rows|
    ensures forall i | 0 <= i < |rows| :: steps[i] == ListStep(rows[i].item)
  {
    seq(|rows|, i requires 0 <= i < |rows| => ListStep(rows[i].item))
  }

  /** The orders whose status value is in the filter list, in their order. */
  function WithStatus(orders: seq<Order>, filter: seq<string>): (r: seq<Order>)
    ensures forall o :: o in r <==> o in orders && o.status.Value() in filter
    ensures |r| <= |orders|
  {
    if orders == [] then []
    else (if orders[0].status.Value() in filter then [orders[0]] else []) + WithStatus(orders[1..], filter)
  }

  /** Every copy under the user decodes or the listing raises; an empty filter keeps all. */
  function HistorySpec(rows: seq<Row>, filter: seq<string>): Result<seq<Order>, Fault> {
    match Collect(ListSteps(rows))
    case Err(e) => Err(e)
    case Ok(orders) => Ok(if filter != [] then WithStatus(orders, filter) else orders)
  }

  function LenderOrdersSpec(rows: seq<Row>): Result<seq<Order>, Fault> {
    Collect(ListSteps(rows))
  }

  /**
   * The history holds exactly the decoded listed orders whose status passes
   * the filter, and raises exactly when some listed item does not decode.
   */
  lemma HistoryMembers(rows: seq<Row>, filter: seq<string>, o: Order)
    ensures HistorySpec(rows, filter).Ok? <==> forall i | 0 <= i < |rows| :: Decode(rows[i].item).Ok?
    ensures HistorySpec(rows, filter).Ok? ==>
      (o in HistorySpec(rows, filter).value <==>
         (exists i | 0 <= i < |rows| :: Decode(rows[i].item) == Ok(o))
         && (filter == [] || o.status.Value() in filter))
  {
    var steps := ListSteps(rows);
    CollectOk(steps);
    assert NoStop(steps) <==> forall i | 0 <= i < |rows| :: Decode(rows[i].item).Ok? by {
      assert forall i | 0 <= i < |rows| :: steps[i].Stop? <==> Decode(rows[i].item).Err?;
    }
    if NoStop(steps) {
      CollectNoStop(steps);
      KeptMember(steps, o);
      assert (exists i | 0 <= i < |steps| :: steps[i] == Keep(o)) <==>
             (exists i | 0 <= i < |rows| :: Decode(rows[i].item) == Ok(o)) by {
        assert forall i | 0 <= i < |rows| :: steps[i] == Keep(o) <==> Decode(rows[i].item) == Ok(o);
      }
    }
  }

  /** The lender listing is the history listing without a filter. */
  lemma LenderOrdersUnfiltered(rows: seq<Row>)
    ensures LenderOrdersSpec(rows) == HistorySpec(rows, [])
  {
  }

  // ---------------------------------------------------------------------
  // The repository

  class OrderRepo {
    const table: Table
    const products: ProductRepository.ProductRepo

    /** The product repository reads the same table. */
    predicate Wired() {
      products.table == table && products.Wired()
    }

    constructor (table: Table, products: ProductRepository.ProductRepo)
      requires products.table == table && products.Wired()
      ensures this.table == table && this.products == products && Wired()
    {
      this.table := table;
      this.products := products;
    }

    /** create_order; `now` stands for the time.time_ns() reading. */
    method CreateOrder(o: Order, now: int) returns (r: Result<(), Fault>, ghost accepted: bool)
      requires Wired()
      modifies table
      ensures (r, table.items) == CreateSpec(old(table.items), o, now, accepted)
    {
      var oid := if Truthy(o.id) then o.id.value else now;
      var found := products.FindById(o.productId);
      if found.Err? {
        return Err(found.error), false;
      }
      if found.value.None? {
        return Err(Fail("failed to fetch product for lender info")), false;
      }
      var lender := found.value.value.product.lenderId;
      var base := Attributes(oid, o);
      var out;
      out, accepted := table.TransactWrite([
        Put(UserKey(o.userId, oid), base, Unconditional),
        Put(LenderKey(lender, oid), base, Unconditional),
        Put(PrimaryKey(oid), base, Unconditional)]);
      r := Done(out);
    }

    /** update_order_status. */
    method UpdateOrderStatus(id: int, status: string) returns (r: Result<(), Fault>, ghost accepted: bool)
      requires Wired()
      modifies table
      ensures (r, table.items) == UpdateStatusSpec(old(table.items), id, status, accepted)
    {
      var got := GetOrderById(id);
      if got.Err? {
        return Err(got.error), false;
      }
      if got.value.None? {
        return Err(Fail("order not found")), false;
      }
      var o := got.value.value;
      var found := products.FindById(o.productId);
      if found.Err? {
        return Err(found.error), false;
      }
      if found.value.None? {
        return Err(Fail("failed to fetch product for order")), false;
      }
      var lender := found.value.value.product.lenderId;
      var assign := StatusSet(status);
      var out;
      out, accepted := table.TransactWrite([
        Op.Update(UserKey(o.userId, id), assign),
        Op.Update(LenderKey(lender, id), assign),
        Op.Update(PrimaryKey(id), assign)]);
      r := Done(out);
    }

    /** The shared loop of both listings: decode each row, raising on the first failure. */
    method DecodeAll(rows: seq<Row>) returns (r: Result<seq<Order>, Fault>)
      ensures r == Collect(ListSteps(rows))
    {
      ghost var steps := ListSteps(rows);
      var orders: seq<Order> := [];
      var i := 0;
      while i < |rows|
        invariant 0 <= i <= |rows|
        invariant Collect(steps[..i]) == Ok(orders)
      {
        CollectNext(steps, i);
        var decoded := Decode(rows[i].item);
        if decoded.Err? {
          CollectErrSticky(steps, i + 1);
          return Err(decoded.error);
        }
        orders := orders + [decoded.value];
        i := i + 1;
      }
      assert steps[..i] == steps;
      r := Ok(orders);
    }

    /** get_order_history: the user's copies, then the status filter when one is given. */
    method GetOrderHistory(user: int, filter: seq<string>) returns (r: Result<seq<Order>, Fault>, ghost rows: seq<Row>)
      ensures IsQueryResult(table.items, "USER#" + Str(user), OrderPrefix, rows)
      ensures r == HistorySpec(rows, filter)
    {
      var items := table.Query("USER#" + Str(user), OrderPrefix);
      rows := items;
      var decoded := DecodeAll(items);
      if decoded.Err? {
        return Err(decoded.error), rows;
      }
      var orders := decoded.value;
      if filter != [] {
        orders := WithStatus(orders, filter);
      }
      r := Ok(orders);
    }

    /** get_lender_orders. */
    method GetLenderOrders(lender: int) returns (r: Result<seq<Order>, Fault>, ghost rows: seq<Row>)
      ensures IsQueryResult(table.items, "LENDER#" + Str(lender), OrderPrefix, rows)
      ensures r == LenderOrdersSpec(rows)
    {
      var items := table.Query("LENDER#" + Str(lender), OrderPrefix);
      rows := items;
      r := DecodeAll(items);
    }

    /** get_order_by_id. */
    method GetOrderById(id: int) returns (r: Result<Option<Order>, Fault>)
      ensures r == GetByIdSpec(table.items, id)
    {
      var found := table.GetItem(PrimaryKey(id));
      if found.None? {
        return Ok(None);
      }
      var decoded := Decode(found.value);
      if decoded.Err? {
        return Err(decoded.error);
      }
      r := Ok(Some(decoded.value));
    }
  }
}
