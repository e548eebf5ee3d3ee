/**
 * Buy requests in the shared table. Every request has a primary item
 * (BUYREQUEST, ID#id) and a status projection
 * (BUYREQUEST, STATUS#status#ID#id) so that requests can be listed by status.
 */
module BuyRequestRepository {
  import opened Wrappers
  import opened Dynamo
  import opened Listing
  import opened Models

  const Partition: string := "BUYREQUEST"

  function PrimaryKey(id: int): Key {
    Key(Partition, "ID#" + Str(id))
  }

  function StatusKey(status: string, id: int): Key {
    Key(Partition, "STATUS#" + status + "#ID#" + Str(id))
  }

  /** The attributes both items of a request are written with (CreatedAt aside). */
  function Attributes(id: int, b: BuyRequest): Item {
    map["ID" := N(id), "ProductId" := N(b.productId), "RequestedBy" := N(b.requestedBy),
        "Status" := S(b.status.Value())]
  }

  /** str(doc.get("Status")). */
  function StatusOf(item: Item): string {
    StrOf(Get(item, "Status"))
  }

  /** Reading a request back: int() of the three ids, then the record's validation. */
  function Decode(item: Item): (r: Result<BuyRequest, Fault>)
    ensures r.Err? ==> r.error == Malformed
  {
    var id := IntOf(Get(item, "ID"));
    var productId := IntOf(Get(item, "ProductId"));
    var requestedBy := IntOf(Get(item, "RequestedBy"));
    var status := ParseBuyRequestStatus(StatusOf(item));
    if id.None? || productId.None? || requestedBy.None? || status.None? then Err(Malformed)
    else
      var b := BuyRequest(Some(id.value), productId.value, requestedBy.value, status.value);
      if ValidBuyRequest(b) then Ok(b) else Err(Malformed)
  }

  /** A request written by create reads back as itself, now carrying its id. */
  lemma DecodeAttributes(id: int, b: BuyRequest)
    requires ValidBuyRequest(b)
    ensures Decode(Attributes(id, b)) == Ok(b.(id := Some(id)))
  {
    assert StatusOf(Attributes(id, b)) == b.status.Value();
  }

  // ---------------------------------------------------------------------
  // Keys never collide

  lemma PrimaryKeyInjective(a: int, b: int)
    requires PrimaryKey(a) == PrimaryKey(b)
    ensures a == b
  {
    DropCommonPrefix("ID#", Str(a), Str(b));
    StrInjective(a, b);
  }

  lemma PrimaryIsNotStatus(id: int, s: string, id2: int)
    ensures PrimaryKey(id) != StatusKey(s, id2)
  {
    SkHeadsDiffer("ID#", Str(id), "STATUS#", s + "#ID#" + Str(id2));
    assert "STATUS#" + s + "#ID#" + Str(id2) == "STATUS#" + (s + "#ID#" + Str(id2));
  }

  /** Status projections of known statuses are told apart by status and id. */
  lemma StatusKeyInjective(s1: string, id1: int, s2: string, id2: int)
    requires HashFree(s1) && HashFree(s2)
    requires StatusKey(s1, id1) == StatusKey(s2, id2)
    ensures s1 == s2 && id1 == id2
  {
    var t1, t2 := "ID#" + Str(id1), "ID#" + Str(id2);
    StatusSk(s1, id1);
    StatusSk(s2, id2);
    DropCommonPrefix("STATUS#", s1 + "#" + t1, s2 + "#" + t2);
    SplitAtHash(s1, t1, s2, t2);
    PrimaryKeyInjective(id1, id2);
  }

  lemma StatusSk(s: string, id: int)
    ensures StatusKey(s, id).sk == "STATUS#" + (s + "#" + ("ID#" + Str(id)))
    ensures StatusKey(s, id).sk == ("STATUS#" + s) + ("#ID#" + Str(id))
  {
    Regroup("STATUS#", s, "#ID#", Str(id));
    assert "#ID#" + Str(id) == "#" + ("ID#" + Str(id));
  }

  /** For one id, two status projections are the same key only for the same status. */
  lemma StatusKeySameId(s1: string, s2: string, id: int)
    requires StatusKey(s1, id) == StatusKey(s2, id)
    ensures s1 == s2
  {
    StatusSk(s1, id);
    StatusSk(s2, id);
    DropCommonSuffix("STATUS#" + s1, "STATUS#" + s2, "#ID#" + Str(id));
    DropCommonPrefix("STATUS#", s1, s2);
  }

  // ---------------------------------------------------------------------
  // The index invariant: primary and projection agree

  /** Every request's primary item has a projection under its status, identical to it. */
  ghost predicate Indexed(db: Db) {
    forall id: int {:trigger PrimaryKey(id)} | PrimaryKey(id) in db ::
      var item := db[PrimaryKey(id)];
      && ParseBuyRequestStatus(StatusOf(item)).Some?
      && StatusKey(StatusOf(item), id) in db
      && db[StatusKey(StatusOf(item), id)] == item
  }

  /** Every status projection belongs to a primary item that has that status. */
  ghost predicate NoStale(db: Db) {
    forall s: string, id: int {:trigger StatusKey(s, id)} |
      StatusKey(s, id) in db && ParseBuyRequestStatus(s).Some? ::
      PrimaryKey(id) in db && StatusOf(db[PrimaryKey(id)]) == s
  }

  // ---------------------------------------------------------------------
  // create_buyer_request

  /** The id create writes under: the request's own when truthy, else the clock reading. */
  function NewId(b: BuyRequest, now: int): int {
    if Truthy(b.id) then b.id.value else now
  }

  function CreateOps(id: int, b: BuyRequest): seq<Op> {
    [Put(PrimaryKey(id), Attributes(id, b), Unconditional),
     Put(StatusKey(b.status.Value(), id), Attributes(id, b), Unconditional)]
  }

  function CreateSpec(db: Db, b: BuyRequest, now: int, accepted: bool): (Result<(), Fault>, Db) {
    var (o, db') := Commit(db, CreateOps(NewId(b, now), b), accepted);
    (Done(o), db')
  }

  /**
   * create writes both items with the same attributes in one transaction,
   * or fails and writes nothing; no other item changes.
   */
  lemma CreateEffect(db: Db, b: BuyRequest, now: int, accepted: bool)
    ensures var (r, db') := CreateSpec(db, b, now, accepted);
      var id := NewId(b, now);
      && (r.Ok? <==> accepted)
      && (r.Err? ==> db' == db)
      && (r.Ok? ==>
            && Lookup(db', PrimaryKey(id)) == Some(Attributes(id, b))
            && Lookup(db', StatusKey(b.status.Value(), id)) == Some(Attributes(id, b)))
      && (forall k | k != PrimaryKey(id) && k != StatusKey(b.status.Value(), id) :: Lookup(db', k) == Lookup(db, k))
  {
    var id := NewId(b, now);
    var ops := CreateOps(id, b);
    PrimaryIsNotStatus(id, b.status.Value(), id);
    assert DistinctKeys(ops);
    if accepted {
      CommittedAt(db, ops, accepted, 0);
      CommittedAt(db, ops, accepted, 1);
    }
    forall k | k != PrimaryKey(id) && k != StatusKey(b.status.Value(), id)
      ensures !Touches(ops, k)
    {
    }
  }

  /** Creating a valid request under an id not yet in use keeps the index consistent. */
  lemma CreateKeepsIndexed(db: Db, b: BuyRequest, now: int, accepted: bool)
    requires Indexed(db) && NoStale(db)
    requires PrimaryKey(NewId(b, now)) !in db
    ensures Indexed(CreateSpec(db, b, now, accepted).1)
    ensures NoStale(CreateSpec(db, b, now, accepted).1)
  {
    var id := NewId(b, now);
    var st := b.status.Value();
    var db' := CreateSpec(db, b, now, accepted).1;
    CreateEffect(db, b, now, accepted);
    if accepted {
      assert StatusOf(Attributes(id, b)) == st;
      forall id2: int | PrimaryKey(id2) in db'
        ensures var item := db'[PrimaryKey(id2)];
          && ParseBuyRequestStatus(StatusOf(item)).Some?
          && StatusKey(StatusOf(item), id2) in db'
          && db'[StatusKey(StatusOf(item), id2)] == item
      {
        if id2 != id {
          assert PrimaryKey(id2) != PrimaryKey(id) by {
            if PrimaryKey(id2) == PrimaryKey(id) { PrimaryKeyInjective(id2, id); }
          }
          PrimaryIsNotStatus(id2, st, id);
          assert Lookup(db', PrimaryKey(id2)) == Lookup(db, PrimaryKey(id2));
          var s2 := StatusOf(db[PrimaryKey(id2)]);
          assert StatusKey(s2, id2) != StatusKey(st, id) by {
            if StatusKey(s2, id2) == StatusKey(st, id) { StatusKeyInjective(s2, id2, st, id); }
          }
          PrimaryIsNotStatus(id, s2, id2);
          assert Lookup(db', StatusKey(s2, id2)) == Lookup(db, StatusKey(s2, id2));
        }
      }
      forall s: string, id2: int | StatusKey(s, id2) in db' && ParseBuyRequestStatus(s).Some?
        ensures PrimaryKey(id2) in db' && StatusOf(db'[PrimaryKey(id2)]) == s
      {
        if StatusKey(s, id2) == StatusKey(st, id) {
          StatusKeyInjective(s, id2, st, id);
        } else {
          PrimaryIsNotStatus(id, s, id2);
          assert Lookup(db', StatusKey(s, id2)) == Lookup(db, StatusKey(s, id2));
          assert PrimaryKey(id2) in db;
          assert id2 != id;
          assert PrimaryKey(id2) != PrimaryKey(id) by {
            if PrimaryKey(id2) == PrimaryKey(id) { PrimaryKeyInjective(id2, id); }
          }
          PrimaryIsNotStatus(id2, st, id);
          assert Lookup(db', PrimaryKey(id2)) == Lookup(db, PrimaryKey(id2));
        }
      }
    }
  }

  // ---------------------------------------------------------------------
  // get_buyer_request_by_id

  function GetByIdSpec(db: Db, id: int): Result<Option<BuyRequest>, Fault> {
    match Lookup(db, PrimaryKey(id))
    case None => Ok(None)
    case Some(item) =>
      match Decode(item)
      case Ok(b) => Ok(Some(b))
      case Err(e) => Err(e)
  }

  /** A committed create is found again by its id (the round trip of create and get_by_id). */
  lemma CreateThenGet(db: Db, b: BuyRequest, now: int, accepted: bool)
    requires ValidBuyRequest(b)
    requires CreateSpec(db, b, now, accepted).0.Ok?
    ensures GetByIdSpec(CreateSpec(db, b, now, accepted).1, NewId(b, now))
            == Ok(Some(b.(id := Some(NewId(b, now)))))
  {
    CreateEffect(db, b, now, accepted);
    DecodeAttributes(NewId(b, now), b);
  }

  // ---------------------------------------------------------------------
  // update_status_buyer_request

  /** The projection update_status writes for the new status: Status and ID only. */
  function NewProjection(status: string, id: int): Item {
    map["Status" := S(status), "ID" := N(id)]
  }

  function UpdateOps(id: int, oldStatus: string, newStatus: string): seq<Op> {
    [Delete(StatusKey(oldStatus, id)),
     Update(PrimaryKey(id), map["Status" := S(newStatus)]),
     Put(StatusKey(newStatus, id), NewProjection(newStatus, id), Unconditional)]
  }

  function UpdateStatusSpec(db: Db, id: int, newStatus: string, accepted: bool): (Result<(), Fault>, Db) {
    match Lookup(db, PrimaryKey(id))
    case None => (Err(Fail("buyer request not found")), db)
    case Some(item) =>
      var (o, db') := Commit(db, UpdateOps(id, StatusOf(item), newStatus), accepted);
      (Done(o), db')
  }

  /**
   * update_status fails on a missing request, and DynamoDB refuses it when
   * the new status equals the stored one (the delete and the put name the
   * same item). Otherwise it deletes the old projection, sets Status on the
   * primary item and writes a projection holding only Status and ID.
   */
  lemma UpdateStatusEffect(db: Db, id: int, newStatus: string, accepted: bool)
    ensures var (r, db') := UpdateStatusSpec(db, id, newStatus, accepted);
      && (PrimaryKey(id) !in db ==> r == Err(Fail("buyer request not found")) && db' == db)
      && (PrimaryKey(id) in db && accepted && StatusOf(db[PrimaryKey(id)]) == newStatus ==>
            r == Err(Store(ValidationException)) && db' == db)
      && (r.Ok? <==> PrimaryKey(id) in db && accepted && StatusOf(db[PrimaryKey(id)]) != newStatus)
      && (r.Ok? ==>
            var oldStatus := StatusOf(db[PrimaryKey(id)]);
            && Lookup(db', PrimaryKey(id)) == Some(db[PrimaryKey(id)]["Status" := S(newStatus)])
            && Lookup(db', StatusKey(oldStatus, id)) == None
            && Lookup(db', StatusKey(newStatus, id)) == Some(NewProjection(newStatus, id))
            && forall k | k != PrimaryKey(id) && k != StatusKey(oldStatus, id) && k != StatusKey(newStatus, id) ::
                 Lookup(db', k) == Lookup(db, k))
      && (r.Err? ==> db' == db)
  {
    if PrimaryKey(id) in db {
      var item := db[PrimaryKey(id)];
      var oldStatus := StatusOf(item);
      var ops := UpdateOps(id, oldStatus, newStatus);
      PrimaryIsNotStatus(id, oldStatus, id);
      PrimaryIsNotStatus(id, newStatus, id);
      if oldStatus == newStatus {
        assert ops[0].key == ops[2].key;
      } else {
        assert StatusKey(oldStatus, id) != StatusKey(newStatus, id) by {
          if StatusKey(oldStatus, id) == StatusKey(newStatus, id) { StatusKeySameId(oldStatus, newStatus, id); }
        }
        assert DistinctKeys(ops);
        if accepted {
          CommittedAt(db, ops, accepted, 0);
          CommittedAt(db, ops, accepted, 1);
          CommittedAt(db, ops, accepted, 2);
          assert db[PrimaryKey(id)] + map["Status" := S(newStatus)] == item["Status" := S(newStatus)];
        }
        forall k | k != PrimaryKey(id) && k != StatusKey(oldStatus, id) && k != StatusKey(newStatus, id)
          ensures !Touches(ops, k)
        {
        }
      }
    }
  }

  /**
   * A committed status change leaves the index inconsistent: the new
   * projection lacks the attributes the primary item still has.
   */
  lemma UpdateStatusBreaksIndexed(db: Db, id: int, newStatus: BuyRequestStatus, accepted: bool)
    requires PrimaryKey(id) in db && Decode(db[PrimaryKey(id)]).Ok?
    requires UpdateStatusSpec(db, id, newStatus.Value(), accepted).0.Ok?
    ensures !Indexed(UpdateStatusSpec(db, id, newStatus.Value(), accepted).1)
  {
    UpdateStatusEffect(db, id, newStatus.Value(), accepted);
    var db' := UpdateStatusSpec(db, id, newStatus.Value(), accepted).1;
    var item' := db'[PrimaryKey(id)];
    assert StatusOf(item') == newStatus.Value();
    assert "ProductId" in item';
    assert "ProductId" !in db'[StatusKey(newStatus.Value(), id)];
  }

  // ---------------------------------------------------------------------
  // delete_buyer_request

  function DeleteSpec(db: Db, id: int, accepted: bool): (Result<(), Fault>, Db) {
    var (o, db') := Commit(db, [Delete(PrimaryKey(id))], accepted);
    (Done(o), db')
  }

  /** delete removes the primary item and nothing else, so the status projection outlives it. */
  lemma DeleteLeavesProjection(db: Db, id: int, accepted: bool)
    requires Indexed(db) && PrimaryKey(id) in db
    requires DeleteSpec(db, id, accepted).0.Ok?
    ensures var db' := DeleteSpec(db, id, accepted).1;
      && PrimaryKey(id) !in db'
      && StatusKey(StatusOf(db[PrimaryKey(id)]), id) in db'
      && !NoStale(db')
  {
    var ops := [Delete(PrimaryKey(id))];
    var db' := DeleteSpec(db, id, accepted).1;
    var s := StatusOf(db[PrimaryKey(id)]);
    CommittedAt(db, ops, accepted, 0);
    PrimaryIsNotStatus(id, s, id);
    assert !Touches(ops, StatusKey(s, id));
    assert Lookup(db', StatusKey(s, id)) == Lookup(db, StatusKey(s, id));
    assert StatusKey(s, id) in db' && ParseBuyRequestStatus(s).Some?;
  }

  // ---------------------------------------------------------------------
  // get_all_buyer_requests

  /** STATUS#<first filter> when a filter is given, otherwise the primary items. */
  function ListPrefix(filter: seq<string>): string {
    if filter != [] then "STATUS#" + filter[0] else "ID#"
  }

  /** One iteration of the listing loop. */
  function ListStep(productId: Option<int>, filter: seq<string>, item: Item): Step<BuyRequest, Fault> {
    var storedProduct := IntOf(Get(item, "ProductId"));
    if Truthy(productId) && storedProduct.None? then Stop(Malformed)
    else if Truthy(productId) && storedProduct.value != productId.value then Skip
    else if filter != [] && StatusOf(item) != filter[0] then Skip
    else match Decode(item)
      case Ok(b) => Keep(b)
      case Err(e) => Stop(e)
  }

  function ListSteps(rows: seq<Row>, productId: Option<int>, filter: seq<string>): (steps: seq<Step<BuyRequest, Fault>>)
    ensures |steps| == |rows|
    ensures forall i | 0 <= i < |rows| :: steps[i] == ListStep(productId, filter, rows[i].item)
  {
    seq(|rows|, i requires 0 <= i < |rows| => ListStep(productId, filter, rows[i].item))
  }

  /** The listing for query result rows. */
  function GetAllSpec(rows: seq<Row>, productId: Option<int>, filter: seq<string>): Result<seq<BuyRequest>, Fault> {
    Collect(ListSteps(rows, productId, filter))
  }

  /** Every listed request matches the product filter and the first status filter. */
  lemma GetAllSound(rows: seq<Row>, productId: Option<int>, filter: seq<string>, b: BuyRequest)
    requires GetAllSpec(rows, productId, filter).Ok?
    requires b in GetAllSpec(rows, productId, filter).value
    ensures Truthy(productId) ==> b.productId == productId.value
    ensures filter != [] ==> b.status.Value() == filter[0]
    ensures ValidBuyRequest(b)
    ensures exists i | 0 <= i < |rows| :: Decode(rows[i].item) == Ok(b)
  {
    var steps := ListSteps(rows, productId, filter);
    CollectOk(steps);
    CollectNoStop(steps);
    KeptMember(steps, b);
    var i :| 0 <= i < |steps| && steps[i] == Keep(b);
    assert Decode(rows[i].item) == Ok(b);
  }

  /**
   * Without a status filter the listing holds every stored request that
   * passes the product filter: none is lost.
   */
  lemma GetAllComplete(db: Db, rows: seq<Row>, productId: Option<int>, id: int, b: BuyRequest)
    requires IsQueryResult(db, Partition, ListPrefix([]), rows)
    requires GetAllSpec(rows, productId, []).Ok?
    requires PrimaryKey(id) in db && Decode(db[PrimaryKey(id)]) == Ok(b)
    requires Truthy(productId) ==> b.productId == productId.value
    ensures b in GetAllSpec(rows, productId, []).value
  {
    var steps := ListSteps(rows, productId, []);
    assert Matches(PrimaryKey(id), Partition, "ID#");
    var i :| 0 <= i < |rows| && rows[i].key == PrimaryKey(id);
    assert steps[i] == Keep(b);
    CollectOk(steps);
    CollectNoStop(steps);
    KeptMember(steps, b);
  }

  /**
   * Once a request's status has been changed to s, listing by status s
   * fails for every product filter: the projection the change wrote has
   * no ProductId to read back.
   */
  lemma ListingAfterUpdateFails(db: Db, id: int, s: BuyRequestStatus, accepted: bool,
                                rows: seq<Row>, productId: Option<int>)
    requires UpdateStatusSpec(db, id, s.Value(), accepted).0.Ok?
    requires IsQueryResult(UpdateStatusSpec(db, id, s.Value(), accepted).1, Partition, ListPrefix([s.Value()]), rows)
    ensures GetAllSpec(rows, productId, [s.Value()]) == Err(Malformed)
  {
    UpdateStatusEffect(db, id, s.Value(), accepted);
    var k := StatusKey(s.Value(), id);
    StatusSk(s.Value(), id);
    assert Matches(k, Partition, ListPrefix([s.Value()]));
    var i :| 0 <= i < |rows| && rows[i].key == k;
    ProjectionStops(rows, productId, s.Value(), id, i);
  }

  /** A listing that meets a Status-and-ID-only projection of the filtered status raises. */
  lemma ProjectionStops(rows: seq<Row>, productId: Option<int>, s: string, id: int, i: nat)
    requires i < |rows| && rows[i].item == NewProjection(s, id)
    ensures GetAllSpec(rows, productId, [s]) == Err(Malformed)
  {
    var steps := ListSteps(rows, productId, [s]);
    assert steps[i].Stop?;
    var j := FirstStop(steps);
    CollectStop(steps, j);
  }

  // ---------------------------------------------------------------------
  // The repository

  class BuyRequestRepo {
    const table: Table

    constructor (table: Table)
      ensures this.table == table
    {
      this.table := table;
    }

    /** create_buyer_request; `now` stands for the time.time_ns() reading. */
    method Create(req: BuyRequest, now: int) returns (r: Result<(), Fault>, ghost accepted: bool)
      modifies table
      ensures (r, table.items) == CreateSpec(old(table.items), req, now, accepted)
    {
      var rid := if Truthy(req.id) then req.id.value else now;
      var base := Attributes(rid, req);
      var o;
      o, accepted := table.TransactWrite([
        Put(PrimaryKey(rid), base, Unconditional),
        Put(StatusKey(req.status.Value(), rid), base, Unconditional)]);
      r := Done(o);
    }

    /** get_all_buyer_requests: query one prefix, then filter and decode item by item. */
    method GetAll(productId: Option<int>, filter: seq<string>)
      returns (r: Result<seq<BuyRequest>, Fault>, ghost rows: seq<Row>)
      ensures IsQueryResult(table.items, Partition, ListPrefix(filter), rows)
      ensures r == GetAllSpec(rows, productId, filter)
    {
      var items := table.Query(Partition, ListPrefix(filter));
      rows := items;
      ghost var steps := ListSteps(items, productId, filter);
      var requests: seq<BuyRequest> := [];
      var i := 0;
      while i < |items|
        invariant 0 <= i <= |items|
        invariant Collect(steps[..i]) == Ok(requests)
      {
        var step := Classify(productId, filter, items[i].item);
        CollectAdvance(steps, i, requests);
        match step {
          case Skip =>
          case Keep(b) =>
            requests := requests + [b];
          case Stop(e) =>
            return Err(e), rows;
        }
        i := i + 1;
      }
      assert steps[..i] == steps;
      r := Ok(requests);
    }

    /** What the listing loop does with one stored item. */
    static method Classify(productId: Option<int>, filter: seq<string>, item: Item) returns (step: Step<BuyRequest, Fault>)
      ensures step == ListStep(productId, filter, item)
    {
      var storedProduct := IntOf(Get(item, "ProductId"));
      if productId.Some? && productId.value != 0 {
        if storedProduct.None? {
          return Stop(Malformed);
        }
        if storedProduct.value != productId.value {
          return Skip;
        }
      }
      if filter != [] && StatusOf(item) != filter[0] {
        return Skip;
      }
      var decoded := Decode(item);
      step := if decoded.Ok? then Keep(decoded.value) else Stop(decoded.error);
    }

    /** update_status_buyer_request. */
    method UpdateStatus(id: int, newStatus: string) returns (r: Result<(), Fault>, ghost accepted: bool)
      modifies table
      ensures (r, table.items) == UpdateStatusSpec(old(table.items), id, newStatus, accepted)
    {
      var found := table.GetItem(PrimaryKey(id));
      if found.None? {
        return Err(Fail("buyer request not found")), false;
      }
      var oldStatus := StatusOf(found.value);
      var o;
      o, accepted := table.TransactWrite([
        Delete(StatusKey(oldStatus, id)),
        Update(PrimaryKey(id), map["Status" := S(newStatus)]),
        Put(StatusKey(newStatus, id), NewProjection(newStatus, id), Unconditional)]);
      r := Done(o);
    }

    /** get_buyer_request_by_id. */
    method GetById(id: int) returns (r: Result<Option<BuyRequest>, Fault>)
      ensures r == GetByIdSpec(table.items, id)
    {
      var found := table.GetItem(PrimaryKey(id));
      if found.None? {
        return Ok(None);
      }
      var decoded := Decode(found.value);
      r := if decoded.Ok? then Ok(Some(decoded.value)) else Err(decoded.error);
    }

    /** delete_buyer_request: deletes the primary item only. */
    method DeleteBuyerRequest(id: int) returns (r: Result<(), Fault>, ghost accepted: bool)
      modifies table
      ensures (r, table.items) == DeleteSpec(old(table.items), id, accepted)
    {
      var o;
      o, accepted := table.DeleteItem(PrimaryKey(id));
      r := Done(o);
    }
  }
}
