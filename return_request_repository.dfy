/**
 * Return requests in the shared table: one item per request under
 * (RETURNREQUEST, ID#id), with no secondary copies.
 */
module ReturnRequestRepository {
  import opened Wrappers
  import opened Dynamo
  import opened Listing
  import opened Models

  const Partition: string := "RETURNREQUEST"

  function PrimaryKey(id: int): Key {
    Key(Partition, "ID#" + Str(id))
  }

  function Attributes(id: int, req: ReturnRequest): Item {
    map["ID" := N(id), "OrderID" := N(req.orderId), "RequestedBy" := N(req.requestedBy),
        "Status" := S(req.status.Value())]
  }

  /** str() of the stored Status: what the listing filter compares. */
  function StatusOf(item: Item): string {
    StrOf(Get(item, "Status"))
  }

  function Decode(item: Item): (r: Result<ReturnRequest, Fault>)
    ensures r.Err? ==> r.error == Malformed
    ensures r.Ok? ==> r.value.status.Value() == StatusOf(item) && r.value.id.Some?
  {
    var id := IntOf(Get(item, "ID"));
    var order := IntOf(Get(item, "OrderID"));
    var requester := IntOf(Get(item, "RequestedBy"));
    var status := ParseReturnStatus(StatusOf(item));
    if id.None? || order.None? || requester.None? || status.None? then Err(Malformed)
    else
      var req := ReturnRequest(Some(id.value), order.value, requester.value, status.value);
      if ValidReturnRequest(req) then Ok(req) else Err(Malformed)
  }

  lemma DecodeAttributes(id: int, req: ReturnRequest)
    requires ValidReturnRequest(req)
    ensures Decode(Attributes(id, req)) == Ok(req.(id := Some(id)))
  {
  }

  lemma PrimaryKeyInjective(a: int, b: int)
    requires PrimaryKey(a) == PrimaryKey(b)
    ensures a == b
  {
    DropCommonPrefix("ID#", Str(a), Str(b));
    StrInjective(a, b);
  }

  // ---------------------------------------------------------------------
  // get_return_request_by_id

  function GetByIdSpec(db: Db, id: int): Result<Option<ReturnRequest>, Fault> {
    match Lookup(db, PrimaryKey(id))
    case None => Ok(None)
    case Some(item) =>
      match Decode(item)
      case Err(e) => Err(e)
      case Ok(req) => Ok(Some(req))
  }

  // ---------------------------------------------------------------------
  // create_return_request

  /** `req.id if req.id else time.time_ns()`. */
  function NewId(req: ReturnRequest, now: int): int {
    if Truthy(req.id) then req.id.value else now
  }

  function CreateSpec(db: Db, req: ReturnRequest, now: int, accepted: bool): (Result<(), Fault>, Db) {
    var id := NewId(req, now);
    var (o, db') := Commit(db, [Put(PrimaryKey(id), Attributes(id, req), Unconditional)], accepted);
    (Done(o), db')
  }

  /** A stored request is found again by its id; nothing else changes. */
  lemma CreateThenGet(db: Db, req: ReturnRequest, now: int, accepted: bool)
    requires ValidReturnRequest(req)
    ensures var (r, db') := CreateSpec(db, req, now, accepted);
      var id := NewId(req, now);
      && (r.Ok? <==> accepted)
      && (r.Ok? ==> GetByIdSpec(db', id) == Ok(Some(req.(id := Some(id)))))
      && (forall k | k != PrimaryKey(id) :: Lookup(db', k) == Lookup(db, k))
  {
    var id := NewId(req, now);
    var ops := [Put(PrimaryKey(id), Attributes(id, req), Unconditional)];
    if accepted {
      CommittedAt(db, ops, accepted, 0);
    }
    DecodeAttributes(id, req);
  }

  // ---------------------------------------------------------------------
  // update_return_request_status

  function StatusSet(status: string): Item {
    map["Status" := S(status)]
  }

  /** An unconditional upsert of Status: the id is not checked. */
  function UpdateStatusSpec(db: Db, id: int, status: string, accepted: bool): (Result<(), Fault>, Db) {
    var (o, db') := Commit(db, [Op.Update(PrimaryKey(id), StatusSet(status))], accepted);
    (Done(o), db')
  }

  /**
   * On a stored request the update changes only the status; on an id with
   * no request it creates a Status-only item that does not decode.
   */
  lemma UpdateStatusEffect(db: Db, id: int, st: ReturnStatus, accepted: bool)
    ensures var (r, db') := UpdateStatusSpec(db, id, st.Value(), accepted);
      && (r.Ok? <==> accepted)
      && (r.Err? ==> db' == db)
      && (r.Ok? && GetByIdSpec(db, id).Ok? && GetByIdSpec(db, id).value.Some? ==>
            GetByIdSpec(db', id) == Ok(Some(GetByIdSpec(db, id).value.value.(status := st))))
      && (r.Ok? && PrimaryKey(id) !in db ==> Lookup(db', PrimaryKey(id)) == Some(StatusSet(st.Value())) && GetByIdSpec(db', id) == Err(Malformed))
      && (forall k | k != PrimaryKey(id) :: Lookup(db', k) == Lookup(db, k))
  {
    var ops := [Op.Update(PrimaryKey(id), StatusSet(st.Value()))];
    if accepted {
      CommittedAt(db, ops, accepted, 0);
      if PrimaryKey(id) in db {
        StatusWriteDecodes(db[PrimaryKey(id)], st);
      } else {
        assert map[] + StatusSet(st.Value()) == StatusSet(st.Value());
        StatusOnlyMalformed(st);
      }
    }
  }

  /** Setting a known status on a stored request changes only its status. */
  lemma StatusWriteDecodes(item: Item, st: ReturnStatus)
    ensures Decode(item).Ok? ==> Decode(item + StatusSet(st.Value())) == Ok(Decode(item).value.(status := st))
  {
    var after := item + StatusSet(st.Value());
    assert forall a | a != "Status" :: Get(after, a) == Get(item, a);
    assert StatusOf(after) == st.Value();
  }

  /** A status alone is no request. */
  lemma StatusOnlyMalformed(st: ReturnStatus)
    ensures Decode(StatusSet(st.Value())) == Err(Malformed)
  {
    assert Get(StatusSet(st.Value()), "ID") == None;
  }

  // ---------------------------------------------------------------------
  // get_all_return_requests

  /** The filter is applied to str(Status) before decoding; an empty filter keeps every row. */
  function ListStep(filter: seq<string>, item: Item): Step<ReturnRequest, Fault> {
    if filter != [] && StatusOf(item) !in filter then Skip
    else match Decode(item)
      case Err(e) => Stop(e)
      case Ok(req) => Keep(req)
  }

  function ListSteps(filter: seq<string>, rows: seq<Row>): (steps: seq<Step<ReturnRequest, Fault>>)
    ensures |steps| == |rows|
    ensures forall i | 0 <= i < |rows| :: steps[i] == ListStep(filter, rows[i].item)
  {
    seq(|rows|, i requires 0 <= i < |rows| => ListStep(filter, rows[i].item))
  }

  function GetAllSpec(rows: seq<Row>, filter: seq<string>): Result<seq<ReturnRequest>, Fault> {
    Collect(ListSteps(filter, rows))
  }

  /** A row passes the filter when there is none or its stored status is in it. */
  predicate Passes(filter: seq<string>, item: Item) {
    filter == [] || StatusOf(item) in filter
  }

  /**
   * The listing raises exactly when a row that passes the filter does not
   * decode; otherwise it holds exactly the decoded passing rows.
   */
  lemma GetAllMembers(rows: seq<Row>, filter: seq<string>, req: ReturnRequest)
    ensures GetAllSpec(rows, filter).Ok? <==>
      forall i | 0 <= i < |rows| :: Passes(filter, rows[i].item) ==> Decode(rows[i].item).Ok?
    ensures GetAllSpec(rows, filter).Ok? ==>
      (req in GetAllSpec(rows, filter).value <==>
         exists i | 0 <= i < |rows| :: Passes(filter, rows[i].item) && Decode(rows[i].item) == Ok(req))
  {
    var steps := ListSteps(filter, rows);
    CollectOk(steps);
    assert forall i | 0 <= i < |rows| :: steps[i].Stop? <==> Passes(filter, rows[i].item) && Decode(rows[i].item).Err?;
    if NoStop(steps) {
      CollectNoStop(steps);
      KeptMember(steps, req);
      assert forall i | 0 <= i < |rows| ::
        steps[i] == Keep(req) <==> Passes(filter, rows[i].item) && Decode(rows[i].item) == Ok(req);
    }
  }

  /** With a filter every listed request has one of the filter's statuses. */
  lemma GetAllFiltered(rows: seq<Row>, filter: seq<string>, req: ReturnRequest)
    requires filter != [] && GetAllSpec(rows, filter).Ok?
    requires req in GetAllSpec(rows, filter).value
    ensures req.status.Value() in filter
  {
    GetAllMembers(rows, filter, req);
  }

  /**
   * After a status update of an id with no request, every listing the new
   * status passes raises.
   */
  lemma GetAllAfterUpdateOfMissing(db: Db, id: int, st: ReturnStatus, accepted: bool, rows: seq<Row>, filter: seq<string>)
    requires PrimaryKey(id) !in db
    requires UpdateStatusSpec(db, id, st.Value(), accepted).0.Ok?
    requires filter == [] || st.Value() in filter
    requires IsQueryResult(UpdateStatusSpec(db, id, st.Value(), accepted).1, Partition, "", rows)
    ensures GetAllSpec(rows, filter).Err?
  {
    var db' := UpdateStatusSpec(db, id, st.Value(), accepted).1;
    UpdateStatusEffect(db, id, st, accepted);
    assert Matches(PrimaryKey(id), Partition, "");
    var i :| 0 <= i < |rows| && rows[i].key == PrimaryKey(id);
    assert Passes(filter, rows[i].item) && Decode(rows[i].item).Err?;
    GetAllMembers(rows, filter, ReturnRequest(None, 1, 1, ReturnStatus.Pending));
  }

  // ---------------------------------------------------------------------
  // The repository

  class ReturnRequestRepo {
    const table: Table

    constructor (table: Table)
      ensures this.table == table
    {
      this.table := table;
    }

    /** create_return_request; `now` stands for the time.time_ns() reading. */
    method CreateReturnRequest(req: ReturnRequest, now: int) returns (r: Result<(), Fault>, ghost accepted: bool)
      modifies table
      ensures (r, table.items) == CreateSpec(old(table.items), req, now, accepted)
    {
      var rid := if Truthy(req.id) then req.id.value else now;
      var o;
      o, accepted := table.PutItem(PrimaryKey(rid), Attributes(rid, req));
      r := Done(o);
    }

    /** update_return_request_status. */
    method UpdateReturnRequestStatus(id: int, status: string) returns (r: Result<(), Fault>, ghost accepted: bool)
      modifies table
      ensures (r, table.items) == UpdateStatusSpec(old(table.items), id, status, accepted)
    {
      var o;
      o, accepted := table.UpdateItem(PrimaryKey(id), StatusSet(status));
      r := Done(o);
    }

    /** get_all_return_requests; a missing filter list is the empty one. */
    method GetAllReturnRequests(filter: seq<string>) returns (r: Result<seq<ReturnRequest>, Fault>, ghost rows: seq<Row>)
      ensures IsQueryResult(table.items, Partition, "", rows)
      ensures r == GetAllSpec(rows, filter)
    {
      var items := table.Query(Partition, "");
      rows := items;
      ghost var steps := ListSteps(filter, items);
      var requests: seq<ReturnRequest> := [];
      var i := 0;
      while i < |items|
        invariant 0 <= i <= |items|
        invariant Collect(steps[..i]) == Ok(requests)
      {
        CollectNext(steps, i);
        var status := StatusOf(items[i].item);
        if filter == [] || status in filter {
          var decoded := Decode(items[i].item);
          if decoded.Err? {
            CollectErrSticky(steps, i + 1);
            return Err(decoded.error), rows;
          }
          requests := requests + [decoded.value];
        }
        i := i + 1;
      }
      assert steps[..i] == steps;
      r := Ok(requests);
    }

    /** save: a no-op; every write above is already persisted. */
    method Save()
      ensures table.items == old(table.items)
    {
    }

    /** get_return_request_by_id. */
    method GetReturnRequestById(id: int) returns (r: Result<Option<ReturnRequest>, Fault>)
      ensures r == GetByIdSpec(table.items, id)
    {
      var found := table.GetItem(PrimaryKey(id));
      if found.None? {
        return Ok(None);
      }
      var decoded := Decode(found.value);
      if decoded.Err? {
        return Err(decoded.error);
      }
      r := Ok(Some(decoded.value));
    }
  }
}
