/**
 * Feedback in the shared table: one item per feedback under
 * (FEEDBACK, FEEDBACK#id); the listing reads the whole partition.
 */
module FeedbackRepository {
  import opened Wrappers
  import opened Dynamo
  import opened Listing
  import opened Models

  const Partition: string := "FEEDBACK"

  function ItemKey(id: int): Key {
    Key(Partition, "FEEDBACK#" + Str(id))
  }

  /** The attributes create_feedback writes (CreatedAt aside). */
  function Attributes(id: int, f: Feedback): Item {
    map["ID" := N(id), "GivenBy" := N(f.givenBy), "GivenTo" := N(f.givenTo), "Text" := S(f.text),
        "Rating" := N(f.rating)]
  }

  /** Reading a feedback back: int() of the numbers, then the record's validation. */
  function Decode(item: Item): (r: Result<Feedback, Fault>)
    ensures r.Err? ==> r.error == Malformed
    ensures r.Ok? ==> ValidFeedback(r.value) && r.value.id == IntOf(Get(item, "ID"))
  {
    var id := IntOf(Get(item, "ID"));
    var giver := IntOf(Get(item, "GivenBy"));
    var receiver := IntOf(Get(item, "GivenTo"));
    var text := TextOf(Get(item, "Text"));
    var rating := IntOf(Get(item, "Rating"));
    if id.None? || giver.None? || receiver.None? || text.None? || rating.None? then Err(Malformed)
    else
      var f := Feedback(Some(id.value), giver.value, receiver.value, text.value, rating.value);
      if ValidFeedback(f) then Ok(f) else Err(Malformed)
  }

  lemma DecodeAttributes(id: int, f: Feedback)
    requires ValidFeedback(f)
    ensures Decode(Attributes(id, f)) == Ok(f.(id := Some(id)))
  {
  }

  // ---------------------------------------------------------------------
  // create_feedback

  /** `feedback.id if feedback.id else time.time_ns()`. */
  function NewId(f: Feedback, now: int): int {
    if Truthy(f.id) then f.id.value else now
  }

  function CreateSpec(db: Db, f: Feedback, now: int, accepted: bool): (Result<(), Fault>, Db) {
    var id := NewId(f, now);
    var (o, db') := Commit(db, [Put(ItemKey(id), Attributes(id, f), Unconditional)], accepted);
    (Done(o), db')
  }

  /** A single unconditional put: it overwrites, and it changes nothing else. */
  lemma CreateEffect(db: Db, f: Feedback, now: int, accepted: bool)
    ensures var (r, db') := CreateSpec(db, f, now, accepted);
      var id := NewId(f, now);
      && (r.Ok? <==> accepted)
      && (r.Err? ==> db' == db)
      && (r.Ok? ==> Lookup(db', ItemKey(id)) == Some(Attributes(id, f)))
      && (forall k | k != ItemKey(id) :: Lookup(db', k) == Lookup(db, k))
  {
    var id := NewId(f, now);
    if accepted {
      CommittedAt(db, [Put(ItemKey(id), Attributes(id, f), Unconditional)], accepted, 0);
    }
  }

  // ---------------------------------------------------------------------
  // get_all_feedbacks

  function ListStep(item: Item): Step<Feedback, Fault> {
    match Decode(item)
    case Err(e) => Stop(e)
    case Ok(f) => Keep(f)
  }

  function ListSteps(rows: seq<Row>): (steps: seq<Step<Feedback, Fault>>)
    ensures |steps| == |rows|
    ensures forall i | 0 <= i < |rows| :: steps[i] == ListStep(rows[i].item)
  {
    seq(|rows|, i requires 0 <= i < |rows| => ListStep(rows[i].item))
  }

  function GetAllSpec(rows: seq<Row>): Result<seq<Feedback>, Fault> {
    Collect(ListSteps(rows))
  }

  /**
   * The listing raises exactly when some row does not decode; otherwise it
   * holds exactly the decoded rows.
   */
  lemma GetAllMembers(rows: seq<Row>, f: Feedback)
    ensures GetAllSpec(rows).Ok? <==> forall i | 0 <= i < |rows| :: Decode(rows[i].item).Ok?
    ensures GetAllSpec(rows).Ok? ==>
      (f in GetAllSpec(rows).value <==> exists i | 0 <= i < |rows| :: Decode(rows[i].item) == Ok(f))
  {
    var steps := ListSteps(rows);
    CollectOk(steps);
    assert forall i | 0 <= i < |rows| :: steps[i].Stop? <==> Decode(rows[i].item).Err?;
    if NoStop(steps) {
      CollectNoStop(steps);
      KeptMember(steps, f);
      assert forall i | 0 <= i < |rows| :: steps[i] == Keep(f) <==> Decode(rows[i].item) == Ok(f);
    }
  }

  /** A created feedback is listed by every later listing that does not raise. */
  lemma CreateThenListed(db: Db, f: Feedback, now: int, accepted: bool, rows: seq<Row>)
    requires ValidFeedback(f)
    requires CreateSpec(db, f, now, accepted).0.Ok?
    requires IsQueryResult(CreateSpec(db, f, now, accepted).1, Partition, "", rows)
    requires GetAllSpec(rows).Ok?
    ensures f.(id := Some(NewId(f, now))) in GetAllSpec(rows).value
  {
    var id := NewId(f, now);
    CreateEffect(db, f, now, accepted);
    DecodeAttributes(id, f);
    assert Matches(ItemKey(id), Partition, "");
    var i :| 0 <= i < |rows| && rows[i].key == ItemKey(id);
    GetAllMembers(rows, f.(id := Some(id)));
  }

  // ---------------------------------------------------------------------
  // The repository

  class FeedbackRepo {
    const table: Table

    constructor (table: Table)
      ensures this.table == table
    {
      this.table := table;
    }

    /** create_feedback; `now` stands for the time.time_ns() reading. */
    method CreateFeedback(f: Feedback, now: int) returns (r: Result<(), Fault>, ghost accepted: bool)
      modifies table
      ensures (r, table.items) == CreateSpec(old(table.items), f, now, accepted)
    {
      var fid := if Truthy(f.id) then f.id.value else now;
      var o;
      o, accepted := table.PutItem(ItemKey(fid), Attributes(fid, f));
      r := Done(o);
    }

    /** get_all_feedbacks: the whole partition, decoded row by row. */
    method GetAllFeedbacks() returns (r: Result<seq<Feedback>, Fault>, ghost rows: seq<Row>)
      ensures IsQueryResult(table.items, Partition, "", rows)
      ensures r == GetAllSpec(rows)
    {
      var items := table.Query(Partition, "");
      rows := items;
      ghost var steps := ListSteps(items);
      var feedbacks: seq<Feedback> := [];
      var i := 0;
      while i < |items|
        invariant 0 <= i <= |items|
        invariant Collect(steps[..i]) == Ok(feedbacks)
      {
        CollectNext(steps, i);
        var decoded := Decode(items[i].item);
        if decoded.Err? {
          CollectErrSticky(steps, i + 1);
          return Err(decoded.error), rows;
        }
        feedbacks := feedbacks + [decoded.value];
        i := i + 1;
      }
      assert steps[..i] == steps;
      r := Ok(feedbacks);
    }
  }
}
