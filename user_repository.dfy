/**
 * Users in the shared table.  Registration writes four copies of a user,
 * each only where no item exists yet:
 *   (USER, ID#id), (USER, EMAIL#email), (USER, ROLE#role#USER#id) and
 *   (SOCIETY#society, USER#ID#id).
 * Promotion to lender and deletion look for the role and society copies
 * under other sort keys, (USER, ROLE#role#ID#id) and (SOCIETY#society,
 * USER#id), so the copies registration wrote are never removed.
 */
module UserRepository {
  import opened Wrappers
  import opened Dynamo
  import opened Listing
  import opened Models

  const Partition: string := "USER"

  function IdKey(id: int): Key {
    Key(Partition, "ID#" + Str(id))
  }

  function EmailKey(email: string): Key {
    Key(Partition, "EMAIL#" + email)
  }

  /** The role copy registration writes. */
  function CreatedRoleKey(role: string, id: int): Key {
    Key(Partition, "ROLE#" + role + "#USER#" + Str(id))
  }

  /** The role copy promotion writes and removes, and deletion removes. */
  function RoleKey(role: string, id: int): Key {
    Key(Partition, "ROLE#" + role + "#ID#" + Str(id))
  }

  /** The name copy deletion removes; nothing writes one. */
  function NameKey(lowered: string, id: int): Key {
    Key(Partition, "NAME#" + lowered + "#ID#" + Str(id))
  }

  /** The society copy registration writes. */
  function SocietyKey(society: int, id: int): Key {
    Key("SOCIETY#" + Str(society), "USER#ID#" + Str(id))
  }

  /** The society copy deletion removes. */
  function SocietyDeleteKey(society: int, id: int): Key {
    Key("SOCIETY#" + Str(society), "USER#" + Str(id))
  }

  function Keys(id: int, u: User): seq<Key> {
    [IdKey(id), EmailKey(u.email), CreatedRoleKey(u.role.Value(), id), SocietyKey(u.societyId, id)]
  }

  /** The attributes every copy carries (CreatedAt is not modelled). */
  function Attributes(id: int, u: User): Item {
    map["ID" := N(id), "FullName" := S(u.fullName), "Email" := S(u.email),
        "PhoneNumber" := S(u.phoneNumber), "Address" := S(u.address),
        "PasswordHash" := S(u.passwordHash), "SocietyID" := N(u.societyId),
        "Role" := S(u.role.Value())]
  }

  /** Building a User from a stored item: every field is required. */
  function Decode(item: Item): (r: Result<User, Fault>)
    ensures r.Err? ==> r.error == Malformed
    ensures r.Ok? ==> r.value.id == IntOf(Get(item, "ID")) && Get(item, "Role") == Some(S(r.value.role.Value()))
  {
    var id := IntOf(Get(item, "ID"));
    var fullName := TextOf(Get(item, "FullName"));
    var email := TextOf(Get(item, "Email"));
    var phone := TextOf(Get(item, "PhoneNumber"));
    var address := TextOf(Get(item, "Address"));
    var hash := TextOf(Get(item, "PasswordHash"));
    var society := IntOf(Get(item, "SocietyID"));
    var roleText := TextOf(Get(item, "Role"));
    var role := if roleText.Some? then ParseRole(roleText.value) else None;
    if id.None? || fullName.None? || email.None? || phone.None? || address.None? || hash.None?
       || society.None? || role.None?
    then Err(Malformed)
    else Ok(User(Some(id.value), fullName.value, email.value, phone.value, address.value,
                 hash.value, society.value, role.value))
  }

  lemma DecodeAttributes(id: int, u: User)
    ensures Decode(Attributes(id, u)) == Ok(u.(id := Some(id)))
  {
  }

  /** Python's str(i) never begins with the 'I' of "ID#". */
  lemma StrHead(i: int)
    ensures Str(i)[0] != 'I'
  {
    if i >= 0 {
      assert Str(i) == NatStr(i);
    }
  }

  lemma IdKeyInjective(a: int, b: int)
    requires IdKey(a) == IdKey(b)
    ensures a == b
  {
    DropCommonPrefix("ID#", Str(a), Str(b));
    StrInjective(a, b);
  }

  /** Keys outside the USER partition. */
  lemma SocietyPartitionDiffers(s: int)
    ensures "SOCIETY#" + Str(s) != Partition
  {
    assert ("SOCIETY#" + Str(s))[0] == 'S';
  }

  /** What follows the role in a ROLE# sort key. */
  lemma AfterRole(r: string, tag: string, t: string)
    requires HashFree(r)
    ensures AfterHash(("ROLE#" + r + ("#" + tag) + t)[5..]) == tag + t
  {
    var x := "ROLE#" + r + ("#" + tag) + t;
    assert x == "ROLE#" + (r + "#" + (tag + t));
    assert x[5..] == r + "#" + (tag + t);
    AfterHashOf(r, tag + t);
  }

  /** The role copy registration writes is never the one promotion or deletion removes. */
  lemma CreatedRoleKeyIsNotRoleKey(r: string, id: int, r': string, id': int)
    requires HashFree(r) && HashFree(r')
    ensures CreatedRoleKey(r, id) != RoleKey(r', id')
  {
    assert "#USER#" == "#" + "USER#";
    assert "#ID#" == "#" + "ID#";
    AfterRole(r, "USER#", Str(id));
    AfterRole(r', "ID#", Str(id'));
    assert AfterHash(CreatedRoleKey(r, id).sk[5..])[0] == 'U';
    assert AfterHash(RoleKey(r', id').sk[5..])[0] == 'I';
  }

  /** Two role copies of one user differ exactly when their roles do. */
  lemma RoleKeySameId(r: string, r': string, id: int)
    requires RoleKey(r, id) == RoleKey(r', id)
    ensures r == r'
  {
    Regroup("ROLE#", r, "#ID#", Str(id));
    Regroup("ROLE#", r', "#ID#", Str(id));
    DropCommonSuffix("ROLE#" + r, "ROLE#" + r', "#ID#" + Str(id));
    DropCommonPrefix("ROLE#", r, r');
  }

  /** The society copy deletion removes is never the one registration wrote. */
  lemma SocietyKeysDiffer(s: int, id: int, s': int, id': int)
    ensures SocietyKey(s, id) != SocietyDeleteKey(s', id')
  {
    assert SocietyKey(s, id).sk[5] == 'I';
    StrHead(id');
    assert SocietyDeleteKey(s', id').sk[5] == Str(id')[0];
  }

  /** The four copies registration writes are four different items. */
  lemma KeysDistinct(id: int, u: User)
    ensures forall i, j | 0 <= i < j < 4 :: Keys(id, u)[i] != Keys(id, u)[j]
  {
    var ks := Keys(id, u);
    SkHeadsDiffer("ID#", Str(id), "EMAIL#", u.email);
    SkHeadsDiffer("ID#", Str(id), "ROLE#", u.role.Value() + "#USER#" + Str(id));
    SkHeadsDiffer("EMAIL#", u.email, "ROLE#", u.role.Value() + "#USER#" + Str(id));
    Regroup("ROLE#", u.role.Value(), "#USER#", Str(id));
    SocietyPartitionDiffers(u.societyId);
  }

  // ---------------------------------------------------------------------
  // find_by_email

  /**
   * A failed read is UserRepositoryError, a missing email UserNotFound;
   * `answered` is false when the read itself fails.
   */
  function FindByEmailSpec(db: Db, email: string, answered: bool): Result<User, Fault> {
    if !answered then Err(UserRepositoryError)
    else match Lookup(db, EmailKey(email))
      case None => Err(UserNotFound)
      case Some(item) => Decode(item)
  }

  // ---------------------------------------------------------------------
  // find_by_id

  function FindByIdSpec(db: Db, id: int): Result<Option<User>, Fault> {
    match Lookup(db, IdKey(id))
    case None => Ok(None)
    case Some(item) =>
      match Decode(item)
      case Err(e) => Err(e)
      case Ok(u) => Ok(Some(u))
  }

  // ---------------------------------------------------------------------
  // create

  function CreateOps(id: int, u: User): seq<Op> {
    var it := Attributes(id, u);
    [Put(IdKey(id), it, IfAbsent), Put(EmailKey(u.email), it, IfAbsent),
     Put(CreatedRoleKey(u.role.Value(), id), it, IfAbsent), Put(SocietyKey(u.societyId, id), it, IfAbsent)]
  }

  /** A cancelled transaction means a copy existed; any other failure is the store's. */
  function CreateFault(e: StoreError): (f: Fault)
    ensures f == UserAlreadyExists <==> e == TransactionCanceled
    ensures f != UserAlreadyExists ==> f == UserRepositoryError
  {
    if e == TransactionCanceled then UserAlreadyExists else UserRepositoryError
  }

  /** The id is always the clock reading `now`; the result is the id given to the user. */
  function CreateSpec(db: Db, u: User, now: int, accepted: bool): (Result<int, Fault>, Db) {
    var (o, db') := Commit(db, CreateOps(now, u), accepted);
    (if o.Committed? then Ok(now) else Err(CreateFault(o.error)), db')
  }

  lemma CreateOpsShape(id: int, u: User)
    ensures var ops := CreateOps(id, u);
      && |ops| == 4 && DistinctKeys(ops)
      && forall i | 0 <= i < 4 :: ops[i] == Put(Keys(id, u)[i], Attributes(id, u), IfAbsent)
  {
    KeysDistinct(id, u);
    var ops := CreateOps(id, u);
    assert forall i | 0 <= i < 4 :: ops[i].key == Keys(id, u)[i];
  }

  /**
   * Registration writes all four copies or none: it fails with
   * UserAlreadyExists exactly when one of them already exists.
   */
  lemma CreateEffect(db: Db, u: User, now: int, accepted: bool)
    ensures var (r, db') := CreateSpec(db, u, now, accepted);
      && (r.Ok? <==> accepted && forall k | k in Keys(now, u) :: k !in db)
      && (r == Err(UserAlreadyExists) <==> accepted && exists k | k in Keys(now, u) :: k in db)
      && (r == Err(UserRepositoryError) <==> !accepted)
      && (r.Err? ==> db' == db)
      && (r.Ok? ==> r.value == now && forall k | k in Keys(now, u) :: Lookup(db', k) == Some(Attributes(now, u)))
      && (r.Ok? ==> forall k | k !in Keys(now, u) :: Lookup(db', k) == Lookup(db, k))
  {
    var ops := CreateOps(now, u);
    var ks := Keys(now, u);
    CreateOpsShape(now, u);
    assert ConditionsHold(db, ops) <==> forall k | k in ks :: k !in db by {
      assert forall k | k in ks :: exists i | 0 <= i < 4 :: ops[i].key == k;
    }
    var (o, db') := Commit(db, ops, accepted);
    if o == Committed {
      CommittedAll(db, ops, accepted);
      forall k | k !in ks ensures !Touches(ops, k) {}
    }
  }

  /** A second registration with a stored email is refused and writes nothing. */
  lemma EmailTaken(db: Db, u: User, now: int, accepted: bool)
    requires EmailKey(u.email) in db
    ensures CreateSpec(db, u, now, accepted).0.Err?
    ensures CreateSpec(db, u, now, accepted).1 == db
  {
    CreateEffect(db, u, now, accepted);
    assert EmailKey(u.email) == Keys(now, u)[1];
  }

  /** A registered user is found again by id and by email. */
  lemma CreateThenFind(db: Db, u: User, now: int, accepted: bool)
    requires CreateSpec(db, u, now, accepted).0.Ok?
    ensures var db' := CreateSpec(db, u, now, accepted).1;
      && FindByIdSpec(db', now) == Ok(Some(u.(id := Some(now))))
      && FindByEmailSpec(db', u.email, true) == Ok(u.(id := Some(now)))
  {
    CreateEffect(db, u, now, accepted);
    assert IdKey(now) == Keys(now, u)[0] && EmailKey(u.email) == Keys(now, u)[1];
    DecodeAttributes(now, u);
  }

  // ---------------------------------------------------------------------
  // Reading the stored record the way become_lender and delete_by_id do

  /** str(doc.get("Role", "")).lower(): a missing Role reads as "". */
  function RoleText(item: Item): string {
    if "Role" in item then Lower(StrOf(Some(item["Role"]))) else ""
  }

  /** str(doc.get("Name")) when present, "" otherwise. */
  function NameText(item: Item): string {
    if "Name" in item then StrOf(Some(item["Name"])) else ""
  }

  /** int(SocietyID) unless it is missing or ""; Err when int() raises. */
  function SocietyOf(item: Item): (r: Result<Option<int>, Fault>)
    ensures r.Err? ==> r.error == Malformed
  {
    var v := Get(item, "SocietyID");
    if v.None? || v == Some(S("")) then Ok(None)
    else match IntOf(v)
      case None => Err(Malformed)
      case Some(n) => Ok(Some(n))
  }

  // ---------------------------------------------------------------------
  // become_lender

  const LenderText: string := LenderRole.Value()

  function LenderSet(): Item {
    map["Role" := S(LenderText)]
  }

  /** The partial copy promotion puts: only Role and ID. */
  function LenderCopy(id: int): Item {
    map["Role" := S(LenderText), "ID" := N(id)]
  }

  function BecomeLenderOps(id: int, oldRole: string): seq<Op> {
    (if oldRole != "" then [Delete(RoleKey(oldRole, id))] else [])
    + [Op.Update(IdKey(id), LenderSet()), Put(RoleKey(LenderText, id), LenderCopy(id), Unconditional)]
  }

  function BecomeLenderSpec(db: Db, id: int, accepted: bool): (Result<(), Fault>, Db) {
    match Lookup(db, IdKey(id))
    case None => (Err(Fail("user not found")), db)
    case Some(item) =>
      if SocietyOf(item).Err? then (Err(Malformed), db)
      else
        var (o, db') := Commit(db, BecomeLenderOps(id, RoleText(item)), accepted);
        (Done(o), db')
  }

  /**
   * Promoting a user who is already a lender names the lender role copy
   * twice (removed and put), which the store refuses outright.
   */
  lemma BecomeLenderTwice(db: Db, id: int, accepted: bool)
    requires IdKey(id) in db && RoleText(db[IdKey(id)]) == LenderText && SocietyOf(db[IdKey(id)]).Ok?
    ensures BecomeLenderSpec(db, id, accepted) ==
      (Err(Store(if accepted then ValidationException else Unavailable)), db)
  {
    var ops := BecomeLenderOps(id, LenderText);
    assert ops[0].key == ops[2].key;
  }

  lemma BecomeLenderOpsShape(id: int, oldRole: string)
    requires oldRole != LenderText
    ensures var ops := BecomeLenderOps(id, oldRole);
      && DistinctKeys(ops)
      && ops[|ops| - 2] == Op.Update(IdKey(id), LenderSet())
      && ops[|ops| - 1] == Put(RoleKey(LenderText, id), LenderCopy(id), Unconditional)
      && (oldRole != "" ==> |ops| == 3 && ops[0] == Delete(RoleKey(oldRole, id)))
      && (oldRole == "" ==> |ops| == 2)
      && forall k | Touches(ops, k) :: k == IdKey(id) || k == RoleKey(LenderText, id) || (oldRole != "" && k == RoleKey(oldRole, id))
  {
    SkHeadsDiffer("ID#", Str(id), "ROLE#", LenderText + "#ID#" + Str(id));
    SkHeadsDiffer("ID#", Str(id), "ROLE#", oldRole + "#ID#" + Str(id));
    Regroup("ROLE#", LenderText, "#ID#", Str(id));
    Regroup("ROLE#", oldRole, "#ID#", Str(id));
    if RoleKey(oldRole, id) == RoleKey(LenderText, id) {
      RoleKeySameId(oldRole, LenderText, id);
    }
  }

  /** What a committed promotion leaves behind. */
  lemma BecomeLenderCommitted(db: Db, id: int, oldRole: string, accepted: bool)
    requires oldRole != LenderText
    requires Commit(db, BecomeLenderOps(id, oldRole), accepted).0 == Committed
    ensures var db' := Commit(db, BecomeLenderOps(id, oldRole), accepted).1;
      && Lookup(db', IdKey(id)) == Some((if IdKey(id) in db then db[IdKey(id)] else map[]) + LenderSet())
      && Lookup(db', RoleKey(LenderText, id)) == Some(LenderCopy(id))
      && (oldRole != "" ==> Lookup(db', RoleKey(oldRole, id)) == None)
      && forall k | k != IdKey(id) && k != RoleKey(LenderText, id) && (oldRole == "" || k != RoleKey(oldRole, id)) ::
           Lookup(db', k) == Lookup(db, k)
  {
    var ops := BecomeLenderOps(id, oldRole);
    BecomeLenderOpsShape(id, oldRole);
    CommittedAll(db, ops, accepted);
    assert Written(db, ops[|ops| - 2]) == Some((if IdKey(id) in db then db[IdKey(id)] else map[]) + LenderSet());
    if oldRole != "" {
      assert Written(db, ops[0]) == None;
    }
  }

  /**
   * Promotion sets Role to lender on the id copy, replaces the old
   * ROLE#role#ID#id copy by a partial lender copy, and touches nothing
   * else; the decoded user changes in its role alone.
   */
  lemma BecomeLenderEffect(db: Db, id: int, accepted: bool)
    requires IdKey(id) in db
    requires RoleText(db[IdKey(id)]) != LenderText && SocietyOf(db[IdKey(id)]).Ok?
    ensures var (r, db') := BecomeLenderSpec(db, id, accepted);
      var item := db[IdKey(id)];
      && (r.Ok? <==> accepted)
      && (r.Err? ==> db' == db)
      && (r.Ok? ==> Lookup(db', IdKey(id)) == Some(item + LenderSet()))
      && (r.Ok? ==> Lookup(db', RoleKey(LenderText, id)) == Some(LenderCopy(id)))
      && (r.Ok? && RoleText(item) != "" ==> Lookup(db', RoleKey(RoleText(item), id)) == None)
      && (r.Ok? && Decode(item).Ok? ==> FindByIdSpec(db', id) == Ok(Some(Decode(item).value.(role := LenderRole))))
  {
    var item := db[IdKey(id)];
    var old_ := RoleText(item);
    BecomeLenderOpsShape(id, old_);
    if accepted {
      BecomeLenderCommitted(db, id, old_, accepted);
      PromotedDecodes(item);
    }
  }

  /** A record with the lender role set decodes as before, now a lender. */
  lemma PromotedDecodes(item: Item)
    ensures Decode(item).Ok? ==> Decode(item + LenderSet()) == Ok(Decode(item).value.(role := LenderRole))
  {
    var after := item + LenderSet();
    assert forall a | a != "Role" :: Get(after, a) == Get(item, a);
    assert Get(after, "Role") == Some(S(LenderRole.Value()));
  }

  /** The ROLE#role#USER#id copy registration wrote survives a promotion. */
  lemma BecomeLenderKeepsCreatedRole(db: Db, id: int, role: string, accepted: bool)
    requires HashFree(role) && IdKey(id) in db && HashFree(RoleText(db[IdKey(id)]))
    requires RoleText(db[IdKey(id)]) != LenderText && SocietyOf(db[IdKey(id)]).Ok?
    requires BecomeLenderSpec(db, id, accepted).0.Ok?
    ensures Lookup(BecomeLenderSpec(db, id, accepted).1, CreatedRoleKey(role, id)) == Lookup(db, CreatedRoleKey(role, id))
  {
    var old_ := RoleText(db[IdKey(id)]);
    BecomeLenderCommitted(db, id, old_, accepted);
    CreatedRoleKeyIsNotRoleKey(role, id, LenderText, id);
    CreatedRoleKeyIsNotRoleKey(role, id, old_, id);
    SkHeadsDiffer("ID#", Str(id), "ROLE#", role + "#USER#" + Str(id));
    Regroup("ROLE#", role, "#USER#", Str(id));
  }

  // ---------------------------------------------------------------------
  // find_all

  /** The three filters after `or ""`: "" means not given. */
  datatype UserFilter = UserFilter(search: string, role: string, society: string)

  /** Society wins over role, role over search. */
  function QueryKey(f: UserFilter): (string, string) {
    if f.society != "" then ("SOCIETY#" + f.society, "USER#")
    else if f.role != "" then (Partition, "ROLE#" + Lower(f.role))
    else if f.search != "" then (Partition, "NAME#" + Lower(f.search))
    else (Partition, "ID#")
  }

  /** Only then is the name filter applied, and it reads an attribute User does not have. */
  predicate SearchOnly(f: UserFilter) {
    f.search != "" && f.role == "" && f.society == ""
  }

  function ListStep(item: Item): Step<User, Fault> {
    match Decode(item)
    case Err(e) => Stop(e)
    case Ok(u) => Keep(u)
  }

  function ListSteps(rows: seq<Row>): (steps: seq<Step<User, Fault>>)
    ensures |steps| == |rows|
    ensures forall i | 0 <= i < |rows| :: steps[i] == ListStep(rows[i].item)
  {
    seq(|rows|, i requires 0 <= i < |rows| => ListStep(rows[i].item))
  }

  const NoNameAttribute: string := "'User' object has no attribute 'name'"

  function FindAllSpec(rows: seq<Row>, f: UserFilter): Result<seq<User>, Fault> {
    match Collect(ListSteps(rows))
    case Err(e) => Err(e)
    case Ok(users) => if SearchOnly(f) && users != [] then Err(Fail(NoNameAttribute)) else Ok(users)
  }

  /**
   * The listing succeeds exactly when every row decodes and, for a
   * search-only filter, there is no row at all; it then lists exactly the
   * decoded rows.
   */
  lemma FindAllMembers(rows: seq<Row>, f: UserFilter, u: User)
    ensures FindAllSpec(rows, f).Ok? <==>
      (forall i | 0 <= i < |rows| :: Decode(rows[i].item).Ok?) && (SearchOnly(f) ==> rows == [])
    ensures FindAllSpec(rows, f).Ok? ==>
      (u in FindAllSpec(rows, f).value <==> exists i | 0 <= i < |rows| :: Decode(rows[i].item) == Ok(u))
  {
    var steps := ListSteps(rows);
    CollectOk(steps);
    ListStepsStop(rows);
    if NoStop(steps) {
      ListStepsKept(rows, u);
    }
  }

  lemma ListStepsStop(rows: seq<Row>)
    ensures NoStop(ListSteps(rows)) <==> forall i | 0 <= i < |rows| :: Decode(rows[i].item).Ok?
  {
    var steps := ListSteps(rows);
    assert forall i | 0 <= i < |rows| :: steps[i].Stop? <==> Decode(rows[i].item).Err?;
  }

  lemma ListStepsKept(rows: seq<Row>, u: User)
    requires NoStop(ListSteps(rows))
    ensures Collect(ListSteps(rows)) == Ok(Kept(ListSteps(rows)))
    ensures u in Kept(ListSteps(rows)) <==> exists i | 0 <= i < |rows| :: Decode(rows[i].item) == Ok(u)
    ensures rows != [] ==> Kept(ListSteps(rows)) != []
  {
    var steps := ListSteps(rows);
    CollectNoStop(steps);
    KeptMember(steps, u);
    assert forall i | 0 <= i < |rows| :: steps[i] == Keep(u) <==> Decode(rows[i].item) == Ok(u);
    if rows != [] {
      assert steps[0] == Keep(Decode(rows[0].item).value);
      KeptMember(steps, Decode(rows[0].item).value);
    }
  }

  /** A search-only listing never returns a user. */
  lemma SearchOnlyListsNobody(rows: seq<Row>, f: UserFilter)
    requires SearchOnly(f) && FindAllSpec(rows, f).Ok?
    ensures FindAllSpec(rows, f).value == []
  {
    FindAllMembers(rows, f, User(None, "", "", "", "", "", 0, UserRole));
  }

  /**
   * After a promotion, listing lenders by role raises: the partial lender
   * copy matches ROLE#lender and does not decode.
   */
  lemma LenderListingFailsAfterPromotion(db: Db, id: int, accepted: bool, rows: seq<Row>, f: UserFilter)
    requires IdKey(id) in db
    requires RoleText(db[IdKey(id)]) != LenderText && SocietyOf(db[IdKey(id)]).Ok?
    requires BecomeLenderSpec(db, id, accepted).0.Ok?
    requires f.society == "" && Lower(f.role) == LenderText
    requires IsQueryResult(BecomeLenderSpec(db, id, accepted).1, QueryKey(f).0, QueryKey(f).1, rows)
    ensures FindAllSpec(rows, f).Err?
  {
    BecomeLenderEffect(db, id, accepted);
    assert f.role != "" by {
      assert |Lower(f.role)| == |f.role|;
    }
    LenderCopyListedMalformed(id);
    var i :| 0 <= i < |rows| && rows[i].key == RoleKey(LenderText, id);
    FindAllMembers(rows, f, User(None, "", "", "", "", "", 0, UserRole));
  }

  /** The partial lender copy lies under the lender role prefix and is no user. */
  lemma LenderCopyListedMalformed(id: int)
    ensures Matches(RoleKey(LenderText, id), Partition, "ROLE#" + LenderText)
    ensures Decode(LenderCopy(id)).Err?
  {
    Regroup("ROLE#", LenderText, "#ID#", Str(id));
    assert Get(LenderCopy(id), "FullName") == None;
  }


  // ---------------------------------------------------------------------
  // delete_by_id

  /** One delete when the condition holds, none otherwise. */
  function Removal(when: bool, k: Key): (ops: seq<Op>)
    ensures |ops| <= 1 && (when <==> |ops| == 1)
    ensures forall i | 0 <= i < |ops| :: ops[i] == Delete(k)
  {
    if when then [Delete(k)] else []
  }

  /** `int(society_id)` of a present society id; only used when it is truthy. */
  function SocietyNumber(society: Option<int>): int {
    if society.Some? then society.value else 0
  }

  /** The copies deletion removes; the ROLE and NAME copies only when the text is non-empty. */
  function DeleteOps(id: int, role: string, name: string, society: Option<int>): seq<Op> {
    [Delete(IdKey(id))]
    + Removal(role != "", RoleKey(role, id))
    + Removal(name != "", NameKey(Lower(name), id))
    + Removal(Truthy(society), SocietyDeleteKey(SocietyNumber(society), id))
  }

  function DeletedKeys(id: int, role: string, name: string, society: Option<int>): set<Key> {
    {IdKey(id)}
    + (if role != "" then {RoleKey(role, id)} else {})
    + (if name != "" then {NameKey(Lower(name), id)} else {})
    + (if Truthy(society) then {SocietyDeleteKey(SocietyNumber(society), id)} else {})
  }

  function DeleteSpec(db: Db, id: int, accepted: bool): (Result<(), Fault>, Db) {
    match Lookup(db, IdKey(id))
    case None => (Ok(()), db)
    case Some(item) =>
      match SocietyOf(item)
      case Err(e) => (Err(e), db)
      case Ok(s) =>
        var (o, db') := Commit(db, DeleteOps(id, RoleText(item), NameText(item), s), accepted);
        (Done(o), db')
  }

  lemma DeleteOpsDistinct(id: int, role: string, name: string, society: Option<int>)
    ensures DistinctKeys(DeleteOps(id, role, name, society))
  {
    var a := IdKey(id);
    var b := RoleKey(role, id);
    var c := NameKey(Lower(name), id);
    var d := SocietyDeleteKey(SocietyNumber(society), id);
    assert a.sk[0] == 'I' && b.sk[0] == 'R' && c.sk[0] == 'N';
    SocietyPartitionDiffers(SocietyNumber(society));
    RemovalsDistinct(a, b, c, d, role != "", name != "", Truthy(society));
  }

  /** A delete of one key followed by optional deletes of three others, all four different. */
  lemma RemovalsDistinct(a: Key, b: Key, c: Key, d: Key, p: bool, q: bool, r: bool)
    requires a != b && a != c && a != d && b != c && b != d && c != d
    ensures DistinctKeys([Delete(a)] + Removal(p, b) + Removal(q, c) + Removal(r, d))
  {
    var xs := [Delete(a)];
    var rs := Removal(p, b);
    var ns := Removal(q, c);
    var ss := Removal(r, d);
    DistinctConcat(xs, rs);
    assert forall i | 0 <= i < |xs + rs| :: (xs + rs)[i].key in {a, b};
    DistinctConcat(xs + rs, ns);
    assert forall i | 0 <= i < |xs + rs + ns| :: (xs + rs + ns)[i].key in {a, b, c};
    DistinctConcat(xs + rs + ns, ss);
  }


  lemma DeleteOpsKeys(id: int, role: string, name: string, society: Option<int>)
    ensures var ops := DeleteOps(id, role, name, society);
      && ops[0] == Delete(IdKey(id))
      && forall i | 0 <= i < |ops| :: ops[i].Delete? && ops[i].key in DeletedKeys(id, role, name, society)
  {
  }

  /**
   * Deleting an absent user succeeds without writing; otherwise the
   * deletion succeeds exactly when the store accepts it, removes the id
   * copy, and touches nothing but the copies it names.
   */
  lemma DeleteEffect(db: Db, id: int, accepted: bool)
    ensures var (r, db') := DeleteSpec(db, id, accepted);
      && (IdKey(id) !in db ==> r.Ok? && db' == db)
      && (IdKey(id) in db && SocietyOf(db[IdKey(id)]).Ok? ==> (r.Ok? <==> accepted))
      && (r.Err? ==> db' == db)
      && (r.Ok? ==> IdKey(id) !in db')
      && (IdKey(id) in db && SocietyOf(db[IdKey(id)]).Ok? ==>
            var item := db[IdKey(id)];
            forall k | k !in DeletedKeys(id, RoleText(item), NameText(item), SocietyOf(item).value) ::
              Lookup(db', k) == Lookup(db, k))
  {
    if IdKey(id) in db && SocietyOf(db[IdKey(id)]).Ok? {
      var item := db[IdKey(id)];
      var society := SocietyOf(item).value;
      var ops := DeleteOps(id, RoleText(item), NameText(item), society);
      DeleteOpsDistinct(id, RoleText(item), NameText(item), society);
      DeleteOpsKeys(id, RoleText(item), NameText(item), society);
      assert ConditionsHold(db, ops);
      if accepted {
        CommittedAt(db, ops, accepted, 0);
        forall k | k !in DeletedKeys(id, RoleText(item), NameText(item), society)
          ensures !Touches(ops, k)
        {
        }
      }
    }
  }

  /** Deleting a registered user's record removes none of its email, role or society copies. */
  lemma CreatedCopiesNotDeleted(id: int, u: User)
    ensures forall k | k in Keys(id, u)[1..] :: k !in DeletedKeys(id, u.role.Value(), "", Some(u.societyId))
  {
    var role := u.role.Value();
    var ks := Keys(id, u);
    assert ks[1..] == [EmailKey(u.email), CreatedRoleKey(role, id), SocietyKey(u.societyId, id)];
    EmailCopyNotDeleted(id, u.email, role, u.societyId);
    RoleCopyNotDeleted(id, role, u.societyId);
    SocietyCopyNotDeleted(id, role, u.societyId);
  }

  lemma EmailCopyNotDeleted(id: int, email: string, role: string, society: int)
    ensures EmailKey(email) !in DeletedKeys(id, role, "", Some(society))
  {
    assert EmailKey(email).sk[0] == 'E';
    assert IdKey(id).sk[0] == 'I' && RoleKey(role, id).sk[0] == 'R';
    SocietyPartitionDiffers(society);
  }

  lemma RoleCopyNotDeleted(id: int, role: string, society: int)
    requires HashFree(role)
    ensures CreatedRoleKey(role, id) !in DeletedKeys(id, role, "", Some(society))
  {
    CreatedRoleKeyIsNotRoleKey(role, id, role, id);
    assert CreatedRoleKey(role, id).sk[0] == 'R' && IdKey(id).sk[0] == 'I';
    SocietyPartitionDiffers(society);
  }

  lemma SocietyCopyNotDeleted(id: int, role: string, society: int)
    ensures SocietyKey(society, id) !in DeletedKeys(id, role, "", Some(society))
  {
    SocietyKeysDiffer(society, id, society, id);
    SocietyPartitionDiffers(society);
  }


  /**
   * Deleting a freshly registered user removes only the id copy: the
   * email, role and society copies stay and the user is still found by
   * email.
   */
  lemma DeleteAfterCreateKeepsCopies(db: Db, u: User, now: int, accepted: bool, accepted': bool)
    requires CreateSpec(db, u, now, accepted).0.Ok?
    ensures var db1 := CreateSpec(db, u, now, accepted).1;
      var (r, db2) := DeleteSpec(db1, now, accepted');
      && (r.Ok? <==> accepted')
      && (r.Ok? ==> FindByIdSpec(db2, now) == Ok(None))
      && (forall k | k in Keys(now, u)[1..] :: Lookup(db2, k) == Some(Attributes(now, u)))
      && FindByEmailSpec(db2, u.email, true) == Ok(u.(id := Some(now)))
  {
    var db1 := CreateSpec(db, u, now, accepted).1;
    CreateEffect(db, u, now, accepted);
    var ks := Keys(now, u);
    assert IdKey(now) == ks[0] && IdKey(now) in ks;
    assert forall k | k in ks[1..] :: k in ks;
    AttributesReadBack(now, u);
    DeleteEffect(db1, now, accepted');
    CopiesSurviveDelete(db1, u, now, accepted');
    assert EmailKey(u.email) == ks[1..][0];
    DecodeAttributes(now, u);
  }

  /** The stored record of a registered user, read the way deletion reads it. */
  lemma AttributesReadBack(id: int, u: User)
    ensures RoleText(Attributes(id, u)) == u.role.Value()
    ensures NameText(Attributes(id, u)) == ""
    ensures SocietyOf(Attributes(id, u)) == Ok(Some(u.societyId))
  {
  }

  /** Deleting a freshly registered user leaves its email, role and society copies in place. */
  lemma CopiesSurviveDelete(db: Db, u: User, id: int, accepted: bool)
    requires Lookup(db, IdKey(id)) == Some(Attributes(id, u))
    requires forall k | k in Keys(id, u)[1..] :: Lookup(db, k) == Some(Attributes(id, u))
    ensures forall k | k in Keys(id, u)[1..] :: Lookup(DeleteSpec(db, id, accepted).1, k) == Some(Attributes(id, u))
  {
    AttributesReadBack(id, u);
    DeleteEffect(db, id, accepted);
    CreatedCopiesNotDeleted(id, u);
  }


  /** Once registered, an email can never be registered again, even after the user is deleted. */
  lemma EmailNeverFreed(db: Db, u: User, now: int, accepted: bool, accepted': bool, v: User, later: int, accepted'': bool)
    requires CreateSpec(db, u, now, accepted).0.Ok? && v.email == u.email
    ensures var db2 := DeleteSpec(CreateSpec(db, u, now, accepted).1, now, accepted').1;
      CreateSpec(db2, v, later, accepted'') == (Err(if accepted'' then UserAlreadyExists else UserRepositoryError), db2)
  {
    var db2 := DeleteSpec(CreateSpec(db, u, now, accepted).1, now, accepted').1;
    DeleteAfterCreateKeepsCopies(db, u, now, accepted, accepted');
    assert EmailKey(u.email) == Keys(now, u)[1..][0];
    CreateEffect(db2, v, later, accepted'');
    assert EmailKey(v.email) == Keys(later, v)[1];
  }

  // ---------------------------------------------------------------------
  // The repository

  class UserRepo {
    const table: Table

    constructor (table: Table)
      ensures this.table == table
    {
      this.table := table;
    }

    /** find_by_email; `answered` is false when the read itself fails. */
    method FindByEmail(email: string) returns (r: Result<User, Fault>, ghost answered: bool)
      ensures r == FindByEmailSpec(table.items, email, answered)
    {
      var read;
      read, answered := table.TryGetItem(EmailKey(email));
      if read.Err? {
        return Err(UserRepositoryError), answered;
      }
      if read.value.None? {
        return Err(UserNotFound), answered;
      }
      r := Decode(read.value.value);
    }

    /** create; `now` stands for the time.time_ns() reading that becomes the id. */
    method Create(u: User, now: int) returns (r: Result<int, Fault>, ghost accepted: bool)
      modifies table
      ensures (r, table.items) == CreateSpec(old(table.items), u, now, accepted)
    {
      var o;
      o, accepted := table.TransactWrite(CreateOps(now, u));
      r := if o.Committed? then Ok(now) else Err(CreateFault(o.error));
    }

    /** become_lender. */
    method BecomeLender(id: int) returns (r: Result<(), Fault>, ghost accepted: bool)
      modifies table
      ensures (r, table.items) == BecomeLenderSpec(old(table.items), id, accepted)
    {
      var found := table.GetItem(IdKey(id));
      if found.None? {
        return Err(Fail("user not found")), false;
      }
      var item := found.value;
      if SocietyOf(item).Err? {
        return Err(Malformed), false;
      }
      var o;
      o, accepted := table.TransactWrite(BecomeLenderOps(id, RoleText(item)));
      r := Done(o);
    }

    /** find_all. */
    method FindAll(f: UserFilter) returns (r: Result<seq<User>, Fault>, ghost rows: seq<Row>)
      ensures IsQueryResult(table.items, QueryKey(f).0, QueryKey(f).1, rows)
      ensures r == FindAllSpec(rows, f)
    {
      var pk, prefix := QueryKey(f).0, QueryKey(f).1;
      var items := table.Query(pk, prefix);
      rows := items;
      ghost var steps := ListSteps(items);
      var users: seq<User> := [];
      var i := 0;
      while i < |items|
        invariant 0 <= i <= |items|
        invariant Collect(steps[..i]) == Ok(users)
      {
        CollectNext(steps, i);
        var decoded := Decode(items[i].item);
        if decoded.Err? {
          CollectErrSticky(steps, i + 1);
          return Err(decoded.error), rows;
        }
        users := users + [decoded.value];
        i := i + 1;
      }
      assert steps[..i] == steps;
      if SearchOnly(f) && users != [] {
        return Err(Fail(NoNameAttribute)), rows;
      }
      r := Ok(users);
    }

    /** find_by_id. */
    method FindById(id: int) returns (r: Result<Option<User>, Fault>)
      ensures r == FindByIdSpec(table.items, id)
    {
      var found := table.GetItem(IdKey(id));
      if found.None? {
        return Ok(None);
      }
      var decoded := Decode(found.value);
      if decoded.Err? {
        return Err(decoded.error);
      }
      r := Ok(Some(decoded.value));
    }

    /** delete_by_id. */
    method DeleteById(id: int) returns (r: Result<(), Fault>, ghost accepted: bool)
      modifies table
      ensures (r, table.items) == DeleteSpec(old(table.items), id, accepted)
    {
      var found := table.GetItem(IdKey(id));
      if found.None? {
        return Ok(()), false;
      }
      var item := found.value;
      var society := SocietyOf(item);
      if society.Err? {
        return Err(society.error), false;
      }
      var o;
      o, accepted := table.TransactWrite(DeleteOps(id, RoleText(item), NameText(item), society.value));
      r := Done(o);
    }
  }
}
