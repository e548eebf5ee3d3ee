/**
 * The user service: promotion to lender guarded by the caller's context,
 * the user listing with an optional filter, and lookup and deletion by id
 * guarded against non-positive ids. Everything else is the repository's.
 */
module UserService {
  import opened Wrappers
  import opened Dynamo
  import opened Models
  import UserRepository

  // ---------------------------------------------------------------------
  // become_lender

  /** `str(role).lower() == "lender"`: a missing role prints as "None". */
  predicate RoleIsLender(role: Option<string>) {
    Lower(if role.None? then "None" else role.value) == LenderRole.Value()
  }

  /**
   * The three guards on the caller's context, in order, then one promotion
   * of the caller's own id.
   */
  function BecomeLenderSpec(db: Db, ctx: Option<Ctx>, accepted: bool): (Result<(), Fault>, Db) {
    if ctx.None? then (Err(Fail("user context missing")), db)
    else if RoleIsLender(ctx.value.role) then (Err(Fail("user is already a lender")), db)
    else if BadId(ctx.value.userId) then (Err(Fail("invalid user id")), db)
    else UserRepository.BecomeLenderSpec(db, ctx.value.userId.value, accepted)
  }

  /** The context passes every guard of become_lender. */
  predicate MayPromote(ctx: Option<Ctx>) {
    ctx.Some? && !RoleIsLender(ctx.value.role) && !BadId(ctx.value.userId)
  }

  /** The stored record of the caller, readable the way the repository reads it. */
  predicate Promotable(db: Db, id: int) {
    UserRepository.IdKey(id) in db && UserRepository.SocietyOf(db[UserRepository.IdKey(id)]).Ok?
  }

  function StoredRole(db: Db, id: int): string
    requires UserRepository.IdKey(id) in db
  {
    UserRepository.RoleText(db[UserRepository.IdKey(id)])
  }

  /**
   * A lender role in any letter case is refused before the store is read,
   * while a missing role lets the call through to the id check.
   */
  lemma RoleGuardIgnoresCase(db: Db, ctx: Ctx, accepted: bool)
    ensures ctx.role.Some? && Lower(ctx.role.value) == "lender" ==>
      BecomeLenderSpec(db, Some(ctx), accepted) == (Err(Fail("user is already a lender")), db)
    ensures ctx.role.None? && ctx.userId.Some? && ctx.userId.value > 0 ==>
      BecomeLenderSpec(db, Some(ctx), accepted) ==
      UserRepository.BecomeLenderSpec(db, ctx.userId.value, accepted)
  {
    assert Lower("None")[0] == 'n';
  }

  /**
   * become_lender changes the table only when the context passes every
   * guard, the caller's record is stored with a role other than lender and
   * the store accepts; the caller then reads back as a lender with
   * everything else of the record kept.
   */
  lemma BecomeLenderEffect(db: Db, ctx: Option<Ctx>, accepted: bool)
    ensures var (r, db') := BecomeLenderSpec(db, ctx, accepted);
      && (r.Err? ==> db' == db)
      && (r.Ok? <==>
            MayPromote(ctx) && Promotable(db, ctx.value.userId.value)
            && StoredRole(db, ctx.value.userId.value) != UserRepository.LenderText && accepted)
      && (r.Ok? ==>
            var id := ctx.value.userId.value;
            var item := db[UserRepository.IdKey(id)];
            UserRepository.Decode(item).Ok? ==>
              UserRepository.FindByIdSpec(db', id) == Ok(Some(UserRepository.Decode(item).value.(role := LenderRole))))
  {
    if MayPromote(ctx) {
      var id := ctx.value.userId.value;
      if Promotable(db, id) {
        if StoredRole(db, id) == UserRepository.LenderText {
          UserRepository.BecomeLenderTwice(db, id, accepted);
        } else {
          UserRepository.BecomeLenderEffect(db, id, accepted);
        }
      }
    }
  }

  /**
   * A caller whose context still names an earlier role but whose record
   * already says lender (a token issued before the promotion) passes the
   * service's guard; the store then refuses the transaction, which names
   * the lender role copy twice, and nothing changes.
   */
  lemma StaleContextRefusedByStore(db: Db, ctx: Option<Ctx>, accepted: bool)
    requires MayPromote(ctx) && Promotable(db, ctx.value.userId.value)
    requires StoredRole(db, ctx.value.userId.value) == UserRepository.LenderText
    ensures BecomeLenderSpec(db, ctx, accepted) ==
      (Err(Store(if accepted then ValidationException else Unavailable)), db)
  {
    UserRepository.BecomeLenderTwice(db, ctx.value.userId.value, accepted);
  }

  /**
   * Promotion happens at most once: after a successful become_lender, a
   * second one for the same user, whatever role the context names, fails
   * and leaves the table as it is.
   */
  lemma {:induction false} PromoteOnce(db: Db, ctx: Option<Ctx>, accepted: bool, ctx': Option<Ctx>, accepted': bool)
    requires BecomeLenderSpec(db, ctx, accepted).0.Ok?
    requires ctx'.Some? && ctx'.value.userId == ctx.value.userId
    ensures var db' := BecomeLenderSpec(db, ctx, accepted).1;
      var (r', db'') := BecomeLenderSpec(db', ctx', accepted');
      r'.Err? && db'' == db'
  {
    BecomeLenderEffect(db, ctx, accepted);
    var id := ctx.value.userId.value;
    var item := db[UserRepository.IdKey(id)];
    var db' := BecomeLenderSpec(db, ctx, accepted).1;
    UserRepository.BecomeLenderEffect(db, id, accepted);
    var item' := item + UserRepository.LenderSet();
    assert db'[UserRepository.IdKey(id)] == item';
    assert UserRepository.RoleText(item') == UserRepository.LenderText by {
      assert item'["Role"] == S(UserRepository.LenderText);
    }
    assert Get(item', "SocietyID") == Get(item, "SocietyID");
    if MayPromote(ctx') {
      StaleContextRefusedByStore(db', ctx', accepted');
    }
  }

  // ---------------------------------------------------------------------
  // get_all_users

  /** `filters or {}`: no filter is the empty filter. */
  function FilterOf(filters: Option<UserRepository.UserFilter>): UserRepository.UserFilter {
    if filters.None? then UserRepository.UserFilter("", "", "") else filters.value
  }

  function GetAllSpec(rows: seq<Row>, filters: Option<UserRepository.UserFilter>): Result<seq<User>, Fault> {
    UserRepository.FindAllSpec(rows, FilterOf(filters))
  }

  /**
   * Without a filter the listing reads every id copy of the user
   * partition; it succeeds exactly when each of them decodes and then
   * holds exactly the decoded users.
   */
  lemma UnfilteredListsEveryUser(rows: seq<Row>, u: User)
    ensures UserRepository.QueryKey(FilterOf(None)) == (UserRepository.Partition, "ID#")
    ensures GetAllSpec(rows, None).Ok? <==>
      forall i | 0 <= i < |rows| :: UserRepository.Decode(rows[i].item).Ok?
    ensures GetAllSpec(rows, None).Ok? ==>
      (u in GetAllSpec(rows, None).value <==> exists i | 0 <= i < |rows| :: UserRepository.Decode(rows[i].item) == Ok(u))
  {
    UserRepository.FindAllMembers(rows, FilterOf(None), u);
  }

  // ---------------------------------------------------------------------
  // get_user_by_id and delete_user_by_id

  const NonPositiveId: string := "user ID must be a positive integer"

  function GetByIdSpec(db: Db, id: int): Result<Option<User>, Fault> {
    if id <= 0 then Err(Fail(NonPositiveId)) else UserRepository.FindByIdSpec(db, id)
  }

  function DeleteSpec(db: Db, id: int, accepted: bool): (Result<(), Fault>, Db) {
    if id <= 0 then (Err(Fail(NonPositiveId)), db) else UserRepository.DeleteSpec(db, id, accepted)
  }

  /**
   * A user just registered under a positive id is found by the service's
   * lookup, with the id filled in.
   */
  lemma RegisteredUserFound(db: Db, u: User, now: int, accepted: bool)
    requires now > 0
    requires UserRepository.CreateSpec(db, u, now, accepted).0.Ok?
    ensures GetByIdSpec(UserRepository.CreateSpec(db, u, now, accepted).1, now) == Ok(Some(u.(id := Some(now))))
  {
    UserRepository.CreateThenFind(db, u, now, accepted);
  }

  /**
   * Deletion refuses a non-positive id without writing; otherwise a
   * successful deletion leaves nobody to find under that id, and a failed
   * one writes nothing.
   */
  lemma DeleteEffect(db: Db, id: int, accepted: bool)
    ensures var (r, db') := DeleteSpec(db, id, accepted);
      && (id <= 0 ==> r == Err(Fail(NonPositiveId)))
      && (r.Err? ==> db' == db)
      && (r.Ok? ==> GetByIdSpec(db', id) == Ok(None))
      && (id > 0 && Promotable(db, id) ==> (r.Ok? <==> accepted))
  {
    if id > 0 {
      UserRepository.DeleteEffect(db, id, accepted);
    }
  }

  // ---------------------------------------------------------------------
  // The service

  class UserSvc {
    const table: Table
    const users: UserRepository.UserRepo

    predicate Wired() {
      users.table == table
    }

    constructor (table: Table, users: UserRepository.UserRepo)
      requires users.table == table
      ensures Wired()
    {
      this.table := table;
      this.users := users;
    }

    /** become_lender. */
    method BecomeLender(ctx: Option<Ctx>) returns (r: Result<(), Fault>, ghost accepted: bool)
      requires Wired()
      modifies table
      ensures (r, table.items) == BecomeLenderSpec(old(table.items), ctx, accepted)
    {
      if ctx.None? {
        return Err(Fail("user context missing")), false;
      }
      var role := if ctx.value.role.None? then "None" else ctx.value.role.value;
      if Lower(role) == LenderRole.Value() {
        return Err(Fail("user is already a lender")), false;
      }
      var userId := ctx.value.userId;
      if userId.None? || userId.value <= 0 {
        return Err(Fail("invalid user id")), false;
      }
      r, accepted := users.BecomeLender(userId.value);
    }

    /** get_all_users. */
    method GetAllUsers(filters: Option<UserRepository.UserFilter>)
      returns (r: Result<seq<User>, Fault>, ghost rows: seq<Row>)
      requires Wired()
      ensures IsQueryResult(table.items, UserRepository.QueryKey(FilterOf(filters)).0,
                            UserRepository.QueryKey(FilterOf(filters)).1, rows)
      ensures r == GetAllSpec(rows, filters)
    {
      var f := if filters.None? then UserRepository.UserFilter("", "", "") else filters.value;
      r, rows := users.FindAll(f);
    }

    /** get_user_by_id. */
    method GetUserById(id: int) returns (r: Result<Option<User>, Fault>)
      requires Wired()
      ensures r == GetByIdSpec(table.items, id)
    {
      if id <= 0 {
        return Err(Fail(NonPositiveId));
      }
      r := users.FindById(id);
    }

    /** delete_user_by_id. */
    method DeleteUserById(id: int) returns (r: Result<(), Fault>, ghost accepted: bool)
      requires Wired()
      modifies table
      ensures (r, table.items) == DeleteSpec(old(table.items), id, accepted)
    {
      if id <= 0 {
        return Err(Fail(NonPositiveId)), false;
      }
      r, accepted := users.DeleteById(id);
    }
  }
}
