/**
 * Products in the shared table. A product is written four times, once per
 * access path: (PRODUCT, PRODUCT#id), (PRODUCT, LENDER#lender#ID#id),
 * (PRODUCT, NAME#lowercased name#ID#id) and (CATEGORY#category, PRODUCT#id).
 * Categories live in the same table under (CATEGORY, ID#category).
 */
module ProductRepository {
  import opened Wrappers
  import opened Dynamo
  import opened Listing
  import opened Models
  import UserRepository

  const Partition: string := "PRODUCT"

  function PrimaryKey(id: int): Key {
    Key(Partition, "PRODUCT#" + Str(id))
  }

  function LenderKey(lender: int, id: int): Key {
    Key(Partition, "LENDER#" + Str(lender) + "#ID#" + Str(id))
  }

  /** `lowered` is the name as the caller lower-cased it. */
  function NameKey(lowered: string, id: int): Key {
    Key(Partition, "NAME#" + lowered + "#ID#" + Str(id))
  }

  function CategoryKey(category: int, id: int): Key {
    Key("CATEGORY#" + Str(category), "PRODUCT#" + Str(id))
  }

  /** Where the category record itself is stored. */
  function CategoryRecordKey(category: int): Key {
    Key("CATEGORY", "ID#" + Str(category))
  }

  /** The four keys of product p under id, in the order create writes them. */
  function Keys(id: int, p: Product): seq<Key> {
    [PrimaryKey(id), LenderKey(p.lenderId, id), NameKey(Lower(p.name), id), CategoryKey(p.categoryId, id)]
  }

  /** `image_url or ""`. */
  function ImageOrEmpty(u: Option<string>): string {
    if u.Some? then u.value else ""
  }

  /** The attributes every projection of a product is written with (CreatedAt aside). */
  function Attributes(id: int, p: Product): Item {
    map["ID" := N(id), "LenderID" := N(p.lenderId), "CategoryID" := N(p.categoryId),
        "Name" := S(p.name), "Description" := S(p.description), "Duration" := N(p.duration),
        "IsAvailable" := B(p.isAvailable), "ImageUrl" := S(ImageOrEmpty(p.imageUrl))]
  }

  /** Python's bool() of an attribute that may be missing. */
  function Truthiness(v: Option<Value>): bool {
    match v
    case None => false
    case Some(B(b)) => b
    case Some(N(n)) => n != 0
    case Some(S(s)) => s != ""
  }

  /** Reading a product back from any of its projections. */
  function Decode(item: Item): (r: Result<Product, Fault>)
    ensures r.Err? ==> r.error == Malformed
  {
    var id := IntOf(Get(item, "ID"));
    var lender := IntOf(Get(item, "LenderID"));
    var category := IntOf(Get(item, "CategoryID"));
    var duration := IntOf(Get(item, "Duration"));
    var name := TextOf(Get(item, "Name"));
    var description := TextOf(Get(item, "Description"));
    var image := Get(item, "ImageUrl");
    if id.None? || lender.None? || category.None? || duration.None? || name.None? || description.None? then Err(Malformed)
    else if image.Some? && !image.value.S? then Err(Malformed)
    else
      var p := Product(Some(id.value), lender.value, category.value, name.value, description.value,
                       duration.value, Truthiness(Get(item, "IsAvailable")),
                       if image.Some? then Some(image.value.s) else None);
      if ValidProduct(p) then Ok(p) else Err(Malformed)
  }

  /** A product written by create reads back as itself; a missing image url reads back as "". */
  lemma DecodeAttributes(id: int, p: Product)
    requires ValidProduct(p)
    ensures Decode(Attributes(id, p)) == Ok(p.(id := Some(id), imageUrl := Some(ImageOrEmpty(p.imageUrl))))
  {
  }

  /** category_repo.find_by_id: None when absent, an error when the item does not validate. */
  function CategorySpec(db: Db, category: int): Result<Option<Category>, Fault> {
    match Lookup(db, CategoryRecordKey(category))
    case None => Ok(None)
    case Some(item) =>
      match DecodeCategory(item)
      case Err(e) => Err(e)
      case Ok(c) => Ok(Some(c))
  }

  /** A category record: ID optional, Name, Price and Security required. */
  function DecodeCategory(item: Item): (r: Result<Category, Fault>)
    ensures r.Err? ==> r.error == Malformed
  {
      var id := Get(item, "ID");
      var name := TextOf(Get(item, "Name"));
      var price := Get(item, "Price");
      var security := Get(item, "Security");
      if id.Some? && !id.value.N? then Err(Malformed)
      else if name.None? || price.None? || !price.value.N? || security.None? || !security.value.N? then Err(Malformed)
      else Ok(Category(if id.Some? then Some(id.value.n) else None, name.value, price.value.n, security.value.n))
  }

  /** The lender's user record as find_by_id attaches it: a failed lookup is None. */
  function LenderSpec(db: Db, lender: int): Option<User> {
    var u := UserRepository.FindByIdSpec(db, lender);
    if u.Ok? then u.value else None
  }

  // ---------------------------------------------------------------------
  // Keys never collide

  lemma PrimaryKeyInjective(a: int, b: int)
    requires PrimaryKey(a) == PrimaryKey(b)
    ensures a == b
  {
    DropCommonPrefix("PRODUCT#", Str(a), Str(b));
    StrInjective(a, b);
  }

  /** For one id, two name projections are the same key only for the same lowered name. */
  lemma NameKeySameId(x: string, y: string, id: int)
    requires NameKey(x, id) == NameKey(y, id)
    ensures x == y
  {
    Regroup("NAME#", x, "#ID#", Str(id));
    Regroup("NAME#", y, "#ID#", Str(id));
    DropCommonSuffix("NAME#" + x, "NAME#" + y, "#ID#" + Str(id));
    DropCommonPrefix("NAME#", x, y);
  }

  lemma CategoryKeyInjective(a: int, b: int, id: int)
    requires CategoryKey(a, id) == CategoryKey(b, id)
    ensures a == b
  {
    DropCommonPrefix("CATEGORY#", Str(a), Str(b));
    StrInjective(a, b);
  }

  /** The four projections of one product are four different keys. */
  lemma KeysDistinct(id: int, lender: int, lowered: string, category: int)
    ensures PrimaryKey(id) != LenderKey(lender, id)
    ensures PrimaryKey(id) != NameKey(lowered, id)
    ensures LenderKey(lender, id) != NameKey(lowered, id)
    ensures CategoryKey(category, id).pk != Partition
  {
    Regroup("LENDER#", Str(lender), "#ID#", Str(id));
    Regroup("NAME#", lowered, "#ID#", Str(id));
    SkHeadsDiffer("PRODUCT#", Str(id), "LENDER#", Str(lender) + ("#ID#" + Str(id)));
    SkHeadsDiffer("PRODUCT#", Str(id), "NAME#", lowered + ("#ID#" + Str(id)));
    SkHeadsDiffer("LENDER#", Str(lender) + ("#ID#" + Str(id)), "NAME#", lowered + ("#ID#" + Str(id)));
    assert |CategoryKey(category, id).pk| > |Partition|;
  }

  /** The six pairs of the four projections, each pair different. */
  lemma FourKeysDistinct(id: int, lender: int, lowered: string, category: int)
    ensures var (a, b, c, d) := (PrimaryKey(id), LenderKey(lender, id), NameKey(lowered, id), CategoryKey(category, id));
      a != b && a != c && a != d && b != c && b != d && c != d
  {
    KeysDistinct(id, lender, lowered, category);
  }

  /** No product projection is the category record. */
  lemma CategoryRecordIsNotProjection(c: int, id: int, p: Product)
    ensures CategoryRecordKey(c) !in Keys(id, p)
  {
    assert CategoryRecordKey(c).pk != Partition;
    assert CategoryRecordKey(c).pk != CategoryKey(p.categoryId, id).pk by {
      assert |CategoryKey(p.categoryId, id).pk| > |"CATEGORY"|;
    }
  }

  /** No product copy lies in the USER partition. */
  lemma UserRecordIsNotProjection(lender: int, id: int, p: Product)
    ensures UserRepository.IdKey(lender) !in Keys(id, p)
  {
    assert CategoryKey(p.categoryId, id).pk[0] == 'C';
  }

  /** The four projections of product p under id exist and hold the same item. */
  ghost predicate Agree(db: Db, id: int, p: Product) {
    var ks := Keys(id, p);
    && (forall k | k in ks :: k in db)
    && db[ks[1]] == db[ks[0]] && db[ks[2]] == db[ks[0]] && db[ks[3]] == db[ks[0]]
  }

  // ---------------------------------------------------------------------
  // create

  /** `product.id if product.id is not None else time.time_ns()`. */
  function NewId(p: Product, now: int): int {
    if p.id.Some? then p.id.value else now
  }

  function CreateOps(id: int, p: Product): seq<Op> {
    var a := Attributes(id, p);
    [Put(PrimaryKey(id), a, Unconditional), Put(LenderKey(p.lenderId, id), a, Unconditional),
     Put(NameKey(Lower(p.name), id), a, Unconditional), Put(CategoryKey(p.categoryId, id), a, Unconditional)]
  }

  function CreateSpec(db: Db, p: Product, now: int, accepted: bool): (Result<(), Fault>, Db) {
    var (o, db') := Commit(db, CreateOps(NewId(p, now), p), accepted);
    (Done(o), db')
  }
  /** The four puts of create name four different keys, in the order of Keys. */
  lemma CreateOpsShape(id: int, p: Product)
    ensures DistinctKeys(CreateOps(id, p))
    ensures |CreateOps(id, p)| == 4
    ensures forall i | 0 <= i < 4 :: CreateOps(id, p)[i] == Put(Keys(id, p)[i], Attributes(id, p), Unconditional)
  {
    FourKeysDistinct(id, p.lenderId, Lower(p.name), p.categoryId);
    DistinctFour(CreateOps(id, p));
  }

  /**
   * create writes the four projections with identical attributes in one
   * transaction, or nothing; no other item changes.
   */
  lemma CreateEffect(db: Db, p: Product, now: int, accepted: bool)
    ensures var (r, db') := CreateSpec(db, p, now, accepted);
      var id := NewId(p, now);
      && (r.Ok? <==> accepted)
      && (r.Err? ==> db' == db)
      && (r.Ok? ==> forall k | k in Keys(id, p) :: Lookup(db', k) == Some(Attributes(id, p)))
      && (forall k | k !in Keys(id, p) :: Lookup(db', k) == Lookup(db, k))
  {
    var id := NewId(p, now);
    var ops := CreateOps(id, p);
    CreateOpsShape(id, p);
    if accepted {
      CommittedAll(db, ops, accepted);
      forall k | k in Keys(id, p) ensures Lookup(Commit(db, ops, accepted).1, k) == Some(Attributes(id, p)) {
        var i :| 0 <= i < 4 && Keys(id, p)[i] == k;
        assert ops[i].key == k;
      }
    }
    forall k | k !in Keys(id, p) ensures !Touches(ops, k) {
    }
  }

  /** After a committed create the four projections agree. */
  lemma CreateAgrees(db: Db, p: Product, now: int, accepted: bool)
    requires CreateSpec(db, p, now, accepted).0.Ok?
    ensures Agree(CreateSpec(db, p, now, accepted).1, NewId(p, now), p)
  {
    CreateEffect(db, p, now, accepted);
    var ks := Keys(NewId(p, now), p);
    assert ks[0] in ks && ks[1] in ks && ks[2] in ks && ks[3] in ks;
  }

  // ---------------------------------------------------------------------
  // find_by_id

  /**
   * None when the primary item is absent; an undecodable product raises;
   * a category lookup that raises or finds nothing leaves the category None.
   */
  function FindByIdSpec(db: Db, id: int): Result<Option<ProductView>, Fault> {
    match Lookup(db, PrimaryKey(id))
    case None => Ok(None)
    case Some(item) =>
      match Decode(item)
      case Err(e) => Err(e)
      case Ok(p) =>
        var c := CategorySpec(db, p.categoryId);
        Ok(Some(ProductView(p, if c.Ok? then c.value else None, LenderSpec(db, p.lenderId))))
  }

  /** A committed create is found again by its id, with the category and lender as stored. */
  lemma CreateThenFind(db: Db, p: Product, now: int, accepted: bool)
    requires ValidProduct(p)
    requires CreateSpec(db, p, now, accepted).0.Ok?
    ensures var id := NewId(p, now);
      var c := CategorySpec(db, p.categoryId);
      FindByIdSpec(CreateSpec(db, p, now, accepted).1, id) ==
        Ok(Some(ProductView(p.(id := Some(id), imageUrl := Some(ImageOrEmpty(p.imageUrl))),
                            if c.Ok? then c.value else None, LenderSpec(db, p.lenderId))))
  {
    var id := NewId(p, now);
    CreateEffect(db, p, now, accepted);
    DecodeAttributes(id, p);
    assert Keys(id, p)[0] == PrimaryKey(id);
    CategoryRecordIsNotProjection(p.categoryId, id, p);
    UserRecordIsNotProjection(p.lenderId, id, p);
  }

  // ---------------------------------------------------------------------
  // find_all

  datatype ProductFilter = ProductFilter(
    categoryId: Option<string>, lenderId: Option<string>, search: Option<string>, isAvailable: Option<string>)

  predicate Given(s: Option<string>) { s.Some? && s.value != "" }

  /** The partition and sort-key prefix find_all queries. */
  function QueryKey(f: ProductFilter): (string, string) {
    if Given(f.categoryId) then ("CATEGORY#" + f.categoryId.value, "PRODUCT#")
    else if Given(f.lenderId) then (Partition, "LENDER#" + f.lenderId.value)
    else if Given(f.search) then (Partition, "NAME#" + Lower(f.search.value))
    else (Partition, "PRODUCT#")
  }

  /** One iteration of find_all's loop: decode, then look the category up; either may raise. */
  function FindAllStep(db: Db, item: Item): Step<ProductView, Fault> {
    match Decode(item)
    case Err(e) => Stop(e)
    case Ok(p) =>
      match CategorySpec(db, p.categoryId)
      case Err(e) => Stop(e)
      case Ok(c) =>
        match UserRepository.FindByIdSpec(db, p.lenderId)
        case Err(e) => Stop(e)
        case Ok(u) => Keep(ProductView(p, c, u))
  }

  function FindAllSteps(db: Db, rows: seq<Row>): (steps: seq<Step<ProductView, Fault>>)
    ensures |steps| == |rows|
    ensures forall i | 0 <= i < |rows| :: steps[i] == FindAllStep(db, rows[i].item)
  {
    seq(|rows|, i requires 0 <= i < |rows| => FindAllStep(db, rows[i].item))
  }

  /** The search test: the lowered term in the lowered name or description. */
  predicate Hit(v: ProductView, term: string) {
    (v.product.name != "" && Contains(Lower(v.product.name), term))
    || (v.product.description != "" && Contains(Lower(v.product.description), term))
  }

  function SearchFilter(views: seq<ProductView>, term: string): (r: seq<ProductView>)
    ensures forall v :: v in r <==> v in views && Hit(v, term)
    ensures |r| <= |views|
  {
    if views == [] then []
    else (if Hit(views[0], term) then [views[0]] else []) + SearchFilter(views[1..], term)
  }

  function FindAllSpec(db: Db, rows: seq<Row>, f: ProductFilter): Result<seq<ProductView>, Fault> {
    match Collect(FindAllSteps(db, rows))
    case Err(e) => Err(e)
    case Ok(views) => Ok(if Given(f.search) then SearchFilter(views, Lower(f.search.value)) else views)
  }

  /** find_all never looks at is_available: the filter field changes nothing. */
  lemma FindAllIgnoresAvailability(db: Db, f: ProductFilter, x: Option<string>)
    ensures QueryKey(f.(isAvailable := x)) == QueryKey(f)
    ensures forall rows :: FindAllSpec(db, rows, f.(isAvailable := x)) == FindAllSpec(db, rows, f)
  {
  }

  /** The key precedence: category, then lender, then name prefix, then all primaries. */
  lemma QueryKeyPrecedence(f: ProductFilter)
    ensures Given(f.categoryId) ==> QueryKey(f).0 == "CATEGORY#" + f.categoryId.value
    ensures !Given(f.categoryId) ==> QueryKey(f).0 == Partition
    ensures !Given(f.categoryId) && Given(f.lenderId) ==> QueryKey(f).1 == "LENDER#" + f.lenderId.value
    ensures !Given(f.categoryId) && !Given(f.lenderId) && Given(f.search) ==>
              QueryKey(f).1 == "NAME#" + Lower(f.search.value)
    ensures !Given(f.categoryId) && !Given(f.lenderId) && !Given(f.search) ==> QueryKey(f).1 == "PRODUCT#"
  {
  }

  /** With a search term every result mentions it; without one nothing is filtered out. */
  lemma FindAllSearch(db: Db, rows: seq<Row>, f: ProductFilter, v: ProductView)
    requires FindAllSpec(db, rows, f).Ok?
    ensures Given(f.search) ==>
      (v in FindAllSpec(db, rows, f).value <==>
         Collect(FindAllSteps(db, rows)).Ok? && v in Collect(FindAllSteps(db, rows)).value && Hit(v, Lower(f.search.value)))
    ensures !Given(f.search) ==> FindAllSpec(db, rows, f) == Collect(FindAllSteps(db, rows))
  {
  }

  /** A table holding one product of lender 12, stored under its lender projection. */
  function LenderTwelveTable(): Db {
    map[LenderKey(12, 5) := Attributes(5, Product(Some(5), 12, 3, "Drill", "A drill", 7, true, None))]
  }

  /**
   * The lender listing asks for sort keys that begin with "LENDER#1", with
   * no separator after the id, so lender 1's listing includes lender 12's
   * product.
   */
  lemma LenderListingOvermatches(rows: seq<Row>)
    requires IsQueryResult(LenderTwelveTable(), QueryKey(ProductFilter(None, Some("1"), None, None)).0,
                           QueryKey(ProductFilter(None, Some("1"), None, None)).1, rows)
    ensures var r := FindAllSpec(LenderTwelveTable(), rows, ProductFilter(None, Some("1"), None, None));
      r.Ok? && r.value != [] && r.value[0].product.lenderId == 12
  {
    var db := LenderTwelveTable();
    var k := LenderKey(12, 5);
    var p := Product(Some(5), 12, 3, "Drill", "A drill", 7, true, None);
    var f := ProductFilter(None, Some("1"), None, None);
    assert Str(12) == "12" && Str(1) == "1";
    assert k.sk == "LENDER#12#ID#" + Str(5);
    assert "LENDER#1" <= k.sk;
    assert !Given(f.categoryId) && Given(f.lenderId);
    assert "LENDER#" + "1" == "LENDER#1";
    assert QueryKey(f) == (Partition, "LENDER#1");
    assert Matches(k, Partition, "LENDER#1");
    assert k in db;
    assert |rows| > 0;
    DecodeAttributes(5, p);
    var v := ProductView(p.(imageUrl := Some("")), None, None);
    assert CategorySpec(db, 3) == Ok(None);
    assert UserRepository.IdKey(12) !in db;
    var steps := FindAllSteps(db, rows);
    forall i | 0 <= i < |steps| ensures steps[i] == Keep(v) {
      assert rows[i].key == k;
    }
    CollectNoStop(steps);
    assert Kept(steps) == [v] + Kept(steps[1..]);
  }

  /** find_all's key with a separator after the lender id. */
  function CorrectedQueryKey(f: ProductFilter): (string, string) {
    if !Given(f.categoryId) && Given(f.lenderId) then (Partition, "LENDER#" + f.lenderId.value + "#")
    else QueryKey(f)
  }

  /** Of two hash-free words, one followed by '#' starts the other followed by '#' only if they are equal. */
  lemma HashTerminatedPrefix(a: string, c: string, d: string)
    requires HashFree(a) && HashFree(c)
    requires a + "#" <= c + "#" + d
    ensures a == c
  {
    var t := c + "#" + d;
    var rest := t[|a| + 1..];
    assert t == a + "#" + rest;
    SplitAtHash(a, rest, c, d);
  }

  /** With the separator, lender l's listing matches exactly lender l's projections. */
  lemma CorrectedLenderListing(l: int, m: int, id: int)
    ensures var f := ProductFilter(None, Some(Str(l)), None, None);
      Matches(LenderKey(m, id), CorrectedQueryKey(f).0, CorrectedQueryKey(f).1) <==> m == l
  {
    var f := ProductFilter(None, Some(Str(l)), None, None);
    assert CorrectedQueryKey(f) == (Partition, "LENDER#" + Str(l) + "#");
    assert LenderKey(m, id).sk == "LENDER#" + (Str(m) + "#" + ("ID#" + Str(id))) by {
      Regroup("LENDER#", Str(m), "#ID#", Str(id));
    }
    SeparatedPrefix(Str(l), Str(m), "ID#" + Str(id));
    if "LENDER#" + Str(l) + "#" <= LenderKey(m, id).sk {
      StrInjective(l, m);
    }
  }

  /** "LENDER#a#" starts "LENDER#c#d" exactly when the hash-free words a and c are equal. */
  lemma SeparatedPrefix(a: string, c: string, d: string)
    requires HashFree(a) && HashFree(c)
    ensures "LENDER#" + a + "#" <= "LENDER#" + (c + "#" + d) <==> a == c
  {
    var x := "LENDER#" + a + "#";
    var y := "LENDER#" + (c + "#" + d);
    assert x == "LENDER#" + (a + "#");
    if x <= y {
      assert x[7..] == a + "#";
      assert y[7..] == c + "#" + d;
      assert a + "#" <= c + "#" + d;
      HashTerminatedPrefix(a, c, d);
    }
    if a == c {
      assert y == x + d;
    }
  }

  // ---------------------------------------------------------------------
  // update

  /** The SET clause update writes on all four keys. */
  function UpdateSet(p: Product): Item {
    map["Name" := S(p.name), "Description" := S(p.description), "Duration" := N(p.duration),
        "IsAvailable" := B(p.isAvailable), "CategoryID" := N(p.categoryId), "LenderID" := N(p.lenderId)]
  }

  /** The stale projections: the old category key and the old name key, each when it changes. */
  function Stale(id: int, prev: Product, p: Product): set<Key> {
    (if prev.categoryId != p.categoryId then {CategoryKey(prev.categoryId, id)} else {})
    + (if Lower(prev.name) != Lower(p.name) then {NameKey(Lower(prev.name), id)} else {})
  }

  function StaleDeletes(id: int, prev: Product, p: Product): seq<Op> {
    (if prev.categoryId != p.categoryId then [Delete(CategoryKey(prev.categoryId, id))] else [])
    + (if Lower(prev.name) != Lower(p.name) then [Delete(NameKey(Lower(prev.name), id))] else [])
  }

  /** One upsert of the SET clause per key of the new values. */
  function Upserts(id: int, p: Product): seq<Op> {
    var assign := UpdateSet(p);
    [Op.Update(PrimaryKey(id), assign), Op.Update(LenderKey(p.lenderId, id), assign),
     Op.Update(NameKey(Lower(p.name), id), assign), Op.Update(CategoryKey(p.categoryId, id), assign)]
  }

  function UpdateOps(id: int, prev: Product, p: Product): seq<Op> {
    StaleDeletes(id, prev, p) + Upserts(id, p)
  }

  function UpdateSpec(db: Db, p: Product, accepted: bool): (Result<(), Fault>, Db) {
    if p.id.None? then (Err(Invalid), db)
    else
      match FindByIdSpec(db, p.id.value)
      case Err(e) => (Err(e), db)
      case Ok(None) => (Err(Fail("failed to fetch existing product")), db)
      case Ok(Some(existing)) =>
        var (o, db') := Commit(db, UpdateOps(p.id.value, existing.product, p), accepted);
        (Done(o), db')
  }

  lemma UpdateOpsDistinct(id: int, prev: Product, p: Product)
    ensures DistinctKeys(UpdateOps(id, prev, p))
  {
    UpsertsDistinct(id, p);
    StaleDeletesDistinct(id, prev, p);
    StaleNotUpserted(id, prev, p);
    DistinctConcat(StaleDeletes(id, prev, p), Upserts(id, p));
  }

  lemma UpsertsDistinct(id: int, p: Product)
    ensures DistinctKeys(Upserts(id, p))
  {
    KeysDistinct(id, p.lenderId, Lower(p.name), p.categoryId);
  }

  lemma StaleDeletesDistinct(id: int, prev: Product, p: Product)
    ensures DistinctKeys(StaleDeletes(id, prev, p))
  {
    KeysDistinct(id, prev.lenderId, Lower(prev.name), prev.categoryId);
  }

  lemma StaleNotUpserted(id: int, prev: Product, p: Product)
    ensures forall i | 0 <= i < |StaleDeletes(id, prev, p)| :: !Touches(Upserts(id, p), StaleDeletes(id, prev, p)[i].key)
  {
    if prev.categoryId != p.categoryId {
      OldCategoryNotUpserted(id, prev.categoryId, p);
    }
    if Lower(prev.name) != Lower(p.name) {
      OldNameNotUpserted(id, Lower(prev.name), p);
    }
  }

  lemma OldCategoryNotUpserted(id: int, c: int, p: Product)
    requires c != p.categoryId
    ensures !Touches(Upserts(id, p), CategoryKey(c, id))
  {
    var k := CategoryKey(c, id);
    KeysDistinct(id, p.lenderId, Lower(p.name), c);
    if k == CategoryKey(p.categoryId, id) {
      CategoryKeyInjective(c, p.categoryId, id);
    }
  }

  lemma OldNameNotUpserted(id: int, lowered: string, p: Product)
    requires lowered != Lower(p.name)
    ensures !Touches(Upserts(id, p), NameKey(lowered, id))
  {
    var k := NameKey(lowered, id);
    KeysDistinct(id, p.lenderId, lowered, p.categoryId);
    if k == NameKey(Lower(p.name), id) {
      NameKeySameId(lowered, Lower(p.name), id);
    }
  }

  /** The deletes name exactly the stale keys. */
  lemma StaleDeletesShape(id: int, prev: Product, p: Product)
    ensures var dels := StaleDeletes(id, prev, p);
      && (forall i | 0 <= i < |dels| :: dels[i].Delete? && dels[i].key in Stale(id, prev, p))
      && (forall k | k in Stale(id, prev, p) :: exists i | 0 <= i < |dels| :: dels[i].key == k)
  {
    var dels := StaleDeletes(id, prev, p);
    forall k | k in Stale(id, prev, p) ensures exists i | 0 <= i < |dels| :: dels[i].key == k {
      if prev.categoryId != p.categoryId && k == CategoryKey(prev.categoryId, id) {
        assert dels[0].key == k;
      } else {
        assert dels[|dels| - 1].key == k;
      }
    }
  }

  /** Update names no key conditionally: every op is a delete or an upsert. */
  lemma UpdateOpsUnconditional(db: Db, id: int, prev: Product, p: Product)
    ensures ConditionsHold(db, UpdateOps(id, prev, p))
  {
    var dels := StaleDeletes(id, prev, p);
    var ups := Upserts(id, p);
    StaleDeletesShape(id, prev, p);
    assert forall j | 0 <= j < |ups| :: ups[j].Update?;
    NoPuts(db, dels, ups);
  }

  /**
   * A committed update upserts the SET attributes on the four keys of the
   * new values, keeping whatever else those items held; it deletes the
   * stale projections and changes nothing else.
   */
  lemma UpdateCommitted(db: Db, id: int, prev: Product, p: Product, accepted: bool)
    requires Commit(db, UpdateOps(id, prev, p), accepted).0 == Committed
    ensures var db' := Commit(db, UpdateOps(id, prev, p), accepted).1;
      && (forall k | k in Keys(id, p) :: Lookup(db', k) == Some((if k in db then db[k] else map[]) + UpdateSet(p)))
      && (forall k | k in Stale(id, prev, p) :: k !in db')
      && (forall k | k !in Keys(id, p) && k !in Stale(id, prev, p) :: Lookup(db', k) == Lookup(db, k))
  {
    StaleDeletesShape(id, prev, p);
    UpsertsShape(id, p);
    CommittedDeletesThenUpserts(db, StaleDeletes(id, prev, p), Upserts(id, p), Stale(id, prev, p),
                                Keys(id, p), UpdateSet(p), accepted);
  }

  /** The upserts assign the SET clause to the keys of the new values, in order. */
  lemma UpsertsShape(id: int, p: Product)
    ensures var ups := Upserts(id, p);
      |ups| == |Keys(id, p)| && forall j | 0 <= j < |ups| :: ups[j] == Op.Update(Keys(id, p)[j], UpdateSet(p))
  {
  }

  /** update's outcome: no read error, so it commits exactly when the store accepts. */
  lemma UpdateEffect(db: Db, p: Product, accepted: bool)
    requires p.id.Some?
    requires FindByIdSpec(db, p.id.value).Ok? && FindByIdSpec(db, p.id.value).value.Some?
    ensures var (r, db') := UpdateSpec(db, p, accepted);
      var prev := FindByIdSpec(db, p.id.value).value.value.product;
      && (r.Ok? <==> accepted)
      && (r.Err? ==> db' == db)
      && (r.Ok? ==> Commit(db, UpdateOps(p.id.value, prev, p), accepted) == (Committed, db'))
  {
    var prev := FindByIdSpec(db, p.id.value).value.value.product;
    UpdateOpsDistinct(p.id.value, prev, p);
    UpdateOpsUnconditional(db, p.id.value, prev, p);
  }

  /** The primary item keeps its image url and id through an update: update never writes them. */
  lemma UpdateKeepsImage(db: Db, id: int, prev: Product, p: Product, accepted: bool)
    requires PrimaryKey(id) in db
    requires Commit(db, UpdateOps(id, prev, p), accepted).0 == Committed
    ensures var after := Commit(db, UpdateOps(id, prev, p), accepted).1;
      && PrimaryKey(id) in after
      && Get(after[PrimaryKey(id)], "ImageUrl") == Get(db[PrimaryKey(id)], "ImageUrl")
      && Get(after[PrimaryKey(id)], "ID") == Get(db[PrimaryKey(id)], "ID")
  {
    UpdateCommitted(db, id, prev, p, accepted);
    assert PrimaryKey(id) in Keys(id, p);
    UpdateSetKeepsImage(db[PrimaryKey(id)], p);
  }

  lemma UpdateSetKeepsImage(item: Item, p: Product)
    ensures Get(item + UpdateSet(p), "ImageUrl") == Get(item, "ImageUrl")
    ensures Get(item + UpdateSet(p), "ID") == Get(item, "ID")
  {
  }


  /**
   * An update that keeps the lender, the category and the lowered name keeps
   * the four projections identical.
   */
  lemma UpdateKeepsAgree(db: Db, id: int, prev: Product, p: Product, accepted: bool)
    requires Agree(db, id, prev)
    requires prev.lenderId == p.lenderId && prev.categoryId == p.categoryId && Lower(prev.name) == Lower(p.name)
    requires Commit(db, UpdateOps(id, prev, p), accepted).0 == Committed
    ensures Agree(Commit(db, UpdateOps(id, prev, p), accepted).1, id, p)
  {
    UpdateCommitted(db, id, prev, p, accepted);
    var ks := Keys(id, p);
    assert ks == Keys(id, prev);
    assert ks[0] in ks && ks[1] in ks && ks[2] in ks && ks[3] in ks;
  }

  /**
   * Moving a product to a category it had no projection in creates that
   * projection from the SET clause alone: it has no ID, so it no longer
   * agrees with the primary item and it does not decode.
   */
  lemma UpdateCategoryLeavesPartial(db: Db, id: int, prev: Product, p: Product, accepted: bool)
    requires prev.categoryId != p.categoryId
    requires CategoryKey(p.categoryId, id) !in db
    requires PrimaryKey(id) in db && "ID" in db[PrimaryKey(id)]
    requires Commit(db, UpdateOps(id, prev, p), accepted).0 == Committed
    ensures var db' := Commit(db, UpdateOps(id, prev, p), accepted).1;
      && CategoryKey(p.categoryId, id) in db'
      && db'[CategoryKey(p.categoryId, id)] == UpdateSet(p)
      && Decode(db'[CategoryKey(p.categoryId, id)]).Err?
      && !Agree(db', id, p)
  {
    UpdateCommitted(db, id, prev, p, accepted);
    var ks := Keys(id, p);
    assert ks[0] in ks && ks[3] in ks;
    assert map[] + UpdateSet(p) == UpdateSet(p);
    UpdateSetIsNoProduct(db[PrimaryKey(id)], p);
  }

  /** The SET attributes alone lack the id: they are no product, and they do not hold an item that has one. */
  lemma UpdateSetIsNoProduct(item: Item, p: Product)
    requires "ID" in item
    ensures "ID" !in UpdateSet(p) && "ID" in item + UpdateSet(p)
    ensures Decode(UpdateSet(p)).Err?
    ensures item + UpdateSet(p) != UpdateSet(p)
  {
    assert Get(UpdateSet(p), "ID") == None;
  }

  /** After such a move, listing the new category raises, whatever else it holds. */
  lemma ListingMovedCategoryFails(db: Db, p: Product, accepted: bool, rows: seq<Row>, f: ProductFilter)
    requires p.id.Some?
    requires FindByIdSpec(db, p.id.value).Ok? && FindByIdSpec(db, p.id.value).value.Some?
    requires FindByIdSpec(db, p.id.value).value.value.product.categoryId != p.categoryId
    requires CategoryKey(p.categoryId, p.id.value) !in db
    requires UpdateSpec(db, p, accepted).0.Ok?
    requires f.categoryId == Some(Str(p.categoryId))
    requires IsQueryResult(UpdateSpec(db, p, accepted).1, QueryKey(f).0, QueryKey(f).1, rows)
    ensures FindAllSpec(UpdateSpec(db, p, accepted).1, rows, f) == Err(Malformed)
  {
    var id := p.id.value;
    var prev := FindByIdSpec(db, id).value.value.product;
    UpdateEffect(db, p, accepted);
    assert "ID" in db[PrimaryKey(id)] by {
      assert Decode(db[PrimaryKey(id)]).Ok?;
    }
    UpdateCategoryLeavesPartial(db, id, prev, p, accepted);
    var k := CategoryKey(p.categoryId, id);
    assert QueryKey(f) == ("CATEGORY#" + Str(p.categoryId), "PRODUCT#");
    assert "PRODUCT#" <= k.sk;
    PartialRowStops(UpdateSpec(db, p, accepted).1, k, rows, f);
  }

  /** A listed row that does not decode makes find_all raise. */
  lemma PartialRowStops(db: Db, k: Key, rows: seq<Row>, f: ProductFilter)
    requires k in db && Decode(db[k]).Err?
    requires Matches(k, QueryKey(f).0, QueryKey(f).1)
    requires IsQueryResult(db, QueryKey(f).0, QueryKey(f).1, rows)
    ensures FindAllSpec(db, rows, f) == Err(Malformed)
  {
    var i :| 0 <= i < |rows| && rows[i].key == k;
    var steps := FindAllSteps(db, rows);
    assert steps[i].Stop?;
    var j := FirstStop(steps);
    CollectStop(steps, j);
    StopIsMalformed(db, rows[j].item);
  }

  /** Every way a row can stop the listing is a malformed item. */
  lemma StopIsMalformed(db: Db, item: Item)
    ensures FindAllStep(db, item).Stop? ==> FindAllStep(db, item).error == Malformed
  {
    if Decode(item).Ok? {
      var c := CategorySpec(db, Decode(item).value.categoryId);
      assert c.Err? ==> c.error == Malformed;
      var u := UserRepository.FindByIdSpec(db, Decode(item).value.lenderId);
      assert u.Err? ==> u.error == Malformed;
    }
  }

  // ---------------------------------------------------------------------
  // delete

  function DeleteOps(id: int, lender: int, lowered: string, category: int): seq<Op> {
    [Delete(PrimaryKey(id)), Delete(LenderKey(lender, id)), Delete(NameKey(lowered, id)),
     Delete(CategoryKey(category, id))]
  }

  /** The projections to delete are computed from the stored primary item. */
  function DeleteSpec(db: Db, id: int, accepted: bool): (Result<(), Fault>, Db) {
    match Lookup(db, PrimaryKey(id))
    case None => (Err(Fail("product not found")), db)
    case Some(item) =>
      var lender := IntOf(Get(item, "LenderID"));
      var category := IntOf(Get(item, "CategoryID"));
      if lender.None? || category.None? then (Err(Malformed), db)
      else
        var ops := DeleteOps(id, lender.value, Lower(StrOf(Get(item, "Name"))), category.value);
        var (o, db') := Commit(db, ops, accepted);
        (Done(o), db')
  }

  /** A committed delete removes exactly the four projections named by the stored item. */
  lemma DeleteEffect(db: Db, id: int, accepted: bool)
    requires PrimaryKey(id) in db
    requires DeleteSpec(db, id, accepted).0.Ok?
    ensures var item := db[PrimaryKey(id)];
      var lender := IntOf(Get(item, "LenderID")).value;
      var category := IntOf(Get(item, "CategoryID")).value;
      var gone := {PrimaryKey(id), LenderKey(lender, id), NameKey(Lower(StrOf(Get(item, "Name"))), id),
                   CategoryKey(category, id)};
      var db' := DeleteSpec(db, id, accepted).1;
      && (forall k | k in gone :: k !in db')
      && (forall k | k !in gone :: Lookup(db', k) == Lookup(db, k))
  {
    var item := db[PrimaryKey(id)];
    var lender := IntOf(Get(item, "LenderID")).value;
    var category := IntOf(Get(item, "CategoryID")).value;
    DeleteOpsCommitted(db, id, lender, Lower(StrOf(Get(item, "Name"))), category, accepted);
  }

  /** Deleting a product that decodes succeeds exactly when the store accepts; a refusal writes nothing. */
  lemma DeleteDecoded(db: Db, id: int, accepted: bool)
    requires PrimaryKey(id) in db && Decode(db[PrimaryKey(id)]).Ok?
    ensures var (r, db') := DeleteSpec(db, id, accepted);
      (r.Ok? <==> accepted) && (r.Err? ==> db' == db)
  {
    var item := db[PrimaryKey(id)];
    DeleteOpsAccepted(db, id, IntOf(Get(item, "LenderID")).value, Lower(StrOf(Get(item, "Name"))),
                      IntOf(Get(item, "CategoryID")).value);
  }

  /** The four deletions name four keys and carry no condition. */
  lemma DeleteOpsAccepted(db: Db, id: int, lender: int, lowered: string, category: int)
    ensures DistinctKeys(DeleteOps(id, lender, lowered, category))
    ensures ConditionsHold(db, DeleteOps(id, lender, lowered, category))
  {
    var ops := DeleteOps(id, lender, lowered, category);
    FourKeysDistinct(id, lender, lowered, category);
    DistinctFour(ops);
    NoPuts(db, ops, []);
    assert ops + [] == ops;
  }

  /** A committed deletion of the four projections removes them and nothing else. */
  lemma DeleteOpsCommitted(db: Db, id: int, lender: int, lowered: string, category: int, accepted: bool)
    requires Commit(db, DeleteOps(id, lender, lowered, category), accepted).0 == Committed
    ensures var gone := {PrimaryKey(id), LenderKey(lender, id), NameKey(lowered, id), CategoryKey(category, id)};
      var db' := Commit(db, DeleteOps(id, lender, lowered, category), accepted).1;
      && (forall k | k in gone :: k !in db')
      && (forall k | k !in gone :: Lookup(db', k) == Lookup(db, k))
  {
    var ops := DeleteOps(id, lender, lowered, category);
    var gone := {PrimaryKey(id), LenderKey(lender, id), NameKey(lowered, id), CategoryKey(category, id)};
    assert forall k | k in gone :: exists i | 0 <= i < 4 :: ops[i].key == k by {
      assert ops[0].key == PrimaryKey(id) && ops[1].key == LenderKey(lender, id);
      assert ops[2].key == NameKey(lowered, id) && ops[3].key == CategoryKey(category, id);
    }
    assert ops + [] == ops;
    CommittedDeletesThenUpserts(db, ops, [], gone, [], map[], accepted);
  }


  /** For a product whose projections agree, delete removes all four of them. */
  lemma DeleteRemovesAgreeing(db: Db, id: int, p: Product, accepted: bool)
    requires Agree(db, id, p) && Decode(db[PrimaryKey(id)]) == Ok(p)
    requires DeleteSpec(db, id, accepted).0.Ok?
    ensures forall k | k in Keys(id, p) :: k !in DeleteSpec(db, id, accepted).1
  {
    DeleteEffect(db, id, accepted);
  }

  // ---------------------------------------------------------------------
  // The repository

  class ProductRepo {
    const table: Table
    const users: UserRepository.UserRepo

    /** The user repository reads the same table. */
    predicate Wired() {
      users.table == table
    }

    constructor (table: Table, users: UserRepository.UserRepo)
      requires users.table == table
      ensures this.table == table && this.users == users && Wired()
    {
      this.table := table;
      this.users := users;
    }

    /** create; `now` stands for the time.time_ns() reading. */
    method Create(p: Product, now: int) returns (r: Result<(), Fault>, ghost accepted: bool)
      modifies table
      ensures (r, table.items) == CreateSpec(old(table.items), p, now, accepted)
    {
      var pid := if p.id.Some? then p.id.value else now;
      var base := Attributes(pid, p);
      var o;
      o, accepted := table.TransactWrite([
        Put(PrimaryKey(pid), base, Unconditional),
        Put(LenderKey(p.lenderId, pid), base, Unconditional),
        Put(NameKey(Lower(p.name), pid), base, Unconditional),
        Put(CategoryKey(p.categoryId, pid), base, Unconditional)]);
      r := Done(o);
    }

    /** category_repo.find_by_id over the same table. */
    method FindCategory(category: int) returns (r: Result<Option<Category>, Fault>)
      ensures r == CategorySpec(table.items, category)
    {
      var found := table.GetItem(CategoryRecordKey(category));
      if found.None? {
        return Ok(None);
      }
      var decoded := DecodeCategory(found.value);
      if decoded.Err? {
        return Err(decoded.error);
      }
      r := Ok(Some(decoded.value));
    }

    /** find_by_id. */
    method FindById(id: int) returns (r: Result<Option<ProductView>, Fault>)
      requires Wired()
      ensures r == FindByIdSpec(table.items, id)
    {
      var found := table.GetItem(PrimaryKey(id));
      if found.None? {
        return Ok(None);
      }
      var decoded := Decode(found.value);
      if decoded.Err? {
        return Err(decoded.error);
      }
      var category := FindCategory(decoded.value.categoryId);
      var c := if category.Ok? then category.value else None;
      var lender := users.FindById(decoded.value.lenderId);
      var u := if lender.Ok? then lender.value else None;
      r := Ok(Some(ProductView(decoded.value, c, u)));
    }

    /**
     * find_all: one query chosen by the filter, a decoding loop, then the
     * search filter. The lender prefix ends with the separator, so a lender
     * listing reads that lender's projections alone.
     */
    method FindAll(f: ProductFilter) returns (r: Result<seq<ProductView>, Fault>, ghost rows: seq<Row>)
      requires Wired()
      ensures IsQueryResult(table.items, CorrectedQueryKey(f).0, CorrectedQueryKey(f).1, rows)
      ensures r == FindAllSpec(table.items, rows, f)
    {
      var (pk, prefix) := CorrectedQueryKey(f);
      var items := table.Query(pk, prefix);
      rows := items;
      ghost var steps := FindAllSteps(table.items, items);
      var views: seq<ProductView> := [];
      var i := 0;
      while i < |items|
        invariant 0 <= i <= |items|
        invariant Collect(steps[..i]) == Ok(views)
      {
        CollectNext(steps, i);
        var decoded := Decode(items[i].item);
        if decoded.Err? {
          CollectErrSticky(steps, i + 1);
          return Err(decoded.error), rows;
        }
        var category := FindCategory(decoded.value.categoryId);
        if category.Err? {
          CollectErrSticky(steps, i + 1);
          return Err(category.error), rows;
        }
        var lender := users.FindById(decoded.value.lenderId);
        if lender.Err? {
          CollectErrSticky(steps, i + 1);
          return Err(lender.error), rows;
        }
        views := views + [ProductView(decoded.value, category.value, lender.value)];
        i := i + 1;
      }
      assert steps[..i] == steps;
      if Given(f.search) {
        views := SearchFilter(views, Lower(f.search.value));
      }
      r := Ok(views);
    }

    /** update: re-reads the stored product, then one transaction of deletes and upserts. */
    method Update(p: Product) returns (r: Result<(), Fault>, ghost accepted: bool)
      requires Wired()
      modifies table
      ensures (r, table.items) == UpdateSpec(old(table.items), p, accepted)
    {
      if p.id.None? {
        return Err(Invalid), false;
      }
      var id := p.id.value;
      var existing := FindById(id);
      if existing.Err? {
        return Err(existing.error), false;
      }
      if existing.value.None? {
        return Err(Fail("failed to fetch existing product")), false;
      }
      var prev := existing.value.value.product;
      var deletes := StaleProjections(id, prev, p);
      var o;
      o, accepted := table.TransactWrite(deletes + Upserts(id, p));
      r := Done(o);
    }

    /** The deletes of the projections an update makes stale: the old category's, then the old name's. */
    static method StaleProjections(id: int, prev: Product, p: Product) returns (deletes: seq<Op>)
      ensures deletes == StaleDeletes(id, prev, p)
    {
      deletes := [];
      if prev.categoryId != p.categoryId {
        deletes := deletes + [Delete(CategoryKey(prev.categoryId, id))];
      }
      if Lower(prev.name) != Lower(p.name) {
        deletes := deletes + [Delete(NameKey(Lower(prev.name), id))];
      }
    }

    /** delete: reads the primary item to name the projections, then deletes all four at once. */
    method DeleteProduct(id: int) returns (r: Result<(), Fault>, ghost accepted: bool)
      modifies table
      ensures (r, table.items) == DeleteSpec(old(table.items), id, accepted)
    {
      var found := table.GetItem(PrimaryKey(id));
      if found.None? {
        return Err(Fail("product not found")), false;
      }
      var item := found.value;
      var lender := IntOf(Get(item, "LenderID"));
      var category := IntOf(Get(item, "CategoryID"));
      if lender.None? || category.None? {
        return Err(Malformed), false;
      }
      var name := StrOf(Get(item, "Name"));
      var o;
      o, accepted := table.TransactWrite(DeleteOps(id, lender.value, Lower(name), category.value));
      r := Done(o);
    }
  }
}
