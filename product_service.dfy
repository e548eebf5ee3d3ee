/**
 * The product catalogue as callers see it: listing and finding products,
 * and a lender creating, editing and deleting their own products. The
 * caller context is the mapping of the token's claims, absent when no one
 * is logged in.
 */
module ProductService {
  import opened Wrappers
  import opened Dynamo
  import opened Models
  import ProductRepository

  /** The body of a create or update call, as the request schema validates it. */
  datatype ProductRequest = ProductRequest(
    categoryId: int, name: string, description: string, duration: int, isAvailable: bool,
    imageUrl: Option<string>)

  // ---------------------------------------------------------------------
  // get_product_by_id

  /** A non-positive id is refused before the read; a missing product is an error. */
  function GetByIdSpec(db: Db, id: int): Result<ProductView, Fault> {
    if id <= 0 then Err(Fail("product ID must be a positive integer"))
    else
      match ProductRepository.FindByIdSpec(db, id)
      case Err(e) => Err(e)
      case Ok(None) => Err(Fail("product not found"))
      case Ok(Some(view)) => Ok(view)
  }

  // ---------------------------------------------------------------------
  // create_product

  /** The product a create stores: the caller's, available, from the request's fields. */
  function NewProduct(req: ProductRequest, lender: int): Product {
    Product(None, lender, req.categoryId, req.name, req.description, req.duration, true, req.imageUrl)
  }

  /**
   * What getattr sees of a caller context: the request state holds the
   * token's claims as a mapping, which has no `role` or `user_id`
   * attribute; an object carrying the same fields as attributes has them.
   */
  datatype Caller = Claims(claims: Ctx) | Attributes(fields: Ctx)

  function RoleAttribute(c: Caller): Option<string> {
    match c
    case Claims(_) => None
    case Attributes(fields) => fields.role
  }

  function UserIdAttribute(c: Caller): Option<int> {
    match c
    case Claims(_) => None
    case Attributes(fields) => fields.userId
  }

  /** create_product as written: role and user id are read with getattr. */
  function CreateAsWritten(db: Db, req: ProductRequest, caller: Option<Caller>, now: int, accepted: bool)
    : (Result<(), Fault>, Db)
  {
    if caller.None? then (Err(Fail("user not logged in")), db)
    else if RoleAttribute(caller.value) != Some(LenderRole.Value()) then
      (Err(Fail("only lenders can create products")), db)
    else if BadId(UserIdAttribute(caller.value)) then (Err(Fail("invalid lender")), db)
    else
      var p := NewProduct(req, UserIdAttribute(caller.value).value);
      if !ValidProduct(p) then (Err(Invalid), db)
      else ProductRepository.CreateSpec(db, p, now, accepted)
  }

  /**
   * create_product with role and user id read from the claims mapping, as
   * the other product operations read them: only a lender with a positive
   * id creates, and the product is theirs and available.
   */
  function CreateSpec(db: Db, req: ProductRequest, ctx: Option<Ctx>, now: int, accepted: bool)
    : (Result<(), Fault>, Db)
  {
    if ctx.None? then (Err(Fail("user not logged in")), db)
    else if !IsLender(ctx.value) then (Err(Fail("only lenders can create products")), db)
    else if BadId(ctx.value.userId) then (Err(Fail("invalid lender")), db)
    else
      var p := NewProduct(req, ctx.value.userId.value);
      if !ValidProduct(p) then (Err(Invalid), db)
      else ProductRepository.CreateSpec(db, p, now, accepted)
  }

  /** Whether the caller may create: logged in, a lender, with a positive id. */
  predicate MayCreate(ctx: Option<Ctx>) {
    ctx.Some? && IsLender(ctx.value) && !BadId(ctx.value.userId)
  }

  /**
   * create succeeds exactly when the caller may create, the product is
   * valid and the store accepts; a failure writes nothing. The new product
   * is then found by get_product_by_id under the clock reading, as the
   * caller's, available, with an absent image url read back as "".
   */
  lemma CreateEffect(db: Db, req: ProductRequest, ctx: Option<Ctx>, now: int, accepted: bool)
    requires now > 0
    ensures var (r, db') := CreateSpec(db, req, ctx, now, accepted);
      && (r.Ok? <==> MayCreate(ctx) && ValidProduct(NewProduct(req, ctx.value.userId.value)) && accepted)
      && (r.Err? ==> db' == db)
      && (r.Ok? ==>
            && GetByIdSpec(db', now).Ok?
            && GetByIdSpec(db', now).value.product
               == NewProduct(req, ctx.value.userId.value).(id := Some(now), imageUrl := Some(ProductRepository.ImageOrEmpty(req.imageUrl))))
  {
    if MayCreate(ctx) {
      var p := NewProduct(req, ctx.value.userId.value);
      ProductRepository.CreateEffect(db, p, now, accepted);
      if ValidProduct(p) && accepted {
        ProductRepository.CreateThenFind(db, p, now, accepted);
      }
    }
  }

  /**
   * As written, create_product refuses every caller whose context is the
   * claims mapping, a lender included, and writes nothing, while the
   * intended reading lets that lender create a valid product. Only a
   * context object with attributes gets the intended behaviour.
   */
  lemma CreateAsWrittenRefusesLenders(db: Db, req: ProductRequest, ctx: Ctx, now: int, accepted: bool)
    requires IsLender(ctx) && !BadId(ctx.userId) && ValidProduct(NewProduct(req, ctx.userId.value))
    ensures CreateAsWritten(db, req, Some(Claims(ctx)), now, accepted) == (Err(Fail("only lenders can create products")), db)
    ensures CreateSpec(db, req, Some(ctx), now, accepted).0.Ok? <==> accepted
    ensures CreateAsWritten(db, req, Some(Attributes(ctx)), now, accepted) == CreateSpec(db, req, Some(ctx), now, accepted)
  {
    ProductRepository.CreateEffect(db, NewProduct(req, ctx.userId.value), now, accepted);
  }

  // ---------------------------------------------------------------------
  // update_product

  /** The stored product with the request's fields assigned over it; id and lender are kept. */
  function Edited(stored: Product, req: ProductRequest): Product {
    stored.(name := req.name, description := req.description, categoryId := req.categoryId,
            duration := req.duration, isAvailable := req.isAvailable, imageUrl := req.imageUrl)
  }

  /**
   * Only a logged-in lender who owns the product may update it. int() of an
   * absent user id raises. The edited product goes to the repository update.
   */
  function UpdateGuard(db: Db, id: int, ctx: Option<Ctx>): Result<Product, Fault> {
    if ctx.None? then Err(Fail("user not logged in"))
    else if !IsLender(ctx.value) then Err(Fail("only lenders can update products"))
    else
      match ProductRepository.FindByIdSpec(db, id)
      case Err(e) => Err(e)
      case Ok(None) => Err(Fail("product not found"))
      case Ok(Some(view)) =>
        if ctx.value.userId.None? then Err(Missing)
        else if view.product.lenderId != ctx.value.userId.value then Err(Fail("you can only update your own products"))
        else Ok(view.product)
  }

  function UpdateSpec(db: Db, id: int, req: ProductRequest, ctx: Option<Ctx>, accepted: bool)
    : (Result<(), Fault>, Db)
  {
    match UpdateGuard(db, id, ctx)
    case Err(e) => (Err(e), db)
    case Ok(stored) => ProductRepository.UpdateSpec(db, Edited(stored, req), accepted)
  }

  /** The lender of the stored product, when it is found. */
  function Owner(db: Db, id: int): Option<int> {
    var found := ProductRepository.FindByIdSpec(db, id);
    if found.Err? || found.value.None? then None else Some(found.value.value.product.lenderId)
  }

  /** The found product carries the id it is stored under, as every create writes it. */
  predicate SelfKeyed(db: Db, id: int) {
    var found := ProductRepository.FindByIdSpec(db, id);
    found.Ok? && found.value.Some? && found.value.value.product.id == Some(id)
  }

  /**
   * The update guards pass exactly for a logged-in lender who owns the
   * found product, and yield that product as stored.
   */
  lemma UpdateGuardPasses(db: Db, id: int, ctx: Option<Ctx>)
    ensures var g := UpdateGuard(db, id, ctx);
      && (g.Ok? <==> ctx.Some? && IsLender(ctx.value) && Owner(db, id).Some? && ctx.value.userId == Owner(db, id))
      && (g.Ok? ==> g.value == ProductRepository.FindByIdSpec(db, id).value.value.product)
  {
  }

  /**
   * update succeeds only for a logged-in lender who owns the found product,
   * and only when the store accepts; a failure writes nothing. For a product
   * stored under its own id those conditions suffice, and the stored item
   * then keeps its image url and id, whatever image url the request carried.
   */
  lemma UpdateEffect(db: Db, id: int, req: ProductRequest, ctx: Option<Ctx>, accepted: bool)
    ensures var (r, db') := UpdateSpec(db, id, req, ctx, accepted);
      var allowed := ctx.Some? && IsLender(ctx.value) && Owner(db, id).Some? && ctx.value.userId == Owner(db, id);
      && (r.Ok? ==> allowed && accepted)
      && (r.Err? ==> db' == db)
      && (allowed && accepted && SelfKeyed(db, id) ==>
            && r.Ok?
            && ProductRepository.PrimaryKey(id) in db'
            && Get(db'[ProductRepository.PrimaryKey(id)], "ImageUrl") == Get(db[ProductRepository.PrimaryKey(id)], "ImageUrl")
            && Get(db'[ProductRepository.PrimaryKey(id)], "ID") == Get(db[ProductRepository.PrimaryKey(id)], "ID"))
  {
    UpdateGuardPasses(db, id, ctx);
    var g := UpdateGuard(db, id, ctx);
    if g.Ok? {
      var stored := g.value;
      var p := Edited(stored, req);
      if stored.id == Some(id) {
        ProductRepository.UpdateEffect(db, p, accepted);
        if accepted {
          ProductRepository.UpdateKeepsImage(db, id, stored, p, accepted);
        }
      }
    }
  }

  // ---------------------------------------------------------------------
  // delete_product

  /**
   * Any logged-in owner may delete: the role is read but not checked. int()
   * of an absent user id raises.
   */
  function DeleteGuard(db: Db, id: int, ctx: Option<Ctx>): Result<Product, Fault> {
    if ctx.None? then Err(Fail("user not logged in"))
    else
      match ProductRepository.FindByIdSpec(db, id)
      case Err(e) => Err(e)
      case Ok(None) => Err(Fail("product not found"))
      case Ok(Some(view)) =>
        if ctx.value.userId.None? then Err(Missing)
        else if view.product.lenderId != ctx.value.userId.value then Err(Fail("you can only delete your own products"))
        else Ok(view.product)
  }

  function DeleteSpec(db: Db, id: int, ctx: Option<Ctx>, accepted: bool): (Result<(), Fault>, Db) {
    match DeleteGuard(db, id, ctx)
    case Err(e) => (Err(e), db)
    case Ok(_) => ProductRepository.DeleteSpec(db, id, accepted)
  }

  /** The delete guards pass exactly for a logged-in caller who owns the found product. */
  lemma DeleteGuardPasses(db: Db, id: int, ctx: Option<Ctx>)
    ensures DeleteGuard(db, id, ctx).Ok? <==> ctx.Some? && Owner(db, id).Some? && ctx.value.userId == Owner(db, id)
  {
  }

  /**
   * delete succeeds exactly when a logged-in caller owns the found product
   * and the store accepts, whatever the caller's role; a failure writes
   * nothing; success removes the stored item and its projections.
   */
  lemma DeleteEffect(db: Db, id: int, ctx: Option<Ctx>, accepted: bool)
    ensures var (r, db') := DeleteSpec(db, id, ctx, accepted);
      && (r.Ok? <==> ctx.Some? && Owner(db, id).Some? && ctx.value.userId == Owner(db, id) && accepted)
      && (r.Err? ==> db' == db)
      && (r.Ok? ==> ProductRepository.PrimaryKey(id) !in db')
  {
    DeleteGuardPasses(db, id, ctx);
    if DeleteGuard(db, id, ctx).Ok? {
      ProductRepository.DeleteDecoded(db, id, accepted);
      if accepted {
        ProductRepository.DeleteEffect(db, id, accepted);
      }
    }
  }

  /** Unlike update, delete does not look at the role: a caller with none deletes alike. */
  lemma DeleteIgnoresRole(db: Db, id: int, ctx: Ctx, accepted: bool)
    ensures DeleteSpec(db, id, Some(ctx), accepted) == DeleteSpec(db, id, Some(ctx.(role := None)), accepted)
    ensures UpdateSpec(db, id, ProductRequest(1, "a", "a", 1, true, None), Some(ctx.(role := None)), accepted)
         == (Err(Fail("only lenders can update products")), db)
  {
  }

  // ---------------------------------------------------------------------
  // The service

  class ProductSvc {
    const table: Table
    const products: ProductRepository.ProductRepo

    predicate Wired() {
      products.table == table && products.Wired()
    }

    constructor (table: Table, products: ProductRepository.ProductRepo)
      requires products.table == table && products.Wired()
      ensures Wired()
    {
      this.table := table;
      this.products := products;
    }

    /** get_all_products: the filter is handed to the repository listing. */
    method GetAllProducts(f: ProductRepository.ProductFilter)
      returns (r: Result<seq<ProductView>, Fault>, ghost rows: seq<Row>)
      requires Wired()
      ensures IsQueryResult(table.items, ProductRepository.CorrectedQueryKey(f).0, ProductRepository.CorrectedQueryKey(f).1, rows)
      ensures r == ProductRepository.FindAllSpec(table.items, rows, f)
    {
      r, rows := products.FindAll(f);
    }

    /** get_product_by_id. */
    method GetProductById(id: int) returns (r: Result<ProductView, Fault>)
      requires Wired()
      ensures r == GetByIdSpec(table.items, id)
    {
      if id <= 0 {
        return Err(Fail("product ID must be a positive integer"));
      }
      var found := products.FindById(id);
      if found.Err? {
        return Err(found.error);
      }
      if found.value.None? {
        return Err(Fail("product not found"));
      }
      r := Ok(found.value.value);
    }

    /**
     * create_product, with role and user id read from the claims mapping;
     * `now` stands for the clock reading the repository takes as id.
     */
    method CreateProduct(req: ProductRequest, ctx: Option<Ctx>, now: int)
      returns (r: Result<(), Fault>, ghost accepted: bool)
      requires Wired()
      modifies table
      ensures (r, table.items) == CreateSpec(old(table.items), req, ctx, now, accepted)
    {
      if ctx.None? {
        return Err(Fail("user not logged in")), false;
      }
      if ctx.value.role != Some(LenderRole.Value()) {
        return Err(Fail("only lenders can create products")), false;
      }
      if ctx.value.userId.None? || ctx.value.userId.value <= 0 {
        return Err(Fail("invalid lender")), false;
      }
      var p := Product(None, ctx.value.userId.value, req.categoryId, req.name, req.description, req.duration, true,
                       req.imageUrl);
      if !ValidProduct(p) {
        return Err(Invalid), false;
      }
      r, accepted := products.Create(p, now);
    }

    /** update_product. */
    method UpdateProduct(id: int, req: ProductRequest, ctx: Option<Ctx>) returns (r: Result<(), Fault>, ghost accepted: bool)
      requires Wired()
      modifies table
      ensures (r, table.items) == UpdateSpec(old(table.items), id, req, ctx, accepted)
    {
      var checked := CheckUpdate(id, ctx);
      if checked.Err? {
        return Err(checked.error), false;
      }
      var stored := checked.value;
      var edited := stored.(name := req.name, description := req.description, categoryId := req.categoryId,
                            duration := req.duration, isAvailable := req.isAvailable, imageUrl := req.imageUrl);
      r, accepted := products.Update(edited);
    }

    /** The checks of update_product: logged in, lender, product found, owned by the caller. */
    method CheckUpdate(id: int, ctx: Option<Ctx>) returns (r: Result<Product, Fault>)
      requires Wired()
      ensures r == UpdateGuard(table.items, id, ctx)
    {
      if ctx.None? {
        return Err(Fail("user not logged in"));
      }
      if ctx.value.role != Some(LenderRole.Value()) {
        return Err(Fail("only lenders can update products"));
      }
      var found := products.FindById(id);
      if found.Err? {
        return Err(found.error);
      }
      if found.value.None? {
        return Err(Fail("product not found"));
      }
      if ctx.value.userId.None? {
        return Err(Missing);
      }
      var stored := found.value.value.product;
      if stored.lenderId != ctx.value.userId.value {
        return Err(Fail("you can only update your own products"));
      }
      r := Ok(stored);
    }

    /** delete_product. */
    method DeleteProduct(id: int, ctx: Option<Ctx>) returns (r: Result<(), Fault>, ghost accepted: bool)
      requires Wired()
      modifies table
      ensures (r, table.items) == DeleteSpec(old(table.items), id, ctx, accepted)
    {
      var checked := CheckDelete(id, ctx);
      if checked.Err? {
        return Err(checked.error), false;
      }
      r, accepted := products.DeleteProduct(id);
    }

    /** The checks of delete_product: logged in, product found, owned by the caller. */
    method CheckDelete(id: int, ctx: Option<Ctx>) returns (r: Result<Product, Fault>)
      requires Wired()
      ensures r == DeleteGuard(table.items, id, ctx)
    {
      if ctx.None? {
        return Err(Fail("user not logged in"));
      }
      var found := products.FindById(id);
      if found.Err? {
        return Err(found.error);
      }
      if found.value.None? {
        return Err(Fail("product not found"));
      }
      if ctx.value.userId.None? {
        return Err(Missing);
      }
      if found.value.value.product.lenderId != ctx.value.userId.value {
        return Err(Fail("you can only delete your own products"));
      }
      r := Ok(found.value.value.product);
    }
  }
}
