/**
 * The records the lending backend stores and the status enumerations they
 * carry, with the field constraints the record classes validate.
 * Timestamps (CreatedAt, StartDate, EndDate) are not part of the model.
 */
module Models {
  import opened Wrappers
  import opened Dynamo

  // ---------------------------------------------------------------------
  // Status enumerations; each is a string enum, stored by its value

  datatype OrderStatus = InUse | ReturnRequested | Returned
  {
    function Value(): (s: string)
      ensures HashFree(s) && s != ""
    {
      match this
      case InUse => "In Use"
      case ReturnRequested => "Return Requested"
      case Returned => "Returned"
    }
  }

  /** OrderStatus(s): the member whose value is s, if any. */
  function ParseOrderStatus(s: string): (r: Option<OrderStatus>)
    ensures forall st: OrderStatus :: r == Some(st) <==> st.Value() == s
  {
    if s == "In Use" then Some(InUse)
    else if s == "Return Requested" then Some(ReturnRequested)
    else if s == "Returned" then Some(Returned)
    else None
  }

  datatype ReturnStatus = Pending | Approved | Rejected
  {
    function Value(): (s: string)
      ensures HashFree(s) && s != ""
    {
      match this
      case Pending => "Pending"
      case Approved => "Approved"
      case Rejected => "Rejected"
    }
  }

  function ParseReturnStatus(s: string): (r: Option<ReturnStatus>)
    ensures forall st: ReturnStatus :: r == Some(st) <==> st.Value() == s
  {
    if s == "Pending" then Some(ReturnStatus.Pending)
    else if s == "Approved" then Some(ReturnStatus.Approved)
    else if s == "Rejected" then Some(ReturnStatus.Rejected)
    else None
  }

  /** The buy-request statuses: the same three values as ReturnStatus. */
  datatype BuyRequestStatus = Pending | Approved | Rejected
  {
    function Value(): (s: string)
      ensures HashFree(s) && s != ""
    {
      match this
      case Pending => "Pending"
      case Approved => "Approved"
      case Rejected => "Rejected"
    }
  }

  function ParseBuyRequestStatus(s: string): (r: Option<BuyRequestStatus>)
    ensures forall st: BuyRequestStatus :: r == Some(st) <==> st.Value() == s
  {
    if s == "Pending" then Some(BuyRequestStatus.Pending)
    else if s == "Approved" then Some(BuyRequestStatus.Approved)
    else if s == "Rejected" then Some(BuyRequestStatus.Rejected)
    else None
  }

  datatype Role = UserRole | LenderRole
  {
    function Value(): (s: string)
      ensures HashFree(s) && s != "" && Lower(s) == s
    {
      match this
      case UserRole => "user"
      case LenderRole => "lender"
    }
  }

  function ParseRole(s: string): (r: Option<Role>)
    ensures forall role: Role :: r == Some(role) <==> role.Value() == s
  {
    if s == "user" then Some(UserRole)
    else if s == "lender" then Some(LenderRole)
    else None
  }

  // ---------------------------------------------------------------------
  // Records. An id of None is one the repository has not assigned yet.

  datatype BuyRequest = BuyRequest(id: Option<int>, productId: int, requestedBy: int, status: BuyRequestStatus)

  datatype Order = Order(
    id: Option<int>, productId: int, userId: int,
    totalAmount: int, securityAmount: int, status: OrderStatus)

  datatype ReturnRequest = ReturnRequest(id: Option<int>, orderId: int, requestedBy: int, status: ReturnStatus)

  datatype Product = Product(
    id: Option<int>, lenderId: int, categoryId: int, name: string, description: string,
    duration: int, isAvailable: bool, imageUrl: Option<string>)

  datatype Category = Category(id: Option<int>, name: string, price: int, security: int)

  datatype Feedback = Feedback(id: Option<int>, givenBy: int, givenTo: int, text: string, rating: int)

  datatype User = User(
    id: Option<int>, fullName: string, email: string, phoneNumber: string, address: string,
    passwordHash: string, societyId: int, role: Role)

  /** What the found product comes back as: the product, its category and its lender, if found. */
  datatype ProductView = ProductView(product: Product, category: Option<Category>, lender: Option<User>)

  // Field constraints the record classes enforce on construction

  predicate ValidBuyRequest(b: BuyRequest) { b.productId > 0 && b.requestedBy > 0 }

  predicate ValidOrder(o: Order) { o.productId > 0 && o.userId > 0 }

  predicate ValidReturnRequest(r: ReturnRequest) { r.orderId > 0 && r.requestedBy > 0 }

  predicate ValidProduct(p: Product) {
    && p.lenderId > 0 && p.categoryId > 0
    && 1 <= |p.name| <= 100 && 1 <= |p.description| <= 500
    && p.duration > 0
  }

  predicate ValidFeedback(f: Feedback) {
    f.givenBy > 0 && f.givenTo > 0 && 1 <= |f.text| <= 1000 && 1 <= f.rating <= 5
  }

  /**
   * The created_at argument a record is built with: a reading of the clock
   * (`datetime.now()`), or the clock method itself (`datetime.now`).
   */
  datatype Stamp = Reading | ClockMethod

  /** A `datetime` field accepts a datetime and refuses a method object. */
  predicate StampValidates(s: Stamp) { s.Reading? }

  // ---------------------------------------------------------------------
  // Errors and the caller's identity

  /**
   * Fail carries the message of a RuntimeError the code raises itself;
   * Malformed is a stored item that does not decode (TypeError, KeyError or
   * a validation error while reading); Invalid is a record the code builds
   * that fails its own field constraints; Store is a rejected write;
   * Missing is the TypeError or AttributeError of using a value that is None
   * (int() of an absent context field, the id of an absent category).
   */
  datatype Fault =
    | Fail(msg: string)
    | Malformed
    | Invalid
    | Store(error: StoreError)
    | Missing
    | UserAlreadyExists
    | UserNotFound
    | UserRepositoryError

  /** The result of a repository write: None on success, the store's error otherwise. */
  function Done(o: Outcome): (r: Result<(), Fault>)
    ensures r.Ok? <==> o.Committed?
  {
    if o.Committed? then Ok(()) else Err(Store(o.error))
  }

  /** The authenticated caller: user_id and role as the request context holds them. */
  datatype Ctx = Ctx(userId: Option<int>, role: Option<string>)

  /** Python truthiness of an optional id: neither None nor 0. */
  predicate Truthy(o: Option<int>) { o.Some? && o.value != 0 }

  /** `id is None or int(id) <= 0`: the guard the services use on caller ids. */
  predicate BadId(o: Option<int>) { o.None? || o.value <= 0 }

  /** `role in (Role.lender, "lender")`. */
  predicate IsLender(ctx: Ctx) { ctx.role == Some(LenderRole.Value()) }
}
