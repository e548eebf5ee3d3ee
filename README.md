# loopit lending backend, modelled in Dafny

loopit is a lending backend. Users register, become lenders, list products, ask to borrow them, and review the loans. A lender approves a buy request, which places an order priced by the product's category. A return request closes the loan. All of this lives in one DynamoDB table. Every repository writes each logical record several times, once per access path (a "projection"), so that the records can be listed by borrower, lender, status, name or category.

The model has two layers.

- **The store** (`dynamo.dfy`). The table is a `Dynamo.Table` object holding a map from (partition key, sort key) to items.
  - Put, update (an upsert), delete and transactional writes are all-or-nothing. They are specified by the pure function `Dynamo.Commit`.
  - A transaction with two operations on one key is refused with ValidationException.
  - An `attribute_not_exists` condition that fails cancels the whole transaction.
  - A call that does not reach the store fails with nothing written.
  - A query returns every item of one partition whose sort key begins with a prefix, each once, in an order the store chooses.
  - Numbers inside keys are rendered as Python prints them, so prefix matching is modelled exactly.
- **The repositories and services.** There is one Dafny module per Python file:
  - the repositories: order, buy request, return request, feedback, product, user;
  - the services: order, buy request, return request, feedback, product, user.

  Each repository and service is a class over the shared table. Each method is proved against a pure specification function of the old table, and that function's properties are proved as lemmas.
  - Whether the store accepts a write is a ghost out-parameter.
  - The rows a query returned are a ghost out-parameter as well.
  - So every specification is a function of these two choices.
  - `listing.dfy` holds the shape every listing loop shares: skip a row, keep a decoded row, or abort on the first row that raises.

The specification functions and lemmas keep the code's behaviour as written, including where it departs from what its own design suggests:

- Registration writes the role copy under `ROLE#role#USER#id` and the society copy under `USER#ID#id`. Promotion and deletion look under `ROLE#role#ID#id` and `USER#id`. Those copies therefore survive, and the email copy is never deleted. A deleted user is still found by email, and that email can never register again.
- Promotion to lender puts a lender copy holding only Role and ID. A later listing of users by the lender role fails, because that copy does not decode as a user.
- A user listing by search term alone is empty or fails: the filter reads a name the user record does not have.
- The buy-request status projection written on a status change carries only Status and ID. Deleting a buy request removes only its primary item.
- Approving a buy request places the order first and then flips the status. Nothing checks that the request is still Pending: approving it again places a second order, and the status write is then refused, because its delete and its put name the same key. This holds once the order is built with a clock reading; as written, no approval gets that far (see "## Findings").
- `mark_order_as_returned` sets Returned without the Return Requested gate that `update_order_status` applies.
- Creating a return request is two separate writes, so a failure of the second leaves the order Return Requested. Resolving a return request never touches the order.
- Updating a return request's status upserts, so an unknown id creates an item that does not decode.
- Feedback does not check that the order belongs to the author.
- Product deletion checks ownership but not the role.
- Moving a product to another category deletes the old category copy. It then assigns the attributes to the new category key without the ID, so the upsert creates an item that does not decode, and listing that category fails.

Five places where the code evidently means something other than what it does are listed under "## Findings". In each, the model states the code as written and shows the discrepancy with a lemma. Everywhere else it uses the intended version. In particular, these service and repository methods run the intended behaviour, not the code as written:
- `OrderService.OrderSvc.GetAllApprovedAwaitingOrders`;
- `ProductRepository.ProductRepo.FindAll` and `ProductService.ProductSvc.GetAllProducts`;
- `ProductService.ProductSvc.CreateProduct`;
- `BuyRequestService.BuyRequestSvc.CreateBuyerRequest`, `UpdateBuyerRequestStatus` and `ApproveRequest`.

Each has a line under "## Left out".

## Model

| member | source | states |
|---|---|---|
| Models.OrderStatus.Value | loopit/src/models/enums/order_status.py:4-7 | each order status is stored as its non-empty string value ("In Use", "Return Requested", "Returned"), which holds no '#' and so can sit inside a sort key |
| Models.ParseOrderStatus | loopit/src/models/enums/order_status.py:4-7 | OrderStatus(s) finds exactly the member whose value is s, and nothing when no member has that value |
| Models.ReturnStatus.Value | loopit/src/models/enums/return_req_status.py:5-8 | each return status is stored as its non-empty, '#'-free value |
| Models.ParseReturnStatus | loopit/src/models/enums/return_req_status.py:5-8 | ReturnStatus(s) finds exactly the member whose value is s |
| Models.BuyRequestStatus.Value | loopit/src/models/buy_request.py:19 | each buy-request status is stored as its non-empty, '#'-free value |
| Models.ParseBuyRequestStatus | loopit/src/models/buy_request.py:19 | BuyRequestStatus(s) finds exactly the member whose value is s |
| Models.Role.Value | loopit/src/models/user.py:21 | the role values "user" and "lender" are '#'-free, non-empty and already lower case |
| Models.ParseRole | loopit/src/models/user.py:21 | Role(s) finds exactly the role whose value is s |
| Models.Done | loopit/src/repository/order_repository.py:55-61 | a repository write succeeds exactly when its transaction commits; otherwise it raises the store's error |
| Dynamo.NatStr | loopit/src/repository/order_repository.py:50-52 | the decimal rendering of a natural inside an f-string key is non-empty, all digits, one digit long exactly below 10 |
| Dynamo.Str | loopit/src/repository/order_repository.py:50-52 | str() of an int inside a key is non-empty, holds no '#', and starts with '-' exactly for negatives |
| Dynamo.StrInjective | loopit/src/repository/order_repository.py:50-52 | two ids with the same rendering are equal, so keys built from different ids are different keys |
| Dynamo.SplitAtHash | loopit/src/repository/product_repository.py:42-45 | a '#'-free segment is recovered from "segment#rest", which makes the composite sort keys unambiguous |
| Dynamo.FirstHash | loopit/src/repository/product_repository.py:42-45 | the position found is that of the first '#', or the length when there is none |
| Dynamo.Lower | loopit/src/repository/product_repository.py:44 | str.lower() keeps the length, lower-cases each ASCII letter and keeps a '#'-free name '#'-free |
| Dynamo.Commit | loopit/src/repository/product_repository.py:47-55 | TransactWriteItems is all or nothing: a failed call writes nothing; it commits exactly when the call is accepted, the keys are distinct and every put condition holds; it fails with ValidationException on a repeated key and TransactionCanceled on a failed condition; a commit leaves every key it does not touch unchanged |
| Dynamo.CommittedAt | loopit/src/repository/product_repository.py:227-229 | after a commit, each written key holds what its own write makes of it |
| Dynamo.CommittedAll | loopit/src/repository/product_repository.py:227-229 | after a commit, every written key at once holds what its write makes of it |
| Dynamo.CommittedDeletesThenUpserts | loopit/src/repository/product_repository.py:180-229 | a committed transaction of deletes followed by upserts of one assignment: upserted keys hold their old attributes overwritten by the assigned ones, deleted keys are gone, every other key is unchanged |
| Dynamo.Table.TryGetItem | loopit/src/repository/user/user_repository.py:31-67 | a get that the store answers returns the item under the key; one it does not answer raises |
| Dynamo.Table.GetItem | loopit/src/repository/order_repository.py:170-174 | get_item returns the item under the key, or nothing |
| Dynamo.Table.Query | loopit/src/repository/order_repository.py:102-107 | query returns exactly the items of the partition whose sort key begins with the prefix, each once |
| Dynamo.Table.TransactWrite | loopit/src/repository/order_repository.py:54-55 | transact_write_items changes the table exactly as Commit describes |
| Dynamo.Table.PutItem | loopit/src/repository/return_request_repository.py:38-43 | put_item is a one-write transaction with an unconditional put |
| Dynamo.Table.UpdateItem | loopit/src/repository/return_request_repository.py:53-61 | update_item with a SET expression is a one-write upsert |
| Dynamo.Table.DeleteItem | loopit/src/repository/buy_request_repository.py:154-155 | delete_item is a one-write delete, which succeeds on an absent item |
| Listing.CollectOk | loopit/src/repository/order_repository.py:108-124 | a decoding loop returns a list exactly when no row makes it raise |
| Listing.CollectNoStop | loopit/src/repository/order_repository.py:108-124 | without a raising row the loop returns exactly the kept values, in row order |
| Listing.CollectStop | loopit/src/repository/order_repository.py:108-124 | a raising row makes the whole loop raise, with the error of the first such row |
| Listing.FirstStop | loopit/src/repository/order_repository.py:108-124 | when some row raises there is a first one, before which no row raises |
| Listing.KeptMember | loopit/src/repository/order_repository.py:108-124 | a value is in the list exactly when some row's iteration keeps it |
| Listing.CollectNext | loopit/src/repository/order_repository.py:110-124 | the loop state after i+1 rows follows from the state after i rows and row i alone |
| Listing.CollectAdvance | loopit/src/repository/order_repository.py:110-124 | one iteration from a state that has not raised: a skip keeps the list, a keep appends, a raise decides the listing |
| Listing.CollectErrSticky | loopit/src/repository/order_repository.py:110-124 | once the loop has raised, later rows do not change the outcome |
| OrderRepository.Decode | loopit/src/repository/order_repository.py:111-123 | reading an order back from a stored item either yields an order or raises a validation error, never anything else |
| OrderRepository.DecodeAttributes | loopit/src/repository/order_repository.py:38-53 | an order written by create_order reads back as itself, carrying the id it was written under |
| OrderRepository.KeysDistinct | loopit/src/repository/order_repository.py:49-53 | the user copy, the lender copy and the primary copy of one order lie in three different partitions |
| OrderRepository.PrimaryKeyInjective | loopit/src/repository/order_repository.py:52 | two ids with the same primary key "ORDER"/"ID#id" are the same id |
| OrderRepository.CreateEffect | loopit/src/repository/order_repository.py:26-61 | create_order succeeds exactly when the product is found and the store accepts; it then writes the order's attributes under the three keys of the order's user and the product's current lender and changes nothing else; on any failure nothing is written |
| OrderRepository.CreateThenGet | loopit/src/repository/order_repository.py:26-61 | after a successful create_order, get_order_by_id of the new id returns the order with that id, and its three copies are equal |
| OrderRepository.UpdateStatusCommitted | loopit/src/repository/order_repository.py:72-92 | a committed status transaction sets Status on the three keys, creating a Status-only item where a key held nothing, and changes no other key |
| OrderRepository.UpdateStatusOpsAccepted | loopit/src/repository/order_repository.py:72-91 | the three status updates name three different keys and carry no condition, so only the store's own refusal can fail them |
| OrderRepository.UpdateStatusEffect | loopit/src/repository/order_repository.py:63-98 | update_order_status succeeds exactly when the order and its product are found and the store accepts; it then is the status transaction on the keys of the order's user and the product's current lender; a failure writes nothing |
| OrderRepository.UpdateStatusThenGet | loopit/src/repository/order_repository.py:72-92 | when the three copies agree, the status transaction keeps them agreeing and the order reads back unchanged except for the new status |
| OrderRepository.UpdateStatusSpecThenGet | loopit/src/repository/order_repository.py:63-98 | a successful update_order_status on an order whose copies agree reads back as the same order with the new status |
| OrderRepository.StatusSetDecodes | loopit/src/repository/order_repository.py:77-79 | setting a known status on a stored order changes only its status |
| OrderRepository.UpdateStatusAfterLenderChange | loopit/src/repository/order_repository.py:68-76 | when the product has moved to a lender holding no copy of the order, the update creates a Status-only item under the new lender that does not decode, so that lender's order listing raises from then on |
| OrderRepository.StatusOnlyCopy | loopit/src/repository/order_repository.py:74-92 | a status update of a key that held nothing leaves an item holding only the status |
| OrderRepository.StatusOnlyMalformed | loopit/src/repository/order_repository.py:146-158 | an item holding nothing but a status is not an order |
| OrderRepository.WithStatus | loopit/src/repository/order_repository.py:125-127 | the status filter keeps exactly the orders whose status value is in the filter list, and never more than it was given |
| OrderRepository.HistoryMembers | loopit/src/repository/order_repository.py:100-134 | get_order_history returns a list exactly when every listed item decodes; an order is in it exactly when some listed item decodes to it and the filter is empty or holds its status |
| OrderRepository.LenderOrdersUnfiltered | loopit/src/repository/order_repository.py:136-166 | the lender listing decodes the lender's copies exactly as the history does without a filter |
| OrderRepository.OrderRepo.CreateOrder | loopit/src/repository/order_repository.py:26-61 | the method changes the table and returns exactly as CreateEffect describes |
| OrderRepository.OrderRepo.UpdateOrderStatus | loopit/src/repository/order_repository.py:63-98 | the method changes the table and returns exactly as UpdateStatusEffect describes |
| OrderRepository.OrderRepo.DecodeAll | loopit/src/repository/order_repository.py:108-124 | the decoding loop returns what the listing shape prescribes: the decoded orders in row order, or the first decoding error |
| OrderRepository.OrderRepo.GetOrderHistory | loopit/src/repository/order_repository.py:100-134 | the query reads exactly the user's order copies and the result is the filtered history of those rows |
| OrderRepository.OrderRepo.GetLenderOrders | loopit/src/repository/order_repository.py:136-166 | the query reads exactly the lender's order copies and the result is their decoded list |
| OrderRepository.OrderRepo.GetOrderById | loopit/src/repository/order_repository.py:168-193 | get_order_by_id returns nothing for an absent id, the decoded order otherwise, and raises on an item that does not decode |
| BuyRequestRepository.Decode | loopit/src/repository/buy_request_repository.py:137-144 | reading a request back either yields a request or raises a validation error |
| BuyRequestRepository.DecodeAttributes | loopit/src/repository/buy_request_repository.py:27-37 | a request written by create_buyer_request reads back as itself with the id it was written under |
| BuyRequestRepository.PrimaryKeyInjective | loopit/src/repository/buy_request_repository.py:35 | two ids with the same primary key "BUYREQUEST"/"ID#id" are the same id |
| BuyRequestRepository.PrimaryIsNotStatus | loopit/src/repository/buy_request_repository.py:35-36 | a primary key "ID#…" is never a status projection key "STATUS#…" |
| BuyRequestRepository.StatusKeyInjective | loopit/src/repository/buy_request_repository.py:36 | the projection key "STATUS#s#ID#id" determines both the ('#'-free) status and the id |
| BuyRequestRepository.StatusKeySameId | loopit/src/repository/buy_request_repository.py:98-115 | for one id, the old and new projection keys coincide exactly when the two statuses are equal |
| BuyRequestRepository.CreateEffect | loopit/src/repository/buy_request_repository.py:23-45 | create_buyer_request succeeds exactly when the store accepts; it then writes the request under its primary key and under its status projection key, and changes nothing else; a refusal writes nothing |
| BuyRequestRepository.CreateKeepsIndexed | loopit/src/repository/buy_request_repository.py:23-45 | creating a request under a fresh id keeps the index invariants: every request has a projection equal to it under its current status, and every projection belongs to a request with that status |
| BuyRequestRepository.CreateThenGet | loopit/src/repository/buy_request_repository.py:23-150 | a created request is found again by get_buyer_request_by_id, carrying its new id |
| BuyRequestRepository.UpdateStatusEffect | loopit/src/repository/buy_request_repository.py:83-128 | update_status_buyer_request raises "buyer request not found" for an absent id; setting the status it already has names one key twice and the store rejects it with ValidationException; otherwise it succeeds exactly when the store accepts, sets Status on the primary item, deletes the old projection, puts a new projection holding only Status and ID, and changes nothing else |
| BuyRequestRepository.UpdateStatusBreaksIndexed | loopit/src/repository/buy_request_repository.py:110-121 | after a successful status update the new projection is not a copy of the request, so the index invariant no longer holds |
| BuyRequestRepository.DeleteLeavesProjection | loopit/src/repository/buy_request_repository.py:152-162 | delete_buyer_request removes only the primary item: the status projection stays behind and now belongs to no request |
| BuyRequestRepository.GetAllSound | loopit/src/repository/buy_request_repository.py:47-81 | every listed request matches the product filter and the status filter, is well formed, and is the decoding of some queried row |
| BuyRequestRepository.GetAllComplete | loopit/src/repository/buy_request_repository.py:47-81 | an unfiltered listing that succeeds contains every stored request of the product asked for |
| BuyRequestRepository.ListingAfterUpdateFails | loopit/src/repository/buy_request_repository.py:47-121 | after a successful status update, listing by that status raises: the projection the update wrote holds no ProductId or RequestedBy |
| BuyRequestRepository.ProjectionStops | loopit/src/repository/buy_request_repository.py:59-74 | a listed projection holding only Status and ID makes the status-filtered listing raise |
| BuyRequestRepository.BuyRequestRepo.Create | loopit/src/repository/buy_request_repository.py:23-45 | the method changes the table and returns exactly as CreateEffect describes |
| BuyRequestRepository.BuyRequestRepo.GetAll | loopit/src/repository/buy_request_repository.py:47-81 | the query reads exactly the rows under the prefix chosen by the status filter and the loop returns the listing GetAllSound and GetAllComplete describe |
| BuyRequestRepository.BuyRequestRepo.Classify | loopit/src/repository/buy_request_repository.py:60-73 | one loop iteration: a row of another product or status is skipped, a row that decodes is kept, and a row without ProductId (under a product filter) or that does not decode raises |
| BuyRequestRepository.BuyRequestRepo.UpdateStatus | loopit/src/repository/buy_request_repository.py:83-128 | the method changes the table and returns exactly as UpdateStatusEffect describes |
| BuyRequestRepository.BuyRequestRepo.GetById | loopit/src/repository/buy_request_repository.py:130-150 | get_buyer_request_by_id returns nothing for an absent id, the decoded request otherwise, and raises on an item that does not decode |
| BuyRequestRepository.BuyRequestRepo.DeleteBuyerRequest | loopit/src/repository/buy_request_repository.py:152-162 | the method deletes the primary item, as DeleteLeavesProjection describes |
| ReturnRequestRepository.Decode | loopit/src/repository/return_request_repository.py:108-115 | reading a return request back yields a request carrying an id and the stored status, or raises a validation error |
| ReturnRequestRepository.DecodeAttributes | loopit/src/repository/return_request_repository.py:29-37 | a request written by create_return_request reads back as itself with the id it was written under |
| ReturnRequestRepository.PrimaryKeyInjective | loopit/src/repository/return_request_repository.py:31 | two ids with the same key "RETURNREQUEST"/"ID#id" are the same id |
| ReturnRequestRepository.CreateThenGet | loopit/src/repository/return_request_repository.py:25-49 | create_return_request succeeds exactly when the store accepts; a created request is found again by its new id; no other key changes |
| ReturnRequestRepository.UpdateStatusEffect | loopit/src/repository/return_request_repository.py:51-67 | update_return_request_status succeeds exactly when the store accepts and never checks the request exists: a stored request reads back with the new status, while for an absent id it creates a Status-only item that does not decode; no other key changes |
| ReturnRequestRepository.StatusWriteDecodes | loopit/src/repository/return_request_repository.py:58-60 | setting a status on a request that decodes changes only its status |
| ReturnRequestRepository.StatusOnlyMalformed | loopit/src/repository/return_request_repository.py:108-115 | an item holding only a status is not a return request |
| ReturnRequestRepository.GetAllMembers | loopit/src/repository/return_request_repository.py:69-99 | get_all_return_requests returns a list exactly when every row passing the status filter decodes; a request is listed exactly when some passing row decodes to it |
| ReturnRequestRepository.GetAllFiltered | loopit/src/repository/return_request_repository.py:79-84 | with a non-empty filter, every listed request has a status in the filter |
| ReturnRequestRepository.GetAllAfterUpdateOfMissing | loopit/src/repository/return_request_repository.py:51-99 | after a status update of an absent id, every listing that the new status passes raises |
| ReturnRequestRepository.ReturnRequestRepo.CreateReturnRequest | loopit/src/repository/return_request_repository.py:25-49 | the method changes the table and returns as CreateThenGet describes |
| ReturnRequestRepository.ReturnRequestRepo.UpdateReturnRequestStatus | loopit/src/repository/return_request_repository.py:51-67 | the method changes the table and returns as UpdateStatusEffect describes |
| ReturnRequestRepository.ReturnRequestRepo.GetAllReturnRequests | loopit/src/repository/return_request_repository.py:69-99 | the query reads the whole return-request partition and the loop returns the listing GetAllMembers describes |
| ReturnRequestRepository.ReturnRequestRepo.Save | loopit/src/repository/return_request_repository.py:123-124 | save changes nothing |
| ReturnRequestRepository.ReturnRequestRepo.GetReturnRequestById | loopit/src/repository/return_request_repository.py:101-121 | get_return_request_by_id returns nothing for an absent id, the decoded request otherwise, and raises on an item that does not decode |
| FeedbackRepository.Decode | loopit/src/repository/feedback_repository.py:59-67 | reading feedback back yields well-formed feedback carrying the stored ID, or raises a validation error |
| FeedbackRepository.DecodeAttributes | loopit/src/repository/feedback_repository.py:25-34 | feedback written by create_feedback reads back as itself with the id it was written under |
| FeedbackRepository.CreateEffect | loopit/src/repository/feedback_repository.py:21-46 | create_feedback succeeds exactly when the store accepts; it then puts the feedback under "FEEDBACK"/"FEEDBACK#id" and changes nothing else; a refusal writes nothing |
| FeedbackRepository.GetAllMembers | loopit/src/repository/feedback_repository.py:48-75 | get_all_feedbacks returns a list exactly when every row decodes, and lists exactly the decoded rows |
| FeedbackRepository.CreateThenListed | loopit/src/repository/feedback_repository.py:21-75 | created feedback appears, with its new id, in every later listing that succeeds |
| FeedbackRepository.FeedbackRepo.CreateFeedback | loopit/src/repository/feedback_repository.py:21-46 | the method changes the table and returns as CreateEffect describes |
| FeedbackRepository.FeedbackRepo.GetAllFeedbacks | loopit/src/repository/feedback_repository.py:48-75 | the query reads the whole feedback partition and the loop returns the listing GetAllMembers describes |
| UserRepository.Decode | loopit/src/repository/user/user_repository.py:222-235 | reading a user back yields a user carrying the stored ID and role, or raises a validation error |
| UserRepository.DecodeAttributes | loopit/src/repository/user/user_repository.py:75-86 | a user written by create reads back as itself with the id it was written under |
| UserRepository.IdKeyInjective | loopit/src/repository/user/user_repository.py:92-93 | two ids with the same key "USER"/"ID#id" are the same id |
| UserRepository.CreatedRoleKeyIsNotRoleKey | loopit/src/repository/user/user_repository.py:115-183 | the role copy written at registration ("ROLE#r#USER#id") is never the key become_lender deletes or writes ("ROLE#r#ID#id") |
| UserRepository.RoleKeySameId | loopit/src/repository/user/user_repository.py:170-188 | for one id, two role keys "ROLE#r#ID#id" coincide exactly when the roles are equal |
| UserRepository.SocietyKeysDiffer | loopit/src/repository/user/user_repository.py:125-300 | the society copy written at registration ("USER#ID#id") is never the one delete_by_id removes ("USER#id") |
| UserRepository.KeysDistinct | loopit/src/repository/user/user_repository.py:87-132 | the four copies written at registration lie under four different keys |
| UserRepository.FindByEmailSpec | loopit/src/repository/user/user_repository.py:31-67 | a failed read raises UserRepositoryError; an unknown email raises UserNotFound; otherwise the stored user is decoded |
| UserRepository.CreateFault | loopit/src/repository/user/user_repository.py:139-146 | a cancelled transaction becomes UserAlreadyExists and every other store error UserRepositoryError |
| UserRepository.CreateEffect | loopit/src/repository/user/user_repository.py:70-146 | registration writes all four copies or none: it succeeds exactly when the store accepts and none of the four keys exists, returning the clock reading as the id; it fails with UserAlreadyExists exactly when one of them exists, and with UserRepositoryError exactly when the call fails; nothing else changes |
| UserRepository.EmailTaken | loopit/src/repository/user/user_repository.py:101-146 | a registration whose email is already stored is refused and writes nothing |
| UserRepository.CreateThenFind | loopit/src/repository/user/user_repository.py:70-283 | a registered user is found again both by id and by email |
| UserRepository.SocietyOf | loopit/src/repository/user/user_repository.py:159-295 | the stored SocietyID is read as an optional number, and raises when it is present but not one |
| UserRepository.BecomeLenderTwice | loopit/src/repository/user/user_repository.py:149-196 | promoting a user who is already a lender deletes and puts the same lender role key, so the store refuses the whole transaction and nothing changes |
| UserRepository.BecomeLenderEffect | loopit/src/repository/user/user_repository.py:149-196 | promoting a non-lender succeeds exactly when the store accepts; it sets the role on the id copy, deletes the old role copy, puts a lender copy holding only Role and ID, and the user then reads back with the lender role alone changed |
| UserRepository.PromotedDecodes | loopit/src/repository/user/user_repository.py:161-168 | setting the lender role on a stored user changes only its role |
| UserRepository.BecomeLenderKeepsCreatedRole | loopit/src/repository/user/user_repository.py:111-189 | become_lender never touches the role copy written at registration, so the "ROLE#r#USER#id" copy keeps the old role |
| UserRepository.FindAllMembers | loopit/src/repository/user/user_repository.py:198-245 | find_all succeeds exactly when every queried row decodes and, for a filter with a search term alone, no row is found; it then lists exactly the decoded rows |
| UserRepository.SearchOnlyListsNobody | loopit/src/repository/user/user_repository.py:236-238 | a search-only listing that succeeds is empty: the filter reads a name attribute the User record does not have |
| UserRepository.LenderListingFailsAfterPromotion | loopit/src/repository/user/user_repository.py:178-245 | after a promotion, listing users by the lender role raises: the lender copy holds only Role and ID and does not decode |
| UserRepository.LenderCopyListedMalformed | loopit/src/repository/user/user_repository.py:178-235 | the lender copy is listed by the lender-role query and does not decode as a user |
| UserRepository.Removal | loopit/src/repository/user/user_repository.py:296-304 | a conditional delete names its key exactly when its condition holds |
| UserRepository.DeleteEffect | loopit/src/repository/user/user_repository.py:285-310 | deleting an absent user succeeds without writing; otherwise it succeeds exactly when the store accepts, removes the id copy, and touches nothing but the copies it names; a failure writes nothing |
| UserRepository.CreatedCopiesNotDeleted | loopit/src/repository/user/user_repository.py:87-304 | none of the email, role and society copies written at registration is among the keys delete_by_id removes |
| UserRepository.DeleteAfterCreateKeepsCopies | loopit/src/repository/user/user_repository.py:70-310 | deleting a freshly registered user removes only the id copy: the email, role and society copies stay, and the user is still found by email |
| UserRepository.EmailNeverFreed | loopit/src/repository/user/user_repository.py:70-310 | after a user is registered and deleted, registering any user with the same email is still refused |
| UserRepository.UserRepo.FindByEmail | loopit/src/repository/user/user_repository.py:31-67 | the method returns as FindByEmailSpec describes |
| UserRepository.UserRepo.Create | loopit/src/repository/user/user_repository.py:70-146 | the method changes the table and returns as CreateEffect describes |
| UserRepository.UserRepo.BecomeLender | loopit/src/repository/user/user_repository.py:149-196 | the method changes the table and returns as BecomeLenderEffect and BecomeLenderTwice describe |
| UserRepository.UserRepo.FindAll | loopit/src/repository/user/user_repository.py:198-245 | the query reads exactly the rows under the key the filter selects (society over role over search) and the result is the listing FindAllMembers describes |
| UserRepository.UserRepo.FindById | loopit/src/repository/user/user_repository.py:247-283 | find_by_id returns nothing for an absent id, the decoded user otherwise, and raises on an item that does not decode |
| UserRepository.UserRepo.DeleteById | loopit/src/repository/user/user_repository.py:285-310 | the method changes the table and returns as DeleteEffect describes |
| ProductRepository.Decode | loopit/src/repository/product_repository.py:70-85 | reading a product back from any projection either yields a product or raises a validation error |
| ProductRepository.DecodeAttributes | loopit/src/repository/product_repository.py:30-40 | a product written by create reads back as itself with its id, a missing image url reading back as "" |
| ProductRepository.DecodeCategory | loopit/src/repository/product_repository.py:86-91 | reading a category record either yields a category or raises a validation error |
| ProductRepository.NameKeySameId | loopit/src/repository/product_repository.py:44 | for one id, two name projections are the same key only for the same lowered name |
| ProductRepository.CategoryKeyInjective | loopit/src/repository/product_repository.py:45 | for one id, two category projections are the same key only for the same category |
| ProductRepository.KeysDistinct | loopit/src/repository/product_repository.py:42-45 | the primary, lender and name projections of one product are three different keys, and the category projection lies in another partition |
| ProductRepository.FourKeysDistinct | loopit/src/repository/product_repository.py:42-259 | the four projections of one product are pairwise different keys |
| ProductRepository.CategoryRecordIsNotProjection | loopit/src/repository/product_repository.py:42-91 | no product projection is a category record |
| ProductRepository.UserRecordIsNotProjection | loopit/src/repository/product_repository.py:42-97 | no product projection is a user record |
| ProductRepository.CreateOpsShape | loopit/src/repository/product_repository.py:41-47 | create's four puts name the four keys of the product, in order, each with the product's attributes and no condition |
| ProductRepository.CreateEffect | loopit/src/repository/product_repository.py:27-55 | create succeeds exactly when the store accepts; it then writes the product's attributes under its four keys and changes nothing else; a refusal writes nothing |
| ProductRepository.CreateAgrees | loopit/src/repository/product_repository.py:41-49 | after a successful create the four projections exist and hold the same item |
| ProductRepository.CreateThenFind | loopit/src/repository/product_repository.py:27-98 | a created product is found again by its id, with the category and lender as stored |
| ProductRepository.FindAllIgnoresAvailability | loopit/src/repository/product_repository.py:100-174 | find_all never reads the is_available filter: changing it changes neither the query nor the result |
| ProductRepository.QueryKeyPrecedence | loopit/src/repository/product_repository.py:101-111 | the query key: a category filter wins, then a lender filter, then a search term on the name prefix, otherwise all primary items |
| ProductRepository.FindAllSearch | loopit/src/repository/product_repository.py:170-174 | with a search term a product is listed exactly when the loop kept it and the lowered term occurs in its lowered name or description; without one the loop's list is returned as it is |
| ProductRepository.LenderListingOvermatches | loopit/src/repository/product_repository.py:106-107 | as written, listing lender "1" also returns a product of lender 12, because "LENDER#1" is a prefix of "LENDER#12#ID#5" |
| ProductRepository.CorrectedLenderListing | loopit/src/repository/product_repository.py:43-107 | with a '#' after the lender id, lender l's listing matches a lender projection exactly when it belongs to lender l |
| ProductRepository.SeparatedPrefix | loopit/src/repository/product_repository.py:43-107 | "LENDER#a#" starts "LENDER#c#…" exactly when the '#'-free words a and c are equal |
| ProductRepository.StaleDeletesShape | loopit/src/repository/product_repository.py:180-198 | update deletes exactly the stale projections: the old category key when the category changes and the old name key when the name changes beyond case |
| ProductRepository.UpdateOpsUnconditional | loopit/src/repository/product_repository.py:180-227 | update's transaction holds deletes and upserts only, so no condition can fail it |
| ProductRepository.UpdateCommitted | loopit/src/repository/product_repository.py:176-235 | a committed update sets the SET attributes on the four keys of the new values (creating items that lack them), removes the stale projections and changes nothing else |
| ProductRepository.UpdateEffect | loopit/src/repository/product_repository.py:176-235 | once the stored product is found, update succeeds exactly when the store accepts, and then is that transaction; a failure writes nothing |
| ProductRepository.UpdateKeepsImage | loopit/src/repository/product_repository.py:199-208 | update never writes ImageUrl or ID: the primary item keeps both |
| ProductRepository.UpdateKeepsAgree | loopit/src/repository/product_repository.py:176-235 | an update that keeps lender, category and lowered name keeps the four projections equal |
| ProductRepository.UpdateCategoryLeavesPartial | loopit/src/repository/product_repository.py:181-226 | moving a product to a category that holds no projection of it creates a projection holding only the SET attributes, which does not decode and breaks the agreement of the four copies |
| ProductRepository.UpdateSetIsNoProduct | loopit/src/repository/product_repository.py:199-208 | the SET attributes alone lack the id and are no product |
| ProductRepository.ListingMovedCategoryFails | loopit/src/repository/product_repository.py:100-235 | after such a move, listing the new category raises |
| ProductRepository.PartialRowStops | loopit/src/repository/product_repository.py:130-150 | a listed row that does not decode makes find_all raise |
| ProductRepository.StopIsMalformed | loopit/src/repository/product_repository.py:130-168 | every way an iteration of find_all can raise is a stored item that does not decode |
| ProductRepository.DeleteEffect | loopit/src/repository/product_repository.py:237-268 | a successful delete removes exactly the four projections named by the stored primary item and changes nothing else |
| ProductRepository.DeleteDecoded | loopit/src/repository/product_repository.py:237-268 | deleting a stored product that decodes succeeds exactly when the store accepts; a refusal writes nothing |
| ProductRepository.DeleteOpsAccepted | loopit/src/repository/product_repository.py:254-261 | the four deletions name four different keys and carry no condition |
| ProductRepository.DeleteOpsCommitted | loopit/src/repository/product_repository.py:254-261 | a committed deletion of the four projections removes them and nothing else |
| ProductRepository.DeleteRemovesAgreeing | loopit/src/repository/product_repository.py:237-268 | for a product whose projections agree, delete removes all four of them |
| ProductRepository.ProductRepo.Create | loopit/src/repository/product_repository.py:27-55 | the method changes the table and returns as CreateEffect describes |
| ProductRepository.ProductRepo.FindCategory | loopit/src/repository/product_repository.py:86-91 | the category lookup returns nothing for an absent category, the decoded category otherwise |
| ProductRepository.ProductRepo.FindById | loopit/src/repository/product_repository.py:57-98 | find_by_id returns nothing for an absent id, raises on a primary item that does not decode, and otherwise returns the product with its category and lender, a failed lookup of either attached as nothing |
| ProductRepository.ProductRepo.FindAll | loopit/src/repository/product_repository.py:100-174 | the query reads exactly the rows under the key QueryKeyPrecedence describes, the lender prefix closed by its separator as CorrectedLenderListing requires, and the result is the listing FindAllSearch describes |
| ProductRepository.ProductRepo.Update | loopit/src/repository/product_repository.py:176-235 | the method changes the table and returns as UpdateEffect describes |
| ProductRepository.ProductRepo.StaleProjections | loopit/src/repository/product_repository.py:180-198 | the deletes built are those of the old category key, then the old name key, each only when it changed |
| ProductRepository.ProductRepo.DeleteProduct | loopit/src/repository/product_repository.py:237-268 | the method changes the table and returns as DeleteEffect and DeleteDecoded describe |
| ProductRepository.SearchFilter | loopit/src/repository/product_repository.py:170-172 | the search keeps exactly the products whose lowered name or description contains the lowered term, and never more than it was given |
| ProductRepository.PrimaryKeyInjective | loopit/src/repository/product_repository.py:42 | two ids with the same primary key "PRODUCT"/"PRODUCT#id" are the same id |
| OrderService.UpdateStatusEffect | loopit/src/service/order_service.py:19-29 | update_order_status succeeds exactly when the order is found, a move to Returned starts from Return Requested, the order's product is found and the store accepts; a failure writes nothing; on copies that agree, the order reads back with the new status |
| OrderService.UpdateStatusOutcome | loopit/src/service/order_service.py:19-29 | once the order is found and the Returned gate passes, the service call is exactly the repository's status write |
| OrderService.Values | loopit/src/service/order_service.py:36 | the status values passed down are the filter's statuses' values, one for one |
| OrderService.ValuesMember | loopit/src/service/order_service.py:36 | a status's value is among the passed values exactly when the status is in the filter |
| OrderService.HistoryMembers | loopit/src/service/order_service.py:31-42 | get_order_history raises without a user id or on a row that does not decode; otherwise an order is listed exactly when some row of the caller's partition decodes to it and the filter is empty or holds its status |
| OrderService.CopiesMatch | loopit/src/service/order_service.py:37-56 | the borrower's and the lender's copies of an order lie in the ranges their listings query |
| OrderService.CreatedCopyListed | loopit/src/service/order_service.py:31-60 | a placed order is read back from every listing whose query range holds one of its copies |
| OrderService.PlacedOrderInHistory | loopit/src/service/order_service.py:31-42 | a placed order appears in its borrower's unfiltered history whenever that history succeeds |
| OrderService.PlacedOrderListedForLender | loopit/src/service/order_service.py:44-60 | a placed order appears in the listing of the product's lender whenever that listing succeeds |
| OrderService.MarkReturnedEffect | loopit/src/service/order_service.py:62-76 | mark_order_as_returned succeeds exactly when the order and its product are found, the caller is the product's lender and the store accepts; an absent caller id raises; a failure writes nothing; on copies that agree the order reads back Returned |
| OrderService.MarkReturnedSkipsGate | loopit/src/service/order_service.py:19-76 | an order still In Use cannot be marked Returned through update_order_status, yet its lender marks it Returned through mark_order_as_returned whenever the store accepts |
| OrderService.ListingErrIsMalformed | loopit/src/service/order_service.py:87 | every error of the return-request listing is a row that does not decode |
| OrderService.AwaitingAsWrittenEmpty | loopit/src/service/order_service.py:87 | as written the filter is "approved" while stored statuses are "Approved", so the awaiting listing is always empty or raises |
| OrderService.AwaitCollectOk | loopit/src/service/order_service.py:89-95 | the loop over the listed requests raises exactly when reading one of their orders raises |
| OrderService.AwaitStepKeeps | loopit/src/service/order_service.py:90-95 | one iteration keeps an order exactly when it reads that order and the order is Return Requested |
| OrderService.AwaitCollectMember | loopit/src/service/order_service.py:89-96 | when the loop does not raise it keeps exactly the found orders that are Return Requested |
| OrderService.AwaitingMembers | loopit/src/service/order_service.py:78-99 | with the filter "Approved", a lender's listing succeeds exactly when the request listing does and every order read succeeds; an order is listed exactly when it is Return Requested and some Approved return request names it |
| OrderService.OrderSvc.UpdateOrderStatus | loopit/src/service/order_service.py:19-29 | the method changes the table and returns as UpdateStatusEffect describes |
| OrderService.OrderSvc.GetOrderHistory | loopit/src/service/order_service.py:31-42 | the query reads exactly the caller's order copies and the result is the history HistoryMembers describes |
| OrderService.OrderSvc.GetLenderOrders | loopit/src/service/order_service.py:44-60 | non-lenders and callers without a positive id are refused; otherwise the query reads exactly the caller's lender copies and lists them decoded |
| OrderService.OrderSvc.MarkOrderAsReturned | loopit/src/service/order_service.py:62-76 | the method changes the table and returns as MarkReturnedEffect describes |
| OrderService.OrderSvc.GetAllApprovedAwaitingOrders | loopit/src/service/order_service.py:78-99 | the method reads the return-request partition and returns the listing AwaitingMembers describes, with the filter value stored statuses carry |
| ReturnRequestService.OrderKeysOutside | loopit/src/service/return_request_service.py:42-43 | the order's copies never lie in the return-request partition, so the two writes of create touch disjoint keys |
| ReturnRequestService.CreateOutcome | loopit/src/service/return_request_service.py:21-46 | create_return_request succeeds exactly when the order is found and In Use, its product is found and lent by the caller, and both the order's status write and the request's put are accepted; a failed check or a refused status write changes nothing |
| ReturnRequestService.CreateEffect | loopit/src/service/return_request_service.py:21-46 | once the checks pass and the status write is accepted, the order reads back Return Requested whether or not the request's put then succeeds (the two writes are not one transaction); when the put succeeds the Pending request is found under the new id |
| ReturnRequestService.UpdateEffect | loopit/src/service/return_request_service.py:48-68 | update_return_request_status succeeds exactly when the new status is Approved or Rejected, the request is found and Pending, its order's borrower is the caller and the store accepts; a failure writes nothing; no key outside the return-request partition changes; the request then reads back with the new status |
| ReturnRequestService.UpdateGuardPasses | loopit/src/service/return_request_service.py:49-63 | the checks pass exactly when the new status is not Pending, the request is found and Pending and the caller borrows its order, and then hand on the stored request |
| ReturnRequestService.PendingCollectOk | loopit/src/service/return_request_service.py:74-77 | the loop raises exactly when reading the order of a listed request raises |
| ReturnRequestService.PendingCollectMember | loopit/src/service/return_request_service.py:74-77 | without a raise, the loop keeps exactly the listed requests whose order is found and borrowed by the caller |
| ReturnRequestService.PendingMembers | loopit/src/service/return_request_service.py:70-82 | get_pending_return_requests succeeds exactly when the Pending listing does and every order read does; a request is returned exactly when it is listed, Pending, and on an order the caller borrows |
| ReturnRequestService.ReturnRequestSvc.CheckCreate | loopit/src/service/return_request_service.py:23-40 | the reads and checks of create_return_request return the order and the new Pending request, or the first failing check's error |
| ReturnRequestService.ReturnRequestSvc.CreateReturnRequest | loopit/src/service/return_request_service.py:21-46 | the method changes the table and returns as CreateOutcome and CreateEffect describe |
| ReturnRequestService.ReturnRequestSvc.CheckUpdate | loopit/src/service/return_request_service.py:50-63 | the reads and checks of update_return_request_status return the stored request, or the first failing check's error |
| ReturnRequestService.ReturnRequestSvc.UpdateReturnRequestStatus | loopit/src/service/return_request_service.py:48-68 | the method changes the table and returns as UpdateEffect describes |
| ReturnRequestService.ReturnRequestSvc.GetPendingReturnRequests | loopit/src/service/return_request_service.py:70-82 | the method reads the return-request partition and returns the listing PendingMembers describes |
| ReturnRequestService.PendingStepKeeps | loopit/src/service/return_request_service.py:75-77 | one iteration keeps a request exactly when its order is found and borrowed by the caller |
| BuyRequestService.AdmissionPasses | loopit/src/service/buy_request_service.py:31-63 | a request is admitted exactly when the product is found and available, the caller has a positive id and is not its lender, the Pending listing of the product succeeds and holds no request from the caller, and the product id is positive; the admitted request is the caller's Pending request on that product |
| BuyRequestService.CreateEffect | loopit/src/service/buy_request_service.py:31-68 | with the request built on a clock reading, create_buyer_request succeeds exactly when the request is admitted and the store accepts; the new Pending request is then found under the new id with its status projection, nothing else changes, and a failure writes nothing |
| BuyRequestService.DuplicateRejected | loopit/src/service/buy_request_service.py:48-56 | while a stored Pending request of the caller on the product exists, a second create is refused and writes nothing |
| BuyRequestService.DuplicateNotAdmitted | loopit/src/service/buy_request_service.py:53-56 | a listed Pending request of the caller on the product keeps the new one from being admitted |
| BuyRequestService.ListingShowsRequest | loopit/src/service/buy_request_service.py:49-56 | a decodable Pending request on the product always appears in the duplicate check's listing when that listing succeeds |
| BuyRequestService.OthersDoNotBlock | loopit/src/service/buy_request_service.py:53-56 | requests of other users never block: the check looks only at the caller's own |
| BuyRequestService.FirstWithIdFinds | loopit/src/service/buy_request_service.py:80-83 | next() over the listed requests finds nothing exactly when no listed request has the id, and otherwise the first one that has it |
| BuyRequestService.UpdateRefusesEarly | loopit/src/service/buy_request_service.py:72-78 | a caller who is not a lender, or a target status other than "Approved" or "Rejected", is refused with its message before anything is read or written |
| BuyRequestService.UpdateIgnoresCallerId | loopit/src/service/buy_request_service.py:70-113 | the update never reads the caller's id: any lender can decide any request |
| BuyRequestService.OrderKeysOutside | loopit/src/service/buy_request_service.py:108-109 | an order's copies never lie in the buy-request partition |
| BuyRequestService.RejectWritesOnlyRequests | loopit/src/service/buy_request_service.py:85-87 | a successful rejection found its target and is exactly the repository's status write; no key outside the buy-request partition changes |
| BuyRequestService.GuardFindsTarget | loopit/src/service/buy_request_service.py:80-83 | past the role and status checks, the guard succeeds exactly when the listing finds the target, and yields it |
| BuyRequestService.FirstWithIdFindsTarget | loopit/src/service/buy_request_service.py:80-83 | the target found is one of the listed requests and carries the id asked for |
| BuyRequestService.UpdateApproves | loopit/src/service/buy_request_service.py:85-109 | for a lender and a found target, approving is exactly the approval branch on that well-formed target |
| BuyRequestService.StatusWriteKeepsOrders | loopit/src/service/buy_request_service.py:109 | the status write on a buy request leaves every order item as it was |
| BuyRequestService.PlacedOrderStays | loopit/src/service/buy_request_service.py:108-109 | once the order is placed it is found again after the status write, whatever that write's verdict |
| BuyRequestService.RefusedOrderChangesNothing | loopit/src/service/buy_request_service.py:108-109 | when placing the order fails, the approval fails with that error and writes nothing |
| BuyRequestService.PlacedOrderKept | loopit/src/service/buy_request_service.py:97-109 | an order priced by the product's category (price as total, security as deposit), borrowed by the requester and In Use, once placed is found again after the approval, even if the flip then fails |
| BuyRequestService.ApprovedAfterSuccess | loopit/src/service/buy_request_service.py:108-109 | a successful approval has placed the order and left the request Approved |
| BuyRequestService.ReapprovalPlacesSecondOrder | loopit/src/service/buy_request_service.py:85-109 | with the order built on a clock reading, approving a request that is already Approved places another order, and then the flip fails because the old and new status keys coincide: the call raises yet the order stays |
| BuyRequestService.CreateAsWrittenStoresNothing | loopit/src/service/buy_request_service.py:58-64 | as written, the request is built with the uncalled `datetime.now` as created_at, so past the admission create raises a validation error and writes nothing, where a clock reading would store the request exactly when the store accepts; with a clock reading the create is the one CreateEffect describes |
| BuyRequestService.ApproveBuiltStamps | loopit/src/service/buy_request_service.py:97-109 | an order built with the uncalled clock as created_at fails the approval and writes nothing; built on a clock reading, the approval proceeds as described above |
| BuyRequestService.ApprovalAsWrittenWritesNothing | loopit/src/service/buy_request_service.py:70-113 | as written, an update to any status other than Rejected fails and writes nothing, and only a rejection writes; with a clock reading the update is the one the lemmas above describe |
| BuyRequestService.ApprovalAsWrittenPlacesNoOrder | loopit/src/service/buy_request_service.py:89-109 | a lender's approval of a found request whose product and category are found raises the validation error as written, with nothing written, while on a clock reading the order the store places is found again |
| BuyRequestService.OrderWriteKeepsRequests | loopit/src/service/buy_request_service.py:108 | placing an order leaves every buy-request item as it was |
| BuyRequestService.FindRequest | loopit/src/service/buy_request_service.py:81 | the search over the listed requests returns what FirstWithIdFinds describes |
| BuyRequestService.AnyFrom | loopit/src/service/buy_request_service.py:53-56 | the scan finds a request exactly when one of the listed requests comes from the requester |
| BuyRequestService.BuyRequestSvc.CheckCreate | loopit/src/service/buy_request_service.py:33-46 | the checks return the caller's id, or the first failing check's error |
| BuyRequestService.BuyRequestSvc.CreateBuyerRequest | loopit/src/service/buy_request_service.py:31-68 | building the request on a clock reading, the method reads the Pending rows of the partition and changes the table and returns as CreateEffect describes |
| BuyRequestService.BuyRequestSvc.UpdateBuyerRequestStatus | loopit/src/service/buy_request_service.py:70-113 | building the order on a clock reading, the method reads the whole partition once past the early checks and changes the table and returns as the lemmas on the update describe |
| BuyRequestService.BuyRequestSvc.CheckUpdate | loopit/src/service/buy_request_service.py:72-83 | the role, status, listing and search checks return the target or the first failing check's error |
| BuyRequestService.BuyRequestSvc.ApproveRequest | loopit/src/service/buy_request_service.py:89-109 | building the order on a clock reading, the approval branch changes the table and returns as PlacedOrderKept, RefusedOrderChangesNothing and ApprovedAfterSuccess describe |
| BuyRequestService.BuyRequestSvc.GetAllBuyerRequests | loopit/src/service/buy_request_service.py:115-126 | the service listing is exactly the repository listing |
| FeedbackService.GiveGuardPasses | loopit/src/service/feedback_service.py:17-36 | the checks pass exactly when the caller has a positive id, the order and its product are found, the caller is not the product's lender and the feedback is well formed; they then yield the caller's feedback to that lender |
| FeedbackService.GiveRejectsBadUser | loopit/src/service/feedback_service.py:17-19 | a missing or non-positive caller id is refused with "invalid user" whatever the store holds, and nothing is written |
| FeedbackService.GiveEffect | loopit/src/service/feedback_service.py:15-40 | give_feedback succeeds exactly when the checks pass and the store accepts; the feedback from the caller to the product's lender is then stored under the new id and reads back as itself, nothing else changes, and a failure writes nothing; the caller need not be the order's borrower |
| FeedbackService.Involving | loopit/src/service/feedback_service.py:48-59 | the selection keeps exactly the feedbacks whose giver (or receiver) is the user, never more than it was given |
| FeedbackService.InvolvingConcat | loopit/src/service/feedback_service.py:48-59 | the selection keeps the listing's order |
| FeedbackService.ListMembers | loopit/src/service/feedback_service.py:42-62 | a listing succeeds exactly when the caller has a positive id and every row decodes; it then holds exactly the decoded feedbacks the caller gave (or received) |
| FeedbackService.GiveThenListed | loopit/src/service/feedback_service.py:15-62 | feedback just given appears in the giver's given listing and in the lender's received listing whenever the repository listing succeeds |
| FeedbackService.FeedbackSvc.GiveFeedback | loopit/src/service/feedback_service.py:15-40 | the method changes the table and returns as GiveEffect describes |
| FeedbackService.FeedbackSvc.GetAllGivenFeedbacks | loopit/src/service/feedback_service.py:42-51 | the method reads the feedback partition and returns the given listing ListMembers describes |
| FeedbackService.FeedbackSvc.GetAllReceivedFeedbacks | loopit/src/service/feedback_service.py:53-62 | the method reads the feedback partition and returns the received listing ListMembers describes |
| FeedbackService.FeedbackSvc.List | loopit/src/service/feedback_service.py:42-62 | the shared body: check the caller, list everything, keep the caller's side |
| ProductService.CreateAsWrittenRefusesLenders | loopit/src/service/product_service.py:47-71 | as written, a lender whose context is the claims dictionary is refused with "only lenders can create products", because getattr finds no role on a dict; only a context object with attributes reaches the intended create |
| ProductService.CreateEffect | loopit/src/service/product_service.py:47-71 | with the role and id read from the context, create succeeds exactly when the caller is logged in, a lender with a positive id, the new product is well formed and the store accepts; the caller's product, available, is then found under the new id; a failure writes nothing |
| ProductService.UpdateGuardPasses | loopit/src/service/product_service.py:75-86 | the update checks pass exactly for a logged-in lender who owns the found product, and yield the stored product |
| ProductService.UpdateEffect | loopit/src/service/product_service.py:73-99 | update succeeds only for a logged-in lender who owns the found product when the store accepts; a failure writes nothing; for a product stored under its own id it does succeed then, and keeps the image url and id of the primary item |
| ProductService.DeleteGuardPasses | loopit/src/service/product_service.py:103-115 | the delete checks pass exactly for a logged-in caller who owns the found product |
| ProductService.DeleteEffect | loopit/src/service/product_service.py:101-121 | delete succeeds exactly when the caller is logged in, owns the found product and the store accepts; it then removes the primary item; a failure writes nothing |
| ProductService.DeleteIgnoresRole | loopit/src/service/product_service.py:77-105 | delete reads the role and never checks it, so a caller without one deletes alike, while update refuses such a caller |
| ProductService.ProductSvc.GetAllProducts | loopit/src/service/product_service.py:18-32 | the service listing queries the key the repository listing selects for the filter and returns that listing |
| ProductService.ProductSvc.GetProductById | loopit/src/service/product_service.py:34-45 | a non-positive id is refused before any read, a missing product raises "product not found", otherwise the found product is returned |
| ProductService.ProductSvc.CreateProduct | loopit/src/service/product_service.py:47-71 | the method changes the table and returns as CreateEffect describes |
| ProductService.ProductSvc.UpdateProduct | loopit/src/service/product_service.py:73-99 | the method changes the table and returns as UpdateEffect describes |
| ProductService.ProductSvc.CheckUpdate | loopit/src/service/product_service.py:75-86 | the checks of update return the stored product or the first failing check's error |
| ProductService.ProductSvc.DeleteProduct | loopit/src/service/product_service.py:101-121 | the method changes the table and returns as DeleteEffect describes |
| ProductService.ProductSvc.CheckDelete | loopit/src/service/product_service.py:103-115 | the checks of delete return the stored product or the first failing check's error |
| UserService.RoleGuardIgnoresCase | loopit/src/service/user_service.py:18-26 | a context role that lower-cases to "lender", in any letter case, is refused as already a lender; a context without a role passes the role check and, with a positive id, reaches the repository promotion |
| UserService.BecomeLenderEffect | loopit/src/service/user_service.py:13-29 | become_lender succeeds exactly when a context is present, its role is not lender, its id is positive, the stored user is readable and not already a lender, and the store accepts; the user then reads back with the lender role alone changed; a failure writes nothing |
| UserService.StaleContextRefusedByStore | loopit/src/service/user_service.py:18-26 | a caller whose token still says non-lender while the stored user is already a lender passes every service check and is refused by the store, with nothing written |
| UserService.PromoteOnce | loopit/src/service/user_service.py:13-29 | after a successful promotion, promoting the same user id again fails and writes nothing, whatever the second context's role claims |
| UserService.UnfilteredListsEveryUser | loopit/src/service/user_service.py:31-38 | with no filters the listing queries the whole "ID#" range; it succeeds exactly when every row found decodes, and then lists exactly the decoded users |
| UserService.RegisteredUserFound | loopit/src/service/user_service.py:40-48 | a user registered successfully is found by get_user_by_id under the id registration assigned |
| UserService.DeleteEffect | loopit/src/service/user_service.py:50-58 | a non-positive id is refused before any write; a failure writes nothing; after a successful delete the user is no longer found by id; for a readable stored user the delete succeeds exactly when the store accepts |
| UserService.UserSvc.BecomeLender | loopit/src/service/user_service.py:13-29 | the method changes the table and returns as BecomeLenderEffect describes |
| UserService.UserSvc.GetAllUsers | loopit/src/service/user_service.py:31-38 | the method queries the key the filter (or the empty filter) selects and returns the repository listing of the rows found |
| UserService.UserSvc.GetUserById | loopit/src/service/user_service.py:40-48 | a non-positive id raises "user ID must be a positive integer", otherwise the repository lookup is returned |
| UserService.UserSvc.DeleteUserById | loopit/src/service/user_service.py:50-58 | the method changes the table and returns as DeleteEffect describes |

## Left out

- HTTP controllers, routes, request schemas, response envelopes, dependency wiring and authentication (password hashing, JWT) are not part of this model. The caller is an already-authenticated context of an optional user id and an optional role.
- Society and category repositories and services: only the lookups the core makes are modelled (category by id, user by id). Category lookup reads the category item from the same table.
- The image service and image upload call an AWS Lambda; that is I/O and is not part of this model.
- `time.time_ns()` ids and `datetime.now()` are a clock reading passed in as a parameter. Timestamps (CreatedAt, StartDate, EndDate) are not stored in the model. Of a created_at argument, the model keeps only whether it is a clock reading or the clock method itself, which decides whether the record validates.
- Decimal amounts (order total, security, category price) are integers.
- DynamoDB wire serialisation is replaced by items whose values are numbers, strings or booleans. Pydantic parsing is modelled as the field constraints the records declare (positive ids, rating 1 to 5, non-empty names). Whitespace stripping (`str_strip_whitespace`) and e-mail syntax checks (`EmailStr`) are not modelled.
- `str.lower()` and `str.casefold()` are modelled as ASCII lower-casing.
- Read failures: only `find_by_email` models a get that fails (UserRepositoryError). Every other read of the table always answers.
- `int()` of a stored attribute converts a number or a boolean and raises on a missing attribute. A stored string is treated as not a number, although Python's `int("5")` would succeed. The repositories always store ids and amounts as numbers, so no item they write is affected. Caller ids and ids from HTTP paths are taken as integers.
- async/await and `asyncio.to_thread` are sequential calls. Concurrent requests and isolation beyond "a transaction is all-or-nothing" are not modelled.
- Logging and `print` are left out.
- models/enums/user.py and models/enums/buy_request.py are not part of this model. The role values "user" and "lender" and the buy-request statuses "Pending", "Approved" and "Rejected" are taken from their uses in the repositories and services.
- ProductService.UpdateEffect: it states that success needs the guards and the store's acceptance; that these suffice, and that the image url and id are kept, only for a product whose ID attribute equals the id it is stored under. The edited fields written to each copy are stated by ProductRepository.UpdateEffect.
- ReturnRequestService.UpdateEffect: it states the request read back after success only when the stored item's ID equals the requested id.
- OrderService.OrderSvc.GetAllApprovedAwaitingOrders: runs the intended filter "Approved". As written, order_service.py:87 passes "approved" and the view is always empty (OrderService.AwaitingAsWrittenEmpty).
- ProductRepository.ProductRepo.FindAll: queries the lender prefix closed by '#'. As written, the prefix is open, so lender "1" also lists lender 12's products (ProductRepository.LenderListingOvermatches).
- ProductService.ProductSvc.GetAllProducts: inherits the corrected lender prefix of ProductRepository.ProductRepo.FindAll.
- ProductService.ProductSvc.CreateProduct: reads the role and user id from the claims mapping. As written, getattr finds neither, so every such caller is refused (ProductService.CreateAsWrittenRefusesLenders).
- BuyRequestService.CreateEffect: describes the create with the request built on a clock reading. As written, the uncalled `datetime.now` makes every admitted create raise a validation error and store nothing (BuyRequestService.CreateAsWrittenStoresNothing).
- BuyRequestService.ReapprovalPlacesSecondOrder: holds for an order built on a clock reading. As written, every approval raises before create_order, so no second order, or first, is ever placed (BuyRequestService.ApprovalAsWrittenPlacesNoOrder).
- BuyRequestService.BuyRequestSvc.CreateBuyerRequest: runs the create with a clock reading as created_at, as CreateEffect describes. As written it raises past the admission (BuyRequestService.CreateAsWrittenStoresNothing).
- BuyRequestService.BuyRequestSvc.UpdateBuyerRequestStatus: runs the approval with a clock reading as the order's created_at. As written, only a rejection can succeed (BuyRequestService.ApprovalAsWrittenWritesNothing).
- BuyRequestService.BuyRequestSvc.ApproveRequest: places the order built on a clock reading. As written, the order's construction raises first (BuyRequestService.ApprovalAsWrittenPlacesNoOrder).

## Findings

| source | as written | input that shows it | evidently intended | confidence | as-written member | corrected member |
|---|---|---|---|---|---|---|
| loopit/src/repository/product_repository.py:106-107 | a lender filter queries sort keys beginning "LENDER#" followed by the id, with no separator | lender filter "1" on a table holding lender 12's product 5 under "LENDER#12#ID#5" lists that product | only lender 1's products, by querying "LENDER#1#" | high, not executed | ProductRepository.LenderListingOvermatches | ProductRepository.CorrectedLenderListing |
| loopit/src/service/order_service.py:87 | the approved-awaiting view asks for return requests with status "approved" | any return request approved through update_return_request_status is stored as "Approved", so the view is always empty | the ReturnRequested orders of return requests stored as "Approved" | high, not executed | OrderService.AwaitingAsWrittenEmpty | OrderService.AwaitingMembers |
| loopit/src/service/product_service.py:51-54 | create_product reads the role and user id with getattr | a lender whose context is the claims mapping {"user_id": 7, "role": "lender"} is refused with "only lenders can create products" | reading both from the mapping, as update_product and delete_product do | medium, not executed | ProductService.CreateAsWrittenRefusesLenders | ProductService.CreateEffect |
| loopit/src/service/buy_request_service.py:58-63 | the new request is built with `created_at=datetime.now`, the clock method itself, for a `datetime` field | product 5 of lender 12, available, with no Pending request from caller 7: caller 7's create passes every check, then the record raises a validation error and nothing is stored | `created_at=datetime.now()` | high, not executed | BuyRequestService.CreateAsWrittenStoresNothing | BuyRequestService.CreateEffect |
| loopit/src/service/buy_request_service.py:97-106 | the approval's order is built with `created_at=datetime.now`, the clock method itself, for a `datetime` field | a lender approving any found request whose product and category are found: the order raises a validation error before create_order, so no order is placed and the request stays Pending | `created_at=datetime.now()` | high, not executed | BuyRequestService.ApprovalAsWrittenPlacesNoOrder | BuyRequestService.PlacedOrderKept |
