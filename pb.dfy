/** The backend's RPC messages (package pb) as far as the gateway reads or
    writes them, the trace of RPC calls a handler makes, and what a handler
    returns. */
module Pb {
  import opened Wire

  // ---- authorization and sessions

  datatype AuthRequest = AuthRequest(token: string)
  datatype AuthResponse = AuthResponse(id: string, userId: int32, createdAt: Timestamp, expiredAt: Timestamp)

  datatype Session = Session(
    id: string, userId: int32, clientIp: string, userAgent: string,
    refreshToken: string, createdAt: Timestamp, expiredAt: Timestamp)

  datatype CreateSessionRequest = CreateSessionRequest(userId: int32, clientIp: string, userAgent: string)
  datatype CreateSessionResponse = CreateSessionResponse(accessToken: string, expiredAt: Timestamp, session: Session)

  datatype RenewAccessTokenRequest = RenewAccessTokenRequest(refreshToken: string)
  datatype RenewAccessTokenResponse = RenewAccessTokenResponse(accessToken: string, expiredAt: Timestamp)

  // ---- users

  datatype User = User(
    id: int32, username: string, fullname: string, email: string, plan: int32,
    createdAt: Timestamp, expiredAt: Timestamp, autoRenew: bool)

  datatype GetUserByUsernameRequest = GetUserByUsernameRequest(username: string)
  datatype GetUserRequest = GetUserRequest(id: int32)
  /** The reply of GetUser and GetUserByUsername; `password` is the stored hash. */
  datatype GetUserResponse = GetUserResponse(user: User, password: string)

  datatype CreateUserRequest = CreateUserRequest(
    username: string, fullname: string, email: string, password: string,
    plan: int32, autoRenew: bool)
  datatype CreateUserResponse = CreateUserResponse(user: User)

  /** Every optional field is a proto3 `optional`: None leaves it untouched. */
  datatype UpdateUserRequest = UpdateUserRequest(
    id: int32, username: Option<string>, fullname: Option<string>,
    email: Option<string>, password: Option<string>, plan: Option<int32>,
    autoRenew: Option<bool>)
  datatype UpdateUserResponse = UpdateUserResponse(user: User)

  // ---- items

  datatype Item = Item(id: int32, name: string, quantity: int32, price: int32)

  datatype CreateItemRequest = CreateItemRequest(name: string, quantity: int32, price: int32)
  datatype GetItemRequest = GetItemRequest(id: int32)
  datatype ListItemsRequest = ListItemsRequest(offset: int32, limit: int32)
  datatype UpdateItemRequest = UpdateItemRequest(
    id: int32, name: Option<string>, quantity: Option<int32>, price: Option<int32>)
  datatype DeleteItemRequest = DeleteItemRequest(id: int32)

  /** The reply of CreateItem, GetItem and UpdateItem. */
  datatype ItemResponse = ItemResponse(item: Item)
  datatype ListItemsResponse = ListItemsResponse(items: seq<Item>)
  datatype Empty = Empty

  // ---- entries

  datatype Entry = Entry(
    id: int32, userId: int32, itemId: int32, quantity: int32, total: int32,
    createdAt: Timestamp)

  datatype CreateEntryRequest = CreateEntryRequest(userId: int32, itemId: int32, quantity: int32, total: int32)
  datatype GetEntryRequest = GetEntryRequest(id: int32)
  datatype ListEntriesRequest = ListEntriesRequest(offset: int32, limit: int32)
  datatype ListEntriesByUserRequest = ListEntriesByUserRequest(userId: int32, offset: int32, limit: int32)
  datatype ListEntriesByItemRequest = ListEntriesByItemRequest(itemId: int32, offset: int32, limit: int32)

  /** The reply of CreateEntry and GetEntry. */
  datatype EntryResponse = EntryResponse(entry: Entry)
  /** The reply of the three ListEntries* calls. */
  datatype ListEntriesResponse = ListEntriesResponse(entries: seq<Entry>)

  /** One outbound RPC call, with the request it was given. */
  datatype Call =
    | Authorize(authReq: AuthRequest)
    | GetUserByUsername(byNameReq: GetUserByUsernameRequest)
    | CreateSession(sessionReq: CreateSessionRequest)
    | RenewAccessToken(renewReq: RenewAccessTokenRequest)
    | GetUser(getUserReq: GetUserRequest)
    | CreateUser(createUserReq: CreateUserRequest)
    | UpdateUser(updateUserReq: UpdateUserRequest)
    | CreateItem(createItemReq: CreateItemRequest)
    | GetItem(getItemReq: GetItemRequest)
    | ListItems(listItemsReq: ListItemsRequest)
    | UpdateItem(updateItemReq: UpdateItemRequest)
    | DeleteItem(deleteItemReq: DeleteItemRequest)
    | CreateEntry(createEntryReq: CreateEntryRequest)
    | GetEntry(getEntryReq: GetEntryRequest)
    | ListEntries(listReq: ListEntriesRequest)
    | ListEntriesByUser(byUserReq: ListEntriesByUserRequest)
    | ListEntriesByItem(byItemReq: ListEntriesByItemRequest)

  /** What one request handler did: the response it wrote and, in order, the
      RPC calls it made on the way. */
  datatype Handled<P> = Handled(resp: Response<P>, calls: seq<Call>)
}
