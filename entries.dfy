/** The order-entry handlers (api/entry.go). Unlike the other handlers,
    these expect every backend error to be an `*api_errors.APIError` and
    assert so; any other error value makes the handler panic. */
module Entries {
  import opened Wire
  import Pb
  import opened Binding

  /** The public entry (`member_id` on the wire is the user's id). */
  datatype Entry = Entry(
    id: int32, userId: int32, itemId: int32, quantity: int32, total: int32,
    createdAt: Timestamp)

  function EntryOf(e: Pb.Entry): Entry {
    Entry(e.id, e.userId, e.itemId, e.quantity, e.total, e.createdAt)
  }

  /** `entries` is `rows` converted element by element: same length, same
      order, field for field. */
  predicate MirrorsRows(entries: seq<Entry>, rows: seq<Pb.Entry>) {
    |entries| == |rows| && forall i :: 0 <= i < |rows| ==> entries[i] == EntryOf(rows[i])
  }

  /** A failed existence check in CreateEntry: an APIError answers 400 when
      its code is 404 (the referenced user or item does not exist) and 500
      otherwise, with its text; any other error fails the type assertion. */
  function CheckFailure<P, T>(reply: Reply<T>): (r: Response<P>)
    requires !reply.Ok?
    ensures r.Json? <==> reply.ApiErr?
    ensures r.Json? ==>
      && r.body == Error(reply.text)
      && (r.status == StatusBadRequest <==> reply.httpCode == StatusNotFound)
      && (r.status == StatusBadRequest || r.status == StatusInternalServerError)
  {
    if !reply.ApiErr? then Panicked
    else if reply.httpCode == StatusNotFound then Fail(StatusBadRequest, reply.text)
    else Fail(StatusInternalServerError, reply.text)
  }

  /** Any other failed call in entry.go: the APIError's own code becomes the
      HTTP status, its text the message; any other error fails the type
      assertion. */
  function PassThrough<P, T>(reply: Reply<T>): (r: Response<P>)
    requires !reply.Ok?
    ensures r.Json? <==> reply.ApiErr?
    ensures r.Json? ==> r.status == reply.httpCode && r.body == Error(reply.text)
  {
    if reply.ApiErr? then Fail(reply.httpCode, reply.text) else Panicked
  }

  // ---- CreateEntry

  datatype CreateEntryRequest = CreateEntryRequest(userId: int32, itemId: int32, quantity: int32, total: int32)

  /** `CreateEntry`: check that the user exists, then that the item exists,
      and only then create the entry. */
  function CreateEntry(
    bind: Bind<CreateEntryRequest>,
    getUser: Pb.GetUserRequest -> Reply<Pb.GetUserResponse>,
    getItem: Pb.GetItemRequest -> Reply<Pb.ItemResponse>,
    createEntry: Pb.CreateEntryRequest -> Reply<Pb.EntryResponse>
  ): (h: Pb.Handled<Entry>)
    ensures |h.calls| <= 3
    ensures bind.BindErr? <==> h.calls == []
    ensures bind.BindErr? ==> h.resp == Fail(StatusBadRequest, bind.text)
    ensures bind.BindOk? ==>
      var req := bind.req;
      var user := getUser(Pb.GetUserRequest(req.userId));
      var item := getItem(Pb.GetItemRequest(req.itemId));
      var entryReq := Pb.CreateEntryRequest(req.userId, req.itemId, req.quantity, req.total);
      var created := createEntry(entryReq);
      && h.calls[0] == Pb.GetUser(Pb.GetUserRequest(req.userId))
      && (|h.calls| >= 2 <==> user.Ok?)
      && (|h.calls| == 3 <==> user.Ok? && item.Ok?)
      && (|h.calls| >= 2 ==> h.calls[1] == Pb.GetItem(Pb.GetItemRequest(req.itemId)))
      && (|h.calls| == 3 ==> h.calls[2] == Pb.CreateEntry(entryReq))
      && (!user.Ok? ==> h.resp == CheckFailure(user))
      && (user.Ok? && !item.Ok? ==> h.resp == CheckFailure(item))
      && (user.Ok? && item.Ok? && !created.Ok? ==> h.resp == PassThrough(created))
      && (h.resp.Json? && h.resp.body.Payload? <==> user.Ok? && item.Ok? && created.Ok?)
      && (user.Ok? && item.Ok? && created.Ok? ==> h.resp == Json(StatusOK, Payload(EntryOf(created.value.entry))))
  {
    match bind
    case BindErr(t) => Pb.Handled(Fail(StatusBadRequest, t), [])
    case BindOk(req) =>
      var userReq := Pb.GetUserRequest(req.userId);
      var user := getUser(userReq);
      if !user.Ok? then Pb.Handled(CheckFailure(user), [Pb.GetUser(userReq)])
      else
        var itemReq := Pb.GetItemRequest(req.itemId);
        var item := getItem(itemReq);
        if !item.Ok? then Pb.Handled(CheckFailure(item), [Pb.GetUser(userReq), Pb.GetItem(itemReq)])
        else
          var entryReq := Pb.CreateEntryRequest(req.userId, req.itemId, req.quantity, req.total);
          var created := createEntry(entryReq);
          var calls := [Pb.GetUser(userReq), Pb.GetItem(itemReq), Pb.CreateEntry(entryReq)];
          if !created.Ok? then Pb.Handled(PassThrough(created), calls)
          else Pb.Handled(Json(StatusOK, Payload(EntryOf(created.value.entry))), calls)
  }

  /** A reference to a user or item that does not exist is the client's
      error: 400, and nothing is created. */
  lemma CreateEntryMissingReference(
    req: CreateEntryRequest, text: string,
    getUser: Pb.GetUserRequest -> Reply<Pb.GetUserResponse>,
    getItem: Pb.GetItemRequest -> Reply<Pb.ItemResponse>,
    createEntry: Pb.CreateEntryRequest -> Reply<Pb.EntryResponse>)
    requires getUser(Pb.GetUserRequest(req.userId)) == ApiErr(StatusNotFound, text) ||
             (getUser(Pb.GetUserRequest(req.userId)).Ok? && getItem(Pb.GetItemRequest(req.itemId)) == ApiErr(StatusNotFound, text))
    ensures var h := CreateEntry(BindOk(req), getUser, getItem, createEntry);
      h.resp == Fail(StatusBadRequest, text) && forall c :: c in h.calls ==> !c.CreateEntry?
  {
  }

  /** A failed check whose error is not an APIError (a gRPC status error, for
      one) is not answered at all: the handler panics. */
  lemma CreateEntryPanicsOnForeignError(
    req: CreateEntryRequest,
    getUser: Pb.GetUserRequest -> Reply<Pb.GetUserResponse>,
    getItem: Pb.GetItemRequest -> Reply<Pb.ItemResponse>,
    createEntry: Pb.CreateEntryRequest -> Reply<Pb.EntryResponse>)
    requires getUser(Pb.GetUserRequest(req.userId)).StatusErr?
    ensures CreateEntry(BindOk(req), getUser, getItem, createEntry).resp == Panicked
  {
  }

  // ---- GetEntry

  function GetEntry(
    uri: UriParam,
    getEntry: Pb.GetEntryRequest -> Reply<Pb.EntryResponse>
  ): (h: Pb.Handled<Entry>)
    ensures h.calls == [] <==> !(uri.Parsed? && uri.value >= 1)
    ensures h.calls == [] ==> h.resp == Fail(StatusBadRequest, BindUriId(uri, "GetEntryRequest", RequiredMin1).text)
    ensures h.calls != [] ==>
      var result := getEntry(Pb.GetEntryRequest(uri.value));
      && h.calls == [Pb.GetEntry(Pb.GetEntryRequest(uri.value))]
      && (result.Ok? ==> h.resp == Json(StatusOK, Payload(EntryOf(result.value.entry))))
      && (!result.Ok? ==> h.resp == PassThrough(result))
  {
    match BindUriId(uri, "GetEntryRequest", RequiredMin1)
    case BindErr(t) => Pb.Handled(Fail(StatusBadRequest, t), [])
    case BindOk(id) =>
      var grpcReq := Pb.GetEntryRequest(id);
      var result := getEntry(grpcReq);
      var calls := [Pb.GetEntry(grpcReq)];
      if !result.Ok? then Pb.Handled(PassThrough(result), calls)
      else Pb.Handled(Json(StatusOK, Payload(EntryOf(result.value.entry))), calls)
  }

  // ---- the three listings

  datatype ListEntriesRequest = ListEntriesRequest(offset: int32, limit: int32)
  datatype ListEntriesByUserRequest = ListEntriesByUserRequest(userId: int32, offset: int32, limit: int32)
  datatype ListEntriesByItemRequest = ListEntriesByItemRequest(itemId: int32, offset: int32, limit: int32)
  datatype ListEntriesResponse = ListEntriesResponse(entries: seq<Entry>)

  /** The `entries := make([]Entry, len(rows))` loop the three listings
      share: fill a fresh array index by index. */
  method CopyEntries(rows: seq<Pb.Entry>) returns (entries: seq<Entry>)
    ensures MirrorsRows(entries, rows)
  {
    var a := new Entry[|rows|];
    for i := 0 to |rows|
      invariant forall k :: 0 <= k < i ==> a[k] == EntryOf(rows[k])
    {
      a[i] := EntryOf(rows[i]);
    }
    entries := a[..];
  }

  /** The listing reply: on success 200 with every row in the backend's
      order, otherwise the error passed through. */
  predicate ListedAs(resp: Response<ListEntriesResponse>, result: Reply<Pb.ListEntriesResponse>) {
    && (result.Ok? ==>
          && resp.Json? && resp.status == StatusOK && resp.body.Payload?
          && MirrorsRows(resp.body.value.entries, result.value.entries))
    && (!result.Ok? ==> resp == PassThrough(result))
  }

  method Listing(result: Reply<Pb.ListEntriesResponse>) returns (resp: Response<ListEntriesResponse>)
    ensures ListedAs(resp, result)
  {
    if !result.Ok? {
      return PassThrough(result);
    }
    var entries := CopyEntries(result.value.entries);
    return Json(StatusOK, Payload(ListEntriesResponse(entries)));
  }

  method ListEntries(
    bind: Bind<ListEntriesRequest>,
    listEntries: Pb.ListEntriesRequest -> Reply<Pb.ListEntriesResponse>
  ) returns (h: Pb.Handled<ListEntriesResponse>)
    ensures bind.BindErr? ==> h == Pb.Handled(Fail(StatusBadRequest, bind.text), [])
    ensures bind.BindOk? ==>
      var grpcReq := Pb.ListEntriesRequest(bind.req.offset, bind.req.limit);
      h.calls == [Pb.ListEntries(grpcReq)] && ListedAs(h.resp, listEntries(grpcReq))
  {
    match bind
    case BindErr(t) =>
      return Pb.Handled(Fail(StatusBadRequest, t), []);
    case BindOk(req) =>
      var grpcReq := Pb.ListEntriesRequest(req.offset, req.limit);
      var resp := Listing(listEntries(grpcReq));
      return Pb.Handled(resp, [Pb.ListEntries(grpcReq)]);
  }

  method ListEntriesByUser(
    bind: Bind<ListEntriesByUserRequest>,
    listEntriesByUser: Pb.ListEntriesByUserRequest -> Reply<Pb.ListEntriesResponse>
  ) returns (h: Pb.Handled<ListEntriesResponse>)
    ensures bind.BindErr? ==> h == Pb.Handled(Fail(StatusBadRequest, bind.text), [])
    ensures bind.BindOk? ==>
      var grpcReq := Pb.ListEntriesByUserRequest(bind.req.userId, bind.req.offset, bind.req.limit);
      h.calls == [Pb.ListEntriesByUser(grpcReq)] && ListedAs(h.resp, listEntriesByUser(grpcReq))
  {
    match bind
    case BindErr(t) =>
      return Pb.Handled(Fail(StatusBadRequest, t), []);
    case BindOk(req) =>
      var grpcReq := Pb.ListEntriesByUserRequest(req.userId, req.offset, req.limit);
      var resp := Listing(listEntriesByUser(grpcReq));
      return Pb.Handled(resp, [Pb.ListEntriesByUser(grpcReq)]);
  }

  method ListEntriesByItem(
    bind: Bind<ListEntriesByItemRequest>,
    listEntriesByItem: Pb.ListEntriesByItemRequest -> Reply<Pb.ListEntriesResponse>
  ) returns (h: Pb.Handled<ListEntriesResponse>)
    ensures bind.BindErr? ==> h == Pb.Handled(Fail(StatusBadRequest, bind.text), [])
    ensures bind.BindOk? ==>
      var grpcReq := Pb.ListEntriesByItemRequest(bind.req.itemId, bind.req.offset, bind.req.limit);
      h.calls == [Pb.ListEntriesByItem(grpcReq)] && ListedAs(h.resp, listEntriesByItem(grpcReq))
  {
    match bind
    case BindErr(t) =>
      return Pb.Handled(Fail(StatusBadRequest, t), []);
    case BindOk(req) =>
      var grpcReq := Pb.ListEntriesByItemRequest(req.itemId, req.offset, req.limit);
      var resp := Listing(listEntriesByItem(grpcReq));
      return Pb.Handled(resp, [Pb.ListEntriesByItem(grpcReq)]);
  }
}
