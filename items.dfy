/** The inventory item handlers (api/item.go). Items are not scoped to a
    user: any caller may act on any item. */
module Items {
  import opened Wire
  import Pb
  import opened Binding

  /** The public item. */
  datatype Item = Item(id: int32, name: string, quantity: int32, price: int32)

  function ItemOf(i: Pb.Item): Item {
    Item(i.id, i.name, i.quantity, i.price)
  }

  /** `items` is `rows` converted element by element: same length, same
      order, field for field. */
  predicate MirrorsRows(items: seq<Item>, rows: seq<Pb.Item>) {
    |items| == |rows| && forall i :: 0 <= i < |rows| ==> items[i] == ItemOf(rows[i])
  }

  /** How item.go answers a failed Create, Get or List call: whatever the
      error, 500 with its text. */
  function AnyFailure<P, T>(reply: Reply<T>): (r: Response<P>)
    requires !reply.Ok?
    ensures r.Json? && r.status == StatusInternalServerError && r.body == Error(ErrorText(reply))
  {
    Fail(StatusInternalServerError, ErrorText(reply))
  }

  /** How item.go answers a failed Update or Delete call: `sql.ErrNoRows` is
      a 400, any other error a 500, both with the error's text. */
  function NoRowsFailure<P, T>(reply: Reply<T>): (r: Response<P>)
    requires !reply.Ok?
    ensures r.Json? && r.body == Error(ErrorText(reply))
    ensures r.status == StatusBadRequest <==> reply.NoRows?
    ensures r.status == StatusBadRequest || r.status == StatusInternalServerError
  {
    if reply.NoRows? then Fail(StatusBadRequest, ErrorText(reply))
    else Fail(StatusInternalServerError, ErrorText(reply))
  }

  // ---- CreateItem

  datatype CreateItemRequest = CreateItemRequest(name: string, quantity: int32, price: int32)

  function CreateItem(
    bind: Bind<CreateItemRequest>,
    createItem: Pb.CreateItemRequest -> Reply<Pb.ItemResponse>
  ): (h: Pb.Handled<Item>)
    ensures bind.BindErr? <==> h.calls == []
    ensures bind.BindErr? ==> h.resp == Fail(StatusBadRequest, bind.text)
    ensures bind.BindOk? ==>
      var grpcReq := Pb.CreateItemRequest(bind.req.name, bind.req.quantity, bind.req.price);
      var result := createItem(grpcReq);
      && h.calls == [Pb.CreateItem(grpcReq)]
      && (result.Ok? ==> h.resp == Json(StatusOK, Payload(ItemOf(result.value.item))))
      && (!result.Ok? ==> h.resp == Fail(StatusInternalServerError, ErrorText(result)))
  {
    match bind
    case BindErr(t) => Pb.Handled(Fail(StatusBadRequest, t), [])
    case BindOk(req) =>
      var grpcReq := Pb.CreateItemRequest(req.name, req.quantity, req.price);
      var result := createItem(grpcReq);
      var calls := [Pb.CreateItem(grpcReq)];
      if !result.Ok? then Pb.Handled(AnyFailure(result), calls)
      else Pb.Handled(Json(StatusOK, Payload(ItemOf(result.value.item))), calls)
  }

  // ---- GetItem

  function GetItem(
    uri: UriParam,
    getItem: Pb.GetItemRequest -> Reply<Pb.ItemResponse>
  ): (h: Pb.Handled<Item>)
    ensures h.calls == [] <==> !(uri.Parsed? && uri.value >= 1)
    ensures h.calls == [] ==> h.resp == Fail(StatusBadRequest, BindUriId(uri, "GetItemRequest", RequiredMin1).text)
    ensures h.calls != [] ==>
      var result := getItem(Pb.GetItemRequest(uri.value));
      && h.calls == [Pb.GetItem(Pb.GetItemRequest(uri.value))]
      && (result.Ok? ==> h.resp == Json(StatusOK, Payload(ItemOf(result.value.item))))
      && (!result.Ok? ==> h.resp == Fail(StatusInternalServerError, ErrorText(result)))
  {
    match BindUriId(uri, "GetItemRequest", RequiredMin1)
    case BindErr(t) => Pb.Handled(Fail(StatusBadRequest, t), [])
    case BindOk(id) =>
      var grpcReq := Pb.GetItemRequest(id);
      var result := getItem(grpcReq);
      var calls := [Pb.GetItem(grpcReq)];
      if !result.Ok? then Pb.Handled(AnyFailure(result), calls)
      else Pb.Handled(Json(StatusOK, Payload(ItemOf(result.value.item))), calls)
  }

  /** Reading item 1 answers 200 with exactly the backend's item. */
  lemma GetItemReturnsBackendItem(getItem: Pb.GetItemRequest -> Reply<Pb.ItemResponse>)
    requires getItem(Pb.GetItemRequest(1)) == Ok(Pb.ItemResponse(Pb.Item(1, "widget", 5, 100)))
    ensures GetItem(Parsed(1), getItem) ==
      Pb.Handled(Json(StatusOK, Payload(Item(1, "widget", 5, 100))), [Pb.GetItem(Pb.GetItemRequest(1))])
  {
  }

  // ---- ListItems

  datatype ListItemsRequest = ListItemsRequest(offset: int32, limit: int32)
  datatype ListItemsResponse = ListItemsResponse(items: seq<Item>)

  /** The `items := make([]Item, len(rows))` loop: fill a fresh array index
      by index. */
  method CopyItems(rows: seq<Pb.Item>) returns (items: seq<Item>)
    ensures MirrorsRows(items, rows)
  {
    var a := new Item[|rows|];
    for i := 0 to |rows|
      invariant forall k :: 0 <= k < i ==> a[k] == ItemOf(rows[k])
    {
      a[i] := ItemOf(rows[i]);
    }
    items := a[..];
  }

  /** `ListItems`: forward the page bounds unchanged and return the
      backend's rows in the backend's order. */
  method ListItems(
    bind: Bind<ListItemsRequest>,
    listItems: Pb.ListItemsRequest -> Reply<Pb.ListItemsResponse>
  ) returns (h: Pb.Handled<ListItemsResponse>)
    ensures bind.BindErr? ==> h == Pb.Handled(Fail(StatusBadRequest, bind.text), [])
    ensures bind.BindOk? ==>
      var grpcReq := Pb.ListItemsRequest(bind.req.offset, bind.req.limit);
      var result := listItems(grpcReq);
      && h.calls == [Pb.ListItems(grpcReq)]
      && (result.Ok? ==>
            && h.resp.Json? && h.resp.status == StatusOK && h.resp.body.Payload?
            && MirrorsRows(h.resp.body.value.items, result.value.items))
      && (!result.Ok? ==> h.resp == Fail(StatusInternalServerError, ErrorText(result)))
  {
    match bind
    case BindErr(t) =>
      return Pb.Handled(Fail(StatusBadRequest, t), []);
    case BindOk(req) =>
      var grpcReq := Pb.ListItemsRequest(req.offset, req.limit);
      var result := listItems(grpcReq);
      var calls := [Pb.ListItems(grpcReq)];
      if !result.Ok? {
        return Pb.Handled(AnyFailure(result), calls);
      }
      var items := CopyItems(result.value.items);
      return Pb.Handled(Json(StatusOK, Payload(ListItemsResponse(items))), calls);
  }

  // ---- UpdateItem

  /** The JSON body of an item update. */
  datatype UpdateItemJson = UpdateItemJson(
    id: JsonField<int32>, name: JsonField<string>, quantity: JsonField<int32>,
    price: JsonField<int32>)

  /** The bound request: a nil pointer (None) is an attribute left out. */
  datatype UpdateItemRequest = UpdateItemRequest(
    id: int32, name: Option<string>, quantity: Option<int32>, price: Option<int32>)

  function DecodeUpdateItem(j: UpdateItemJson): UpdateItemRequest {
    UpdateItemRequest(IntoValue(j.id, 0), IntoPointer(j.name), IntoPointer(j.quantity), IntoPointer(j.price))
  }

  function UpdateItem(
    bind: Bind<UpdateItemJson>,
    updateItem: Pb.UpdateItemRequest -> Reply<Pb.ItemResponse>
  ): (h: Pb.Handled<Item>)
    ensures bind.BindErr? <==> h.calls == []
    ensures bind.BindErr? ==> h.resp == Fail(StatusBadRequest, bind.text)
    ensures bind.BindOk? ==>
      var req := DecodeUpdateItem(bind.req);
      var grpcReq := Pb.UpdateItemRequest(req.id, req.name, req.quantity, req.price);
      var result := updateItem(grpcReq);
      && h.calls == [Pb.UpdateItem(grpcReq)]
      && (result.Ok? ==> h.resp == Json(StatusOK, Payload(ItemOf(result.value.item))))
      && (result.NoRows? ==> h.resp == Fail(StatusBadRequest, NoRowsText))
      && (!result.Ok? && !result.NoRows? ==> h.resp == Fail(StatusInternalServerError, ErrorText(result)))
  {
    match bind
    case BindErr(t) => Pb.Handled(Fail(StatusBadRequest, t), [])
    case BindOk(j) =>
      var req := DecodeUpdateItem(j);
      var grpcReq := Pb.UpdateItemRequest(req.id, req.name, req.quantity, req.price);
      var result := updateItem(grpcReq);
      var calls := [Pb.UpdateItem(grpcReq)];
      if !result.Ok? then Pb.Handled(NoRowsFailure(result), calls)
      else Pb.Handled(Json(StatusOK, Payload(ItemOf(result.value.item))), calls)
  }

  /** Partial update, from JSON to the RPC: an attribute reaches the backend
      exactly when its member was present with a value; absent and `null`
      both mean "leave untouched", and a present 0 is forwarded as set. */
  lemma UpdateItemForwardsPresence(j: UpdateItemJson, updateItem: Pb.UpdateItemRequest -> Reply<Pb.ItemResponse>)
    ensures var u := UpdateItem(BindOk(j), updateItem).calls[0].updateItemReq;
      && (u.name.Some? <==> j.name.Present?)
      && (u.quantity.Some? <==> j.quantity.Present?)
      && (u.price.Some? <==> j.price.Present?)
      && (j.name.Present? ==> u.name == Some(j.name.value))
      && (j.quantity.Present? ==> u.quantity == Some(j.quantity.value))
      && (j.price.Present? ==> u.price == Some(j.price.value))
      && (j.id.Present? ==> u.id == j.id.value)
  {
  }

  /** The update of `{"id":1,"name":"widget2","quantity":null}` sends
      Set("widget2") for the name and leaves quantity and price unset. */
  lemma UpdateItemNullIsUnset(updateItem: Pb.UpdateItemRequest -> Reply<Pb.ItemResponse>)
    ensures UpdateItem(BindOk(UpdateItemJson(Present(1), Present("widget2"), JsonNull, Missing)), updateItem).calls ==
      [Pb.UpdateItem(Pb.UpdateItemRequest(1, Some("widget2"), None, None))]
  {
  }

  // ---- DeleteItem

  function DeleteItem(
    uri: UriParam,
    deleteItem: Pb.DeleteItemRequest -> Reply<Pb.Empty>
  ): (h: Pb.Handled<()>)
    ensures h.calls == [] <==> !(uri.Parsed? && uri.value >= 1)
    ensures h.calls == [] ==> h.resp == Fail(StatusBadRequest, BindUriId(uri, "DeleteItemRequest", RequiredMin1).text)
    ensures h.calls != [] ==>
      var result := deleteItem(Pb.DeleteItemRequest(uri.value));
      && h.calls == [Pb.DeleteItem(Pb.DeleteItemRequest(uri.value))]
      && (result.Ok? ==> h.resp == Json(StatusOK, Null))
      && (result.NoRows? ==> h.resp == Fail(StatusBadRequest, NoRowsText))
      && (!result.Ok? && !result.NoRows? ==> h.resp == Fail(StatusInternalServerError, ErrorText(result)))
  {
    match BindUriId(uri, "DeleteItemRequest", RequiredMin1)
    case BindErr(t) => Pb.Handled(Fail(StatusBadRequest, t), [])
    case BindOk(id) =>
      var grpcReq := Pb.DeleteItemRequest(id);
      var result := deleteItem(grpcReq);
      var calls := [Pb.DeleteItem(grpcReq)];
      if !result.Ok? then Pb.Handled(NoRowsFailure(result), calls)
      else Pb.Handled(Json(StatusOK, Null), calls)
  }
}
