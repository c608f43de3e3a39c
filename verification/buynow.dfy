/** The "buy now" staging collection: a keyed add-or-increment over records
    `{name, price, image, quantity}`, with the name as the de-duplication key.
    The database is a sequence in insertion order; calls are sequential.
 */
module BuyNow {
  import opened Http

  datatype Item = Item(name: JsValue, price: JsValue, image: JsValue, quantity: int)

  /** The fields `addBuyNowProduct` reads from the request body. */
  datatype AddRequest = AddRequest(name: JsValue, price: JsValue, image: JsValue)

  const AllFieldsRequired: string := "All fields are required"
  const QuantityUpdated: string := "Quantity updated"
  const ProductAdded: string := "Product added successfully"
  const ServerError: string := "Server error"

  /** The presence check: every field truthy, so a price of 0 or an empty
      string fails it. */
  predicate Complete(req: AddRequest)
  {
    Truthy(req.name) && Truthy(req.price) && Truthy(req.image)
  }

  /** The record a first request for a name creates. */
  function Fresh(req: AddRequest): Item
  {
    Item(req.name, req.price, req.image, 1)
  }

  /** True when some record carries the name. */
  predicate HasName(store: seq<Item>, name: JsValue)
  {
    exists i :: 0 <= i < |store| && store[i].name == name
  }

  /** At most one record per name: the invariant the read-before-write
      check maintains when calls do not overlap. */
  predicate UniqueNames(store: seq<Item>)
  {
    forall i, j :: 0 <= i < j < |store| ==> store[i].name != store[j].name
  }

  /** `store'` is `store` with the record at `i` one higher in quantity and
      every field of every record otherwise as it was. */
  predicate IncrementedAt(store: seq<Item>, store': seq<Item>, i: int)
  {
    && |store'| == |store|
    && 0 <= i < |store|
    && store'[i] == store[i].(quantity := store[i].quantity + 1)
    && forall j :: 0 <= j < |store| && j != i ==> store'[j] == store[j]
  }

  /** The lookup by name: the position of the first record whose name is
      `name`, or None when there is none. Names are compared as the values
      the body carried, before any conversion to the schema's string type. */
  function FindByName(store: seq<Item>, name: JsValue): (r: Option<nat>)
    ensures r.Some? ==> r.value < |store| && store[r.value].name == name
    ensures r.Some? ==> forall j :: 0 <= j < r.value ==> store[j].name != name
    ensures r.None? <==> !HasName(store, name)
  {
    if |store| == 0 then None
    else if store[0].name == name then Some(0)
    else
      match FindByName(store[1..], name)
      case None => None
      case Some(i) => Some(i + 1)
  }

  /** `addBuyNowProduct`. `fault` stands for a failing database call (the
      lookup or the save); a failed single-record write leaves the
      collection as it was. */
  function Add(store: seq<Item>, req: AddRequest, fault: bool): (h: Handled<Item>)
    ensures !Complete(req) ==>
              Rejected(h, store, StatusBadRequest) && h.response.body == Message(AllFieldsRequired)
    ensures Complete(req) && fault ==>
              Rejected(h, store, StatusServerError) && h.response.body == Message(ServerError)
    ensures Complete(req) && !fault ==>
              forall i :: 0 <= i < |store| && store[i].name == req.name
                          && (forall j :: 0 <= j < i ==> store[j].name != req.name) ==>
                IncrementedAt(store, h.store, i)
                && h.response == Response(StatusOk, Saved(QuantityUpdated, h.store[i]))
    ensures Complete(req) && !fault && !HasName(store, req.name) ==>
              h.store == store + [Fresh(req)]
              && h.response == Response(StatusCreated, Saved(ProductAdded, Fresh(req)))
    ensures |store| <= |h.store| <= |store| + 1
  {
    if !Complete(req) then
      Handled(Response(StatusBadRequest, Message(AllFieldsRequired)), store)
    else if fault then
      Handled(Response(StatusServerError, Message(ServerError)), store)
    else
      match FindByName(store, req.name)
      case Some(i) =>
        var updated := store[i].(quantity := store[i].quantity + 1);
        Handled(Response(StatusOk, Saved(QuantityUpdated, updated)), store[i := updated])
      case None =>
        Handled(Response(StatusCreated, Saved(ProductAdded, Fresh(req))), store + [Fresh(req)])
  }

  /** `getBuyNowProducts`: every record, in stored order, with the
      collection left as it was. */
  function List(store: seq<Item>, fault: bool): (h: Handled<Item>)
    ensures h.store == store
    ensures !fault ==> h.response.status == StatusOk
    ensures !fault ==> h.response.body.Listing? && h.response.body.records == store
    ensures fault ==> h.response == Response(StatusServerError, Message(ServerError))
  {
    if fault then Handled(Response(StatusServerError, Message(ServerError)), store)
    else Handled(Response(StatusOk, Listing(store)), store)
  }

  /** One handler call in a sequence of calls. */
  datatype Call = Call(req: AddRequest, fault: bool)

  /** The collection after the calls, applied one after another. */
  function Replay(store: seq<Item>, calls: seq<Call>): seq<Item>
    decreases |calls|
  {
    if |calls| == 0 then store
    else Replay(Add(store, calls[0].req, calls[0].fault).store, calls[1..])
  }

  /** The collection after `n` successful adds of the same request. */
  function AddTimes(store: seq<Item>, req: AddRequest, n: nat): seq<Item>
  {
    if n == 0 then store else Add(AddTimes(store, req, n - 1), req, false).store
  }

  /** A single call never creates a second record for a name. */
  lemma AddKeepsNamesUnique(store: seq<Item>, req: AddRequest, fault: bool)
    requires UniqueNames(store)
    ensures UniqueNames(Add(store, req, fault).store)
  {
    var s' := Add(store, req, fault).store;
    if Complete(req) && !fault {
      match FindByName(store, req.name)
      case Some(i) =>
        assert IncrementedAt(store, s', i);
        forall a, b | 0 <= a < b < |s'|
          ensures s'[a].name != s'[b].name
        {
          assert s'[a].name == store[a].name && s'[b].name == store[b].name;
        }
      case None =>
        assert s' == store + [Fresh(req)];
    }
  }

  /** Under any sequence of calls, at most one record per name stays true. */
  lemma {:induction false} ReplayKeepsNamesUnique(store: seq<Item>, calls: seq<Call>)
    requires UniqueNames(store)
    ensures UniqueNames(Replay(store, calls))
    decreases |calls|
  {
    if |calls| > 0 {
      AddKeepsNamesUnique(store, calls[0].req, calls[0].fault);
      ReplayKeepsNamesUnique(Add(store, calls[0].req, calls[0].fault).store, calls[1..]);
    }
  }

  /** Starting with no record of the name, `n` adds of it append exactly one
      record, whose quantity is `n`, and change nothing else. */
  lemma {:induction false} AddTimesAccumulates(store: seq<Item>, req: AddRequest, n: nat)
    requires Complete(req) && !HasName(store, req.name) && n >= 1
    ensures AddTimes(store, req, n) == store + [Fresh(req).(quantity := n)]
  {
    if n > 1 {
      AddTimesAccumulates(store, req, n - 1);
      var prev := store + [Fresh(req).(quantity := n - 1)];
      assert AddTimes(store, req, n) == Add(prev, req, false).store;
      var k := |store|;
      assert prev[k].name == req.name;
      assert forall j :: 0 <= j < k ==> prev[j] == store[j];
      IncrementLast(store, prev, Add(prev, req, false).store, req, n);
    }
  }

  /** The step of `AddTimesAccumulates`: a successful add that finds its
      name in the last record bumps that record alone. */
  lemma IncrementLast(store: seq<Item>, prev: seq<Item>, next: seq<Item>, req: AddRequest, n: nat)
    requires Complete(req) && !HasName(store, req.name) && n > 1
    requires prev == store + [Fresh(req).(quantity := n - 1)]
    requires next == Add(prev, req, false).store
    ensures next == store + [Fresh(req).(quantity := n)]
  {
    var k := |store|;
    assert forall j :: 0 <= j < k ==> prev[j].name != req.name;
    assert IncrementedAt(prev, next, k);
    assert next[k] == Fresh(req).(quantity := n);
  }

  /** From an empty collection, `n` adds of one name leave a single record,
      for that name, with quantity `n`. */
  lemma {:induction false} SameNameAddsAccumulate(req: AddRequest, n: nat)
    requires Complete(req) && n >= 1
    ensures AddTimes([], req, n) == [Item(req.name, req.price, req.image, n)]
  {
    AddTimesAccumulates([], req, n);
  }

  /** Two adds of a new name in a row: the first answers 201 with quantity 1,
      the second 200 with quantity 2, and one record remains. */
  lemma AddTwiceScenario(store: seq<Item>, req: AddRequest)
    requires Complete(req) && !HasName(store, req.name)
    ensures Add(store, req, false).response.status == StatusCreated
    ensures Add(store, req, false).response.body.record.quantity == 1
    ensures Add(Add(store, req, false).store, req, false).response.status == StatusOk
    ensures Add(Add(store, req, false).store, req, false).response.body.record.quantity == 2
    ensures Add(Add(store, req, false).store, req, false).store == store + [Fresh(req).(quantity := 2)]
  {
    var s1 := Add(store, req, false).store;
    assert s1[|store|].name == req.name;
    assert FindByName(s1, req.name) == Some(|store|);
  }

  /** What a successful add stores is what the next listing shows: a record
      of the request's name, with the request's price and image when the
      name was new. */
  lemma AddedItemIsListed(store: seq<Item>, req: AddRequest)
    requires Complete(req)
    ensures var listed := List(Add(store, req, false).store, false).response.body.records;
            && (exists i :: 0 <= i < |listed| && listed[i].name == req.name)
            && |listed| == |store| + (if HasName(store, req.name) then 0 else 1)
            && (!HasName(store, req.name) ==> listed[|store|] == Fresh(req))
  {
    var s' := Add(store, req, false).store;
    match FindByName(store, req.name)
    case Some(i) =>
      assert IncrementedAt(store, s', i);
      assert s'[i].name == req.name;
    case None =>
      assert s'[|store|] == Fresh(req);
  }
}
