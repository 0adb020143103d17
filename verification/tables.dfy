/** The shop's tables: clients, their cars, the parts warehouse and repair orders, the
    rules a valid database keeps, and what the operations compute from the tables. */
module Tables {
  import opened Text
  import opened Records
  import opened Stock

  datatype ClientInfo = ClientInfo(fio: string, phone: string, email: string)
  type Client = Row<ClientInfo>

  /** A car, with the id of the client who owns it. */
  datatype CarInfo = CarInfo(vin: string, brand: string, model: string, clientId: int)
  type Car = Row<CarInfo>

  /** "в работе", "готово", "отменен". */
  datatype Status = InWork | Ready | Cancelled

  /** A saved repair order: its lines are the draft's lines, frozen when it was saved. */
  datatype OrderInfo = OrderInfo(
    date: string, clientId: int, carId: int, works: seq<string>,
    lines: seq<Line>, status: Status, total: int)
  type Order = Row<OrderInfo>

  /** The four tables, each with its own id counter. */
  datatype Kind = ClientKind | CarKind | OrderKind | PartKind

  /** The next id of each table. */
  datatype Counters = Counters(clients: int, cars: int, orders: int, parts: int) {
    function Get(kind: Kind): int {
      match kind
      case ClientKind => clients
      case CarKind => cars
      case OrderKind => orders
      case PartKind => parts
    }

    /** The counters after one id of `kind` was handed out: that counter moves on by one,
        the others stay. */
    function Bump(kind: Kind): (c: Counters)
      ensures c.Get(kind) == Get(kind) + 1
      ensures forall other :: other != kind ==> c.Get(other) == Get(other)
    {
      match kind
      case ClientKind => this.(clients := clients + 1)
      case CarKind => this.(cars := cars + 1)
      case OrderKind => this.(orders := orders + 1)
      case PartKind => this.(parts := parts + 1)
    }
  }

  /** Why an operation was refused; each is one of the error dialogs the shop shows. */
  datatype Error =
    | NotFound                      // no record with the selected id
    | EmptyFio
    | ClientNotFound
    | EmptyVin | EmptyBrand | EmptyModel
    | DuplicateVin
    | ClientHasCars(cars: nat)
    | CarHasOrders(orders: nat)
    | EmptyPartName | NonPositivePrice | NegativeQuantity
    | PartInOrders
    | NonPositiveQuantity | PartNotFound | NotEnoughStock(available: int)
    | NothingToOrder
    | OutOfStock(partName: string)

  datatype Result<T> = Ok(value: T) | Err(error: Error)
  datatype Outcome = Pass | Fail(error: Error)

  /** The flat price of one work item, in rubles. */
  const WorkPrice := 1000

  // ---------------------------------------------------------------------------
  // Guards and queries
  // ---------------------------------------------------------------------------

  /** The cars owned by a client. */
  function CarsOf(cars: seq<Car>, clientId: int): (r: seq<Car>)
    ensures |r| <= |cars|
    ensures forall k :: 0 <= k < |r| ==> r[k] in cars && r[k].data.clientId == clientId
    ensures forall k :: 0 <= k < |cars| && cars[k].data.clientId == clientId ==> cars[k] in r
  {
    if cars == [] then []
    else (if cars[0].data.clientId == clientId then [cars[0]] else []) + CarsOf(cars[1..], clientId)
  }

  /** The orders placed for a car. */
  function OrdersOf(orders: seq<Order>, carId: int): (r: seq<Order>)
    ensures |r| <= |orders|
    ensures forall k :: 0 <= k < |r| ==> r[k] in orders && r[k].data.carId == carId
    ensures forall k :: 0 <= k < |orders| && orders[k].data.carId == carId ==> orders[k] in r
  {
    if orders == [] then []
    else (if orders[0].data.carId == carId then [orders[0]] else []) + OrdersOf(orders[1..], carId)
  }

  /** Some line of some order refers to the part. */
  predicate PartUsed(orders: seq<Order>, partId: int) {
    exists i, j :: 0 <= i < |orders| && 0 <= j < |orders[i].data.lines|
                && orders[i].data.lines[j].partId == partId
  }

  /** Some car other than `except` has this VIN, ignoring case. */
  predicate VinTaken(cars: seq<Car>, vin: string, except: Option<int>) {
    exists k :: 0 <= k < |cars| && SameIgnoringCase(cars[k].data.vin, vin) && except != Some(cars[k].id)
  }

  /** The non-blank pieces of `pieces`, stripped (NonBlankPieces and NonBlankEmpty say what
      they are). */
  function NonBlank(pieces: seq<string>): seq<string>
  {
    if pieces == [] then []
    else
      var w := Strip(pieces[0]);
      (if w == [] then [] else [w]) + NonBlank(pieces[1..])
  }

  /** The work items of the order form: one per non-blank line of the text, stripped. */
  function Works(text: string): seq<string>
  {
    NonBlank(SplitLines(text))
  }

  /** A non-empty string that starts and ends with a visible character, as Strip leaves it. */
  predicate Trimmed(w: string) {
    w != [] && !IsSpace(w[0]) && !IsSpace(w[|w| - 1])
  }

  /** Each work item is non-empty and starts and ends with a visible character. */
  lemma {:induction false} NonBlankPieces(pieces: seq<string>)
    ensures |NonBlank(pieces)| <= |pieces|
    ensures forall k :: 0 <= k < |NonBlank(pieces)| ==> Trimmed(NonBlank(pieces)[k])
  {
    if pieces != [] {
      NonBlankPieces(pieces[1..]);
      var w := Strip(pieces[0]);
      var rest := NonBlank(pieces[1..]);
      var head := if w == [] then [] else [w];
      assert NonBlank(pieces) == head + rest;
      forall k | 0 <= k < |head + rest| ensures Trimmed((head + rest)[k]) {
        if k < |head| {
          assert (head + rest)[k] == w;
        } else {
          assert (head + rest)[k] == rest[k - |head|];
        }
      }
    }
  }

  /** There are no work items exactly when every line of the text is blank. */
  lemma {:induction false} NonBlankEmpty(pieces: seq<string>)
    ensures NonBlank(pieces) == [] <==> forall k :: 0 <= k < |pieces| ==> Blank(pieces[k])
  {
    if pieces != [] {
      NonBlankEmpty(pieces[1..]);
      if Strip(pieces[0]) == [] {
        forall k | 0 < k < |pieces| ensures pieces[k] == pieces[1..][k - 1] {
        }
      }
    }
  }

  /** The cost of the parts: the sum of price times quantity over the lines. */
  function LinesCost(lines: seq<Line>): int
  {
    if lines == [] then 0
    else LinesCost(lines[..|lines| - 1]) + lines[|lines| - 1].price * lines[|lines| - 1].quantity
  }

  /** The order total: the parts plus a flat price per work item. */
  function Total(lines: seq<Line>, worksText: string): int
  {
    LinesCost(lines) + WorkPrice * |Works(worksText)|
  }

  /** The text "oil" is one work item. */
  lemma OneWork()
    ensures Works("oil") == ["oil"]
  {
    SplitOneLine("oil");
    assert Strip("oil") == "oil";
  }

  /** One work item and one line of two parts at 500 rubles cost 2000 rubles. */
  lemma TotalExample()
    ensures Total([Line(1, "filter", 500, 2)], "oil") == 2000
  {
    OneWork();
    assert LinesCost([Line(1, "filter", 500, 2)]) == 1000;
  }

  /** What the part list offers for the draft: each part with its free quantity,
      skipping parts with nothing free. */
  datatype Offer = Offer(partId: int, name: string, price: int, available: int)

  function OfferOf(p: Part, draft: seq<Line>): Offer {
    Offer(p.id, p.data.name, p.data.price, Available(p, draft))
  }

  /** The parts the draft can still take, in warehouse order. */
  function Offers(parts: seq<Part>, draft: seq<Line>): (r: seq<Offer>)
    ensures |r| <= |parts|
    ensures forall k :: 0 <= k < |r| ==> r[k].available > 0
    ensures forall k :: 0 <= k < |r| ==> exists j :: 0 <= j < |parts| && r[k] == OfferOf(parts[j], draft)
    ensures forall j :: 0 <= j < |parts| && Available(parts[j], draft) > 0 ==> OfferOf(parts[j], draft) in r
  {
    if parts == [] then []
    else
      var init := parts[..|parts| - 1];
      var o := OfferOf(parts[|parts| - 1], draft);
      var r := Offers(init, draft) + (if o.available > 0 then [o] else []);
      assert forall j :: 0 <= j < |init| ==> init[j] == parts[j];
      r
  }

  // ---------------------------------------------------------------------------
  // The database invariant
  // ---------------------------------------------------------------------------

  /** The whole state, as one value. */
  datatype Snapshot = Snapshot(
    clients: seq<Client>, cars: seq<Car>, parts: seq<Part>, orders: seq<Order>,
    nextIds: Counters, draft: seq<Line>, shownTotal: int)

  /** Every counter is positive, so every id it hands out is too. */
  predicate CountersOk(n: Counters) {
    n.clients >= 1 && n.cars >= 1 && n.orders >= 1 && n.parts >= 1
  }

  /** Every client has a name. */
  predicate ClientsOk(clients: seq<Client>) {
    forall k :: 0 <= k < |clients| ==> clients[k].data.fio != []
  }

  /** Every car has a VIN, a brand and a model; VINs are stored upper-cased and no two are
      equal (so no two are equal ignoring case either, see DistinctVins). */
  predicate CarsOk(cars: seq<Car>) {
    && (forall k :: 0 <= k < |cars| ==>
          cars[k].data.vin != [] && cars[k].data.brand != [] && cars[k].data.model != []
          && Upper(cars[k].data.vin) == cars[k].data.vin)
    && (forall i, j :: 0 <= i < j < |cars| ==> cars[i].data.vin != cars[j].data.vin)
  }

  /** Every part has a name and a positive price, and no stock is negative. */
  predicate PartsOk(parts: seq<Part>) {
    && (forall k :: 0 <= k < |parts| ==> parts[k].data.name != [] && parts[k].data.price > 0)
    && NonNegativeStock(parts)
  }

  /** Every line of every order asks for a positive quantity. */
  predicate OrdersOk(orders: seq<Order>) {
    forall k :: 0 <= k < |orders| ==> PositiveLines(orders[k].data.lines)
  }

  /** The draft has at most one line per part, each for a positive quantity. */
  predicate DraftOk(draft: seq<Line>) {
    DistinctLines(draft) && PositiveLines(draft)
  }

  predicate Consistent(s: Snapshot) {
    && CountersOk(s.nextIds)
    && FreshIds(s.clients, s.nextIds.Get(ClientKind))
    && FreshIds(s.cars, s.nextIds.Get(CarKind))
    && FreshIds(s.parts, s.nextIds.Get(PartKind))
    && FreshIds(s.orders, s.nextIds.Get(OrderKind))
    && ClientsOk(s.clients) && CarsOk(s.cars) && PartsOk(s.parts) && OrdersOk(s.orders)
    && DraftOk(s.draft)
  }

  /** The state of a shop with no data file: empty tables, every counter at 1, empty draft. */
  function Initial(): (s: Snapshot)
    ensures Consistent(s)
    ensures s.clients == [] && s.cars == [] && s.parts == [] && s.orders == [] && s.draft == []
  {
    Snapshot([], [], [], [], Counters(1, 1, 1, 1), [], 0)
  }

  /** Every part drafted is in stock at least as many times as the draft holds. */
  predicate WithinStock(parts: seq<Part>, draft: seq<Line>) {
    forall k :: 0 <= k < |parts| ==> Drafted(draft, parts[k].id) <= parts[k].data.quantity
  }

  // ---------------------------------------------------------------------------
  // Lemmas the operations rely on
  // ---------------------------------------------------------------------------

  /** The lines whose part name differs from `name`, in their order. */
  function LinesNotNamed(lines: seq<Line>, name: string): (r: seq<Line>)
    ensures |r| <= |lines|
    ensures forall k :: 0 <= k < |r| ==> r[k] in lines && r[k].name != name
    ensures forall k :: 0 <= k < |lines| && lines[k].name != name ==> lines[k] in r
  {
    if lines == [] then []
    else (if lines[0].name == name then [] else [lines[0]]) + LinesNotNamed(lines[1..], name)
  }

  lemma {:induction false} NotNamedKeepsDraftOk(lines: seq<Line>, name: string)
    requires DraftOk(lines)
    ensures DraftOk(LinesNotNamed(lines, name))
  {
    if lines != [] {
      NotNamedKeepsDraftOk(lines[1..], name);
      var rest := LinesNotNamed(lines[1..], name);
      var r := LinesNotNamed(lines, name);
      if lines[0].name != name {
        assert r == [lines[0]] + rest;
        forall j | 0 < j < |r| ensures r[0].partId != r[j].partId {
          assert r[j] in rest;
        }
      }
    }
  }

  /** No two cars of a valid table have VINs that are equal ignoring case. */
  lemma DistinctVins(cars: seq<Car>)
    requires CarsOk(cars)
    ensures forall i, j :: 0 <= i < j < |cars| ==> !SameIgnoringCase(cars[i].data.vin, cars[j].data.vin)
  {
  }

  /** A new VIN that matches no stored VIN keeps the VINs distinct and upper-cased. */
  lemma NewVinKeepsCarsOk(cars: seq<Car>, vin: string, car: Car)
    requires CarsOk(cars) && !VinTaken(cars, vin, None)
    requires car.data.vin == Upper(vin) && car.data.vin != [] && car.data.brand != [] && car.data.model != []
    ensures CarsOk(cars + [car])
  {
    UpperIdempotent(vin);
    var all := cars + [car];
    forall i, j | 0 <= i < j < |all| ensures all[i].data.vin != all[j].data.vin {
      if j == |cars| {
        assert !SameIgnoringCase(cars[i].data.vin, vin);
      }
    }
  }

  /** Replacing car `k` by one whose VIN matches no other car's keeps the VINs distinct. */
  lemma EditedVinKeepsCarsOk(cars: seq<Car>, k: nat, vin: string, car: Car)
    requires CarsOk(cars) && DistinctIds(cars) && k < |cars| && car.id == cars[k].id
    requires !VinTaken(cars, vin, Some(car.id))
    requires car.data.vin == Upper(vin) && car.data.vin != [] && car.data.brand != [] && car.data.model != []
    ensures CarsOk(cars[k := car])
  {
    UpperIdempotent(vin);
    var all := cars[k := car];
    forall i, j | 0 <= i < j < |all| ensures all[i].data.vin != all[j].data.vin {
      if i == k {
        assert cars[j].id != car.id;
        assert !SameIgnoringCase(cars[j].data.vin, vin);
      } else if j == k {
        assert cars[i].id != car.id;
        assert !SameIgnoringCase(cars[i].data.vin, vin);
      }
    }
  }

  lemma {:induction false} WithoutKeepsCarsOk(cars: seq<Car>, id: int)
    requires CarsOk(cars)
    ensures CarsOk(WithoutId(cars, id))
  {
    if cars != [] {
      WithoutKeepsCarsOk(cars[1..], id);
      WithoutMembers(cars[1..], id);
      var rest := WithoutId(cars[1..], id);
      var r := WithoutId(cars, id);
      if cars[0].id != id {
        assert r == [cars[0]] + rest;
        forall j | 0 < j < |r| ensures r[0].data.vin != r[j].data.vin {
          assert r[j] in cars[1..];
        }
      }
    }
  }

  lemma WithoutKeepsClientsOk(clients: seq<Client>, id: int)
    requires ClientsOk(clients)
    ensures ClientsOk(WithoutId(clients, id))
  {
    WithoutMembers(clients, id);
  }

  lemma WithoutKeepsPartsOk(parts: seq<Part>, id: int)
    requires PartsOk(parts)
    ensures PartsOk(WithoutId(parts, id))
  {
  }

  /** Applying an order's lines to the stock keeps the part table valid: ids, names and prices
      do not change, and no stock goes negative, whether the lines are put back or taken out
      after the warehouse was found to cover them. */
  lemma ShiftKeepsParts(parts: seq<Part>, next: int, lines: seq<Line>, restore: bool)
    requires FreshIds(parts, next) && PartsOk(parts)
    requires restore ==> PositiveLines(lines)
    requires !restore ==> DistinctLines(lines) && Shortfall(parts, lines).None?
    ensures FreshIds(ShiftAll(parts, lines, restore), next) && PartsOk(ShiftAll(parts, lines, restore))
  {
    var after := ShiftAll(parts, lines, restore);
    assert SameShelf(parts, after);
    if restore {
      ReturnKeepsStock(parts, lines);
    } else {
      TakeKeepsStock(parts, lines);
    }
  }

  /** Replacing the draft by another valid draft, and the shown total by any number, keeps
      the state consistent. */
  lemma DraftKeepsConsistent(s: Snapshot, draft: seq<Line>, shownTotal: int)
    requires Consistent(s) && DraftOk(draft)
    ensures Consistent(s.(draft := draft, shownTotal := shownTotal))
  {
  }

  lemma AddCarKeepsConsistent(s: Snapshot, vin: string, car: Car)
    requires Consistent(s) && !VinTaken(s.cars, vin, None) && car.id == s.nextIds.Get(CarKind)
    requires car.data.vin == Upper(vin) && car.data.vin != [] && car.data.brand != [] && car.data.model != []
    ensures Consistent(s.(cars := s.cars + [car], nextIds := s.nextIds.Bump(CarKind)))
  {
    AppendKeepsFresh(s.cars, car.id, car.data);
    NewVinKeepsCarsOk(s.cars, vin, car);
  }

  lemma DeleteOrderKeepsConsistent(s: Snapshot, id: int, k: nat)
    requires Consistent(s) && IndexOfId(s.orders, id) == Some(k)
    ensures Consistent(s.(parts := ShiftAll(s.parts, s.orders[k].data.lines, true), orders := WithoutId(s.orders, id)))
  {
    ShiftKeepsParts(s.parts, s.nextIds.Get(PartKind), s.orders[k].data.lines, true);
    WithoutKeepsFresh(s.orders, id, s.nextIds.Get(OrderKind));
    WithoutKeepsOrdersOk(s.orders, id);
  }

  lemma SaveOrderKeepsConsistent(s: Snapshot, order: Order)
    requires Consistent(s) && Shortfall(s.parts, s.draft).None?
    requires order.id == s.nextIds.Get(OrderKind) && order.data.lines == s.draft
    ensures Consistent(s.(parts := ShiftAll(s.parts, s.draft, false), orders := s.orders + [order],
                          nextIds := s.nextIds.Bump(OrderKind), draft := [], shownTotal := 0))
  {
    ShiftKeepsParts(s.parts, s.nextIds.Get(PartKind), s.draft, false);
    AppendKeepsFresh(s.orders, order.id, order.data);
  }

  /** Deleting the order just saved undoes the save: the stock it took goes back and the
      order table is as before. */
  lemma SaveThenDeleteRestores(s: Snapshot, order: Order)
    requires Consistent(s) && order.id == s.nextIds.Get(OrderKind) && order.data.lines == s.draft
    ensures var orders := s.orders + [order];
      && IndexOfId(orders, order.id) == Some(|s.orders|)
      && ShiftAll(ShiftAll(s.parts, s.draft, false), order.data.lines, true) == s.parts
      && WithoutId(orders, order.id) == s.orders
  {
    var orders := s.orders + [order];
    forall m | 0 <= m < |orders| && m != |s.orders| ensures orders[m].id != order.id {
      assert orders[m] == s.orders[m];
    }
    WithoutPresentId(orders, order.id, |s.orders|);
    assert orders[..|s.orders|] == s.orders;
    ReturnAfterTake(s.parts, s.draft);
  }

  lemma {:induction false} WithoutKeepsOrdersOk(orders: seq<Order>, id: int)
    requires OrdersOk(orders)
    ensures OrdersOk(WithoutId(orders, id))
  {
    if orders != [] {
      WithoutKeepsOrdersOk(orders[1..], id);
      var rest := WithoutId(orders[1..], id);
      var r := WithoutId(orders, id);
      assert r == (if orders[0].id == id then [] else [orders[0]]) + rest;
    }
  }

  /** Merging a line that takes no more than is free of its part keeps every part's drafted
      total within its stock. */
  lemma DraftStaysWithinStock(parts: seq<Part>, draft: seq<Line>, line: Line, j: nat)
    requires DistinctIds(parts) && j < |parts| && parts[j].id == line.partId
    requires line.quantity <= Available(parts[j], draft)
    ensures Drafted(Merge(draft, line), line.partId) <= parts[j].data.quantity
    ensures WithinStock(parts, draft) ==> WithinStock(parts, Merge(draft, line))
  {
    MergeDrafted(draft, line, line.partId);
    if WithinStock(parts, draft) {
      forall k | 0 <= k < |parts| ensures Drafted(Merge(draft, line), parts[k].id) <= parts[k].data.quantity {
        MergeDrafted(draft, line, parts[k].id);
      }
    }
  }
}
