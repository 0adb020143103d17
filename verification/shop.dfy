/** The auto-repair shop's application object: its database, with one id counter per
    table, and the draft of the order being put together on the "new order" tab. Every
    operation checks its rules first and changes nothing when a check fails. */
module Shop {
  import opened Text
  import opened Records
  import opened Stock
  import opened Tables

  // ---------------------------------------------------------------------------
  // The application object
  // ---------------------------------------------------------------------------

  class Autoservice {
    var clients: seq<Client>
    var cars: seq<Car>
    var parts: seq<Part>
    var orders: seq<Order>
    var nextIds: Counters
    /** The order draft of the "new order" tab. */
    var selectedParts: seq<Line>
    /** The total shown on the "new order" tab. */
    var shownTotal: int

    ghost function State(): Snapshot
      reads this
    {
      Snapshot(clients, cars, parts, orders, nextIds, selectedParts, shownTotal)
    }

    ghost predicate Valid()
      reads this
    {
      Consistent(State())
    }

    /** Starts with no data file: empty tables, counters at 1. */
    constructor ()
      ensures Valid() && State() == Initial()
    {
      clients, cars, parts, orders := [], [], [], [];
      nextIds := Counters(1, 1, 1, 1);
      selectedParts := [];
      shownTotal := 0;
    }

    /** Hands out the counter's current value and advances it by one. */
    method NextId(kind: Kind) returns (id: int)
      modifies this`nextIds
      ensures id == old(nextIds.Get(kind))
      ensures nextIds == old(nextIds).Bump(kind)
    {
      id := nextIds.Get(kind);
      nextIds := nextIds.Bump(kind);
    }

    // --- clients -------------------------------------------------------------

    method AddClient(fio: string, phone: string, email: string) returns (r: Result<int>)
      requires Valid()
      modifies this
      ensures Valid()
      ensures r.Err? <==> Blank(fio)
      ensures r.Err? ==> r.error == EmptyFio && unchanged(this)
      ensures r.Ok? ==> r.value == old(nextIds.Get(ClientKind)) && State() == old(State()).(
        clients := old(clients) + [Row(r.value, ClientInfo(Strip(fio), Strip(phone), Strip(email)))],
        nextIds := old(nextIds).Bump(ClientKind))
    {
      var name := Strip(fio);
      if name == [] {
        return Err(EmptyFio);
      }
      var id := NextId(ClientKind);
      var info := ClientInfo(name, Strip(phone), Strip(email));
      AppendKeepsFresh(clients, id, info);
      clients := clients + [Row(id, info)];
      r := Ok(id);
    }

    method EditClient(id: int, fio: string, phone: string, email: string) returns (r: Outcome)
      requires Valid()
      modifies this
      ensures Valid()
      ensures r == (if IndexOfId(old(clients), id).None? then Fail(NotFound)
                    else if Blank(fio) then Fail(EmptyFio)
                    else Pass)
      ensures r.Fail? ==> unchanged(this)
      ensures r.Pass? ==> State() == old(State()).(clients := old(clients)[
        IndexOfId(old(clients), id).value := Row(id, ClientInfo(Strip(fio), Strip(phone), Strip(email)))])
    {
      var found := IndexOfId(clients, id);
      if found.None? {
        return Fail(NotFound);
      }
      var name := Strip(fio);
      if name == [] {
        return Fail(EmptyFio);
      }
      var k := found.value;
      var info := ClientInfo(name, Strip(phone), Strip(email));
      ReplaceKeepsFresh(clients, nextIds.Get(ClientKind), k, info);
      clients := clients[k := Row(id, info)];
      r := Pass;
    }

    /** Refused while any car belongs to the client; otherwise removes the client only. */
    method DeleteClient(id: int) returns (r: Outcome)
      requires Valid()
      modifies this
      ensures Valid()
      ensures r == (if CarsOf(old(cars), id) != [] then Fail(ClientHasCars(|CarsOf(old(cars), id)|)) else Pass)
      ensures r.Fail? ==> unchanged(this)
      ensures r.Pass? ==> State() == old(State()).(clients := WithoutId(old(clients), id))
    {
      var owned := CarsOf(cars, id);
      if owned != [] {
        return Fail(ClientHasCars(|owned|));
      }
      WithoutKeepsFresh(clients, id, nextIds.Get(ClientKind));
      WithoutKeepsClientsOk(clients, id);
      clients := WithoutId(clients, id);
      r := Pass;
    }

    // --- cars ----------------------------------------------------------------

    /** Adds a car for an existing client; the VIN is stripped and upper-cased and must not
        match any stored VIN ignoring case. */
    method AddCar(clientId: int, vin: string, brand: string, model: string) returns (r: Result<int>)
      requires Valid()
      modifies this
      ensures Valid()
      ensures r == (if IndexOfId(old(clients), clientId).None? then Err(ClientNotFound)
                    else if Blank(vin) then Err(EmptyVin)
                    else if Blank(brand) then Err(EmptyBrand)
                    else if Blank(model) then Err(EmptyModel)
                    else if VinTaken(old(cars), Strip(vin), None) then Err(DuplicateVin)
                    else Ok(old(nextIds.Get(CarKind))))
      ensures r.Err? ==> unchanged(this)
      ensures r.Ok? ==> State() == old(State()).(
        cars := old(cars) + [Row(r.value, CarInfo(Upper(Strip(vin)), Strip(brand), Strip(model), clientId))],
        nextIds := old(nextIds).Bump(CarKind))
    {
      if IndexOfId(clients, clientId).None? {
        return Err(ClientNotFound);
      }
      var v := Upper(Strip(vin));
      var b := Strip(brand);
      var m := Strip(model);
      if v == [] {
        return Err(EmptyVin);
      }
      if b == [] {
        return Err(EmptyBrand);
      }
      if m == [] {
        return Err(EmptyModel);
      }
      if VinTaken(cars, Strip(vin), None) {
        return Err(DuplicateVin);
      }
      ghost var before := State();
      var id := NextId(CarKind);
      var info := CarInfo(v, b, m, clientId);
      AddCarKeepsConsistent(before, Strip(vin), Row(id, info));
      cars := cars + [Row(id, info)];
      r := Ok(id);
    }

    /** Edits a car's VIN, brand and model; its owner stays. The VIN must not match the VIN
        of any other car. */
    method EditCar(id: int, vin: string, brand: string, model: string) returns (r: Outcome)
      requires Valid()
      modifies this
      ensures Valid()
      ensures r == (if IndexOfId(old(cars), id).None? then Fail(NotFound)
                    else if IndexOfId(old(clients), old(cars)[IndexOfId(old(cars), id).value].data.clientId).None?
                    then Fail(NotFound)
                    else if Blank(vin) then Fail(EmptyVin)
                    else if Blank(brand) then Fail(EmptyBrand)
                    else if Blank(model) then Fail(EmptyModel)
                    else if VinTaken(old(cars), Strip(vin), Some(id)) then Fail(DuplicateVin)
                    else Pass)
      ensures r.Fail? ==> unchanged(this)
      ensures r.Pass? ==> var k := IndexOfId(old(cars), id).value;
        State() == old(State()).(cars := old(cars)[k :=
          Row(id, CarInfo(Upper(Strip(vin)), Strip(brand), Strip(model), old(cars)[k].data.clientId))])
    {
      var found := IndexOfId(cars, id);
      if found.None? {
        return Fail(NotFound);
      }
      var k := found.value;
      if IndexOfId(clients, cars[k].data.clientId).None? {
        return Fail(NotFound);
      }
      var v := Upper(Strip(vin));
      var b := Strip(brand);
      var m := Strip(model);
      if v == [] {
        return Fail(EmptyVin);
      }
      if b == [] {
        return Fail(EmptyBrand);
      }
      if m == [] {
        return Fail(EmptyModel);
      }
      if VinTaken(cars, Strip(vin), Some(id)) {
        return Fail(DuplicateVin);
      }
      var info := CarInfo(v, b, m, cars[k].data.clientId);
      ReplaceKeepsFresh(cars, nextIds.Get(CarKind), k, info);
      EditedVinKeepsCarsOk(cars, k, Strip(vin), Row(id, info));
      cars := cars[k := Row(id, info)];
      r := Pass;
    }

    /** Refused while any order is for the car; otherwise removes the car only. */
    method DeleteCar(id: int) returns (r: Outcome)
      requires Valid()
      modifies this
      ensures Valid()
      ensures r == (if OrdersOf(old(orders), id) != [] then Fail(CarHasOrders(|OrdersOf(old(orders), id)|)) else Pass)
      ensures r.Fail? ==> unchanged(this)
      ensures r.Pass? ==> State() == old(State()).(cars := WithoutId(old(cars), id))
    {
      var placed := OrdersOf(orders, id);
      if placed != [] {
        return Fail(CarHasOrders(|placed|));
      }
      WithoutKeepsFresh(cars, id, nextIds.Get(CarKind));
      WithoutKeepsCarsOk(cars, id);
      cars := WithoutId(cars, id);
      r := Pass;
    }

    // --- parts ---------------------------------------------------------------

    method AddPart(name: string, price: int, quantity: int) returns (r: Result<int>)
      requires Valid()
      modifies this
      ensures Valid()
      ensures r == (if Blank(name) then Err(EmptyPartName)
                    else if price <= 0 then Err(NonPositivePrice)
                    else if quantity < 0 then Err(NegativeQuantity)
                    else Ok(old(nextIds.Get(PartKind))))
      ensures r.Err? ==> unchanged(this)
      ensures r.Ok? ==> State() == old(State()).(
        parts := old(parts) + [Row(r.value, PartInfo(Strip(name), price, quantity))],
        nextIds := old(nextIds).Bump(PartKind))
    {
      var n := Strip(name);
      if n == [] {
        return Err(EmptyPartName);
      }
      if price <= 0 {
        return Err(NonPositivePrice);
      }
      if quantity < 0 {
        return Err(NegativeQuantity);
      }
      var id := NextId(PartKind);
      var info := PartInfo(n, price, quantity);
      AppendKeepsFresh(parts, id, info);
      parts := parts + [Row(id, info)];
      r := Ok(id);
    }

    method EditPart(id: int, name: string, price: int, quantity: int) returns (r: Outcome)
      requires Valid()
      modifies this
      ensures Valid()
      ensures r == (if IndexOfId(old(parts), id).None? then Fail(NotFound)
                    else if Blank(name) then Fail(EmptyPartName)
                    else if price <= 0 then Fail(NonPositivePrice)
                    else if quantity < 0 then Fail(NegativeQuantity)
                    else Pass)
      ensures r.Fail? ==> unchanged(this)
      ensures r.Pass? ==> State() == old(State()).(parts := old(parts)[
        IndexOfId(old(parts), id).value := Row(id, PartInfo(Strip(name), price, quantity))])
    {
      var found := IndexOfId(parts, id);
      if found.None? {
        return Fail(NotFound);
      }
      var n := Strip(name);
      if n == [] {
        return Fail(EmptyPartName);
      }
      if price <= 0 {
        return Fail(NonPositivePrice);
      }
      if quantity < 0 {
        return Fail(NegativeQuantity);
      }
      var k := found.value;
      var info := PartInfo(n, price, quantity);
      ReplaceKeepsFresh(parts, nextIds.Get(PartKind), k, info);
      parts := parts[k := Row(id, info)];
      r := Pass;
    }

    /** Scans every line of every order for the part, stopping at the first hit. */
    method IsPartUsed(partId: int) returns (used: bool)
      ensures used <==> PartUsed(orders, partId)
    {
      used := false;
      var i := 0;
      while i < |orders| && !used
        invariant 0 <= i <= |orders|
        invariant used ==> PartUsed(orders, partId)
        invariant !used ==> forall i', j :: 0 <= i' < i && 0 <= j < |orders[i'].data.lines|
                                 ==> orders[i'].data.lines[j].partId != partId
      {
        var lines := orders[i].data.lines;
        var j := 0;
        while j < |lines| && !used
          invariant 0 <= j <= |lines|
          invariant used ==> PartUsed(orders, partId)
          invariant !used ==> forall j' :: 0 <= j' < j ==> lines[j'].partId != partId
        {
          if lines[j].partId == partId {
            used := true;
          }
          j := j + 1;
        }
        i := i + 1;
      }
    }

    /** Refused while any order line refers to the part; otherwise removes the part only. */
    method DeletePart(id: int) returns (r: Outcome)
      requires Valid()
      modifies this
      ensures Valid()
      ensures r == (if PartUsed(old(orders), id) then Fail(PartInOrders) else Pass)
      ensures r.Fail? ==> unchanged(this)
      ensures r.Pass? ==> State() == old(State()).(parts := WithoutId(old(parts), id))
    {
      var used := IsPartUsed(id);
      if used {
        return Fail(PartInOrders);
      }
      WithoutKeepsFresh(parts, id, nextIds.Get(PartKind));
      WithoutKeepsPartsOk(parts, id);
      parts := WithoutId(parts, id);
      r := Pass;
    }

    // --- orders --------------------------------------------------------------

    /** Puts each line's quantity back on the shelf (skipping parts that are gone), then
        removes the order. */
    method DeleteOrder(id: int) returns (r: Outcome)
      requires Valid()
      modifies this
      ensures Valid()
      ensures r == (if IndexOfId(old(orders), id).None? then Fail(NotFound) else Pass)
      ensures r.Fail? ==> unchanged(this)
      ensures r.Pass? ==> var lines := old(orders)[IndexOfId(old(orders), id).value].data.lines;
        State() == old(State()).(parts := ShiftAll(old(parts), lines, true), orders := WithoutId(old(orders), id))
    {
      var found := IndexOfId(orders, id);
      if found.None? {
        return Fail(NotFound);
      }
      ghost var before := State();
      var lines := orders[found.value].data.lines;
      var stock := ApplyLines(parts, lines, true);
      DeleteOrderKeepsConsistent(before, id, found.value);
      parts := stock;
      orders := WithoutId(orders, id);
      r := Pass;
    }

    method ChangeOrderStatus(id: int, status: Status) returns (r: Outcome)
      requires Valid()
      modifies this
      ensures Valid()
      ensures r == (if IndexOfId(old(orders), id).None? then Fail(NotFound) else Pass)
      ensures r.Fail? ==> unchanged(this)
      ensures r.Pass? ==> var k := IndexOfId(old(orders), id).value;
        State() == old(State()).(orders := old(orders)[k := Row(id, old(orders)[k].data.(status := status))])
    {
      var found := IndexOfId(orders, id);
      if found.None? {
        return Fail(NotFound);
      }
      var k := found.value;
      var info := orders[k].data.(status := status);
      ReplaceKeepsFresh(orders, nextIds.Get(OrderKind), k, info);
      orders := orders[k := Row(id, info)];
      r := Pass;
    }

    // --- the order draft -----------------------------------------------------

    /** Recomputes the total shown on the "new order" tab from the draft and the works text. */
    method CalculateTotal(worksText: string)
      modifies this`shownTotal
      ensures shownTotal == Total(selectedParts, worksText)
    {
      shownTotal := Total(selectedParts, worksText);
    }

    /** The parts the draft can still take, with their free quantity. */
    method AvailableParts() returns (offers: seq<Offer>)
      ensures offers == Offers(parts, selectedParts)
    {
      offers := [];
      var i := 0;
      while i < |parts|
        invariant 0 <= i <= |parts|
        invariant offers == Offers(parts[..i], selectedParts)
      {
        var p := parts[i];
        var free := p.data.quantity - Drafted(selectedParts, p.id);
        if free > 0 {
          offers := offers + [Offer(p.id, p.data.name, p.data.price, free)];
        }
        assert parts[..i + 1][..i] == parts[..i];
        i := i + 1;
      }
      assert parts[..|parts|] == parts;
    }

    /** Adds `quantity` of a part to the draft, within what is still free of it; a part already
        in the draft has its line grown rather than a second line added. */
    method AddPartToOrder(partId: int, quantity: int, worksText: string) returns (r: Outcome)
      requires Valid()
      modifies this
      ensures Valid()
      ensures r == (if quantity <= 0 then Fail(NonPositiveQuantity)
                    else if IndexOfId(old(parts), partId).None? then Fail(PartNotFound)
                    else if quantity > Available(old(parts)[IndexOfId(old(parts), partId).value], old(selectedParts))
                    then Fail(NotEnoughStock(Available(old(parts)[IndexOfId(old(parts), partId).value], old(selectedParts))))
                    else Pass)
      ensures r.Fail? ==> unchanged(this)
      ensures r.Pass? ==> var p := old(parts)[IndexOfId(old(parts), partId).value];
        && selectedParts == Merge(old(selectedParts), Line(partId, p.data.name, p.data.price, quantity))
        && shownTotal == Total(selectedParts, worksText)
        && State() == old(State()).(draft := selectedParts, shownTotal := shownTotal)
    {
      if quantity <= 0 {
        return Fail(NonPositiveQuantity);
      }
      var found := IndexOfId(parts, partId);
      if found.None? {
        return Fail(PartNotFound);
      }
      var p := parts[found.value];
      var free := p.data.quantity - Drafted(selectedParts, partId);
      if quantity > free {
        return Fail(NotEnoughStock(free));
      }
      var line := Line(partId, p.data.name, p.data.price, quantity);
      ghost var before := State();
      var merged := MergeLine(selectedParts, line);
      MergeKeepsLines(selectedParts, line);
      DraftKeepsConsistent(before, merged, Total(merged, worksText));
      SetDraft(merged, worksText);
      r := Pass;
    }

    /** Drops every draft line whose name is the given name. */
    method RemoveSelectedPart(name: string, worksText: string)
      requires Valid()
      modifies this
      ensures Valid()
      ensures selectedParts == LinesNotNamed(old(selectedParts), name)
      ensures shownTotal == Total(selectedParts, worksText)
      ensures State() == old(State()).(draft := selectedParts, shownTotal := shownTotal)
    {
      ghost var before := State();
      var kept := LinesNotNamed(selectedParts, name);
      NotNamedKeepsDraftOk(selectedParts, name);
      DraftKeepsConsistent(before, kept, Total(kept, worksText));
      SetDraft(kept, worksText);
    }

    /** Replaces the draft and shows its total. */
    method SetDraft(draft: seq<Line>, worksText: string)
      modifies this
      ensures State() == old(State()).(draft := draft, shownTotal := Total(draft, worksText))
    {
      selectedParts := draft;
      CalculateTotal(worksText);
    }

    /** Checks the draft: there is something to order and the warehouse covers every line;
        then commits the order with the given total. */
    method SaveOrder(clientId: int, carId: int, works: seq<string>, date: string, total: int) returns (r: Result<int>)
      requires Valid()
      modifies this
      ensures Valid()
      ensures r == (if works == [] && old(selectedParts) == [] then Err(NothingToOrder)
                    else if Shortfall(old(parts), old(selectedParts)).Some?
                    then Err(OutOfStock(old(selectedParts)[Shortfall(old(parts), old(selectedParts)).value].name))
                    else Ok(old(nextIds.Get(OrderKind))))
      ensures r.Err? ==> unchanged(this)
      ensures r.Ok? ==> State() == old(State()).(
        parts := ShiftAll(old(parts), old(selectedParts), false),
        orders := old(orders) + [Row(r.value, OrderInfo(date, clientId, carId, works, old(selectedParts), InWork, total))],
        nextIds := old(nextIds).Bump(OrderKind),
        draft := [],
        shownTotal := 0)
    {
      if works == [] && selectedParts == [] {
        return Err(NothingToOrder);
      }
      var short := Shortfall(parts, selectedParts);
      if short.Some? {
        return Err(OutOfStock(selectedParts[short.value].name));
      }
      ghost var before := State();
      var id := Commit(clientId, carId, works, date, total);
      SaveOrderKeepsConsistent(before, Row(id, OrderInfo(date, clientId, carId, works, before.draft, InWork, total)));
      r := Ok(id);
    }

    /** Records the draft as a new order with status "in work": takes every line's quantity
        out of stock, appends the order and clears the draft and the shown total. */
    method Commit(clientId: int, carId: int, works: seq<string>, date: string, total: int) returns (id: int)
      modifies this
      ensures id == old(nextIds.Get(OrderKind))
      ensures State() == old(State()).(
        parts := ShiftAll(old(parts), old(selectedParts), false),
        orders := old(orders) + [Row(id, OrderInfo(date, clientId, carId, works, old(selectedParts), InWork, total))],
        nextIds := old(nextIds).Bump(OrderKind),
        draft := [],
        shownTotal := 0)
    {
      id := NextId(OrderKind);
      var lines := selectedParts;
      var stock := ApplyLines(parts, lines, false);
      parts := stock;
      orders := orders + [Row(id, OrderInfo(date, clientId, carId, works, lines, InWork, total))];
      selectedParts := [];
      shownTotal := 0;
    }

    /** Creates the order from the draft; its total is the parts plus a flat price per work. */
    method SaveNewOrder(clientId: int, carId: int, worksText: string, date: string) returns (r: Result<int>)
      requires Valid()
      modifies this
      ensures Valid()
      ensures r == (if Works(worksText) == [] && old(selectedParts) == [] then Err(NothingToOrder)
                    else if Shortfall(old(parts), old(selectedParts)).Some?
                    then Err(OutOfStock(old(selectedParts)[Shortfall(old(parts), old(selectedParts)).value].name))
                    else Ok(old(nextIds.Get(OrderKind))))
      ensures r.Err? ==> unchanged(this)
      ensures r.Ok? ==> State() == old(State()).(
        parts := ShiftAll(old(parts), old(selectedParts), false),
        orders := old(orders) + [Row(r.value, OrderInfo(date, clientId, carId, Works(worksText),
                                  old(selectedParts), InWork, Total(old(selectedParts), worksText)))],
        nextIds := old(nextIds).Bump(OrderKind),
        draft := [],
        shownTotal := 0)
    {
      r := SaveOrder(clientId, carId, Works(worksText), date, Total(selectedParts, worksText));
    }

    /** The order creation as the form does it: the stored total is the total last shown,
        which was computed when a draft line was last added or removed. */
    method SaveNewOrderAsWritten(clientId: int, carId: int, worksText: string, date: string) returns (r: Result<int>)
      requires Valid()
      modifies this
      ensures Valid()
      ensures r == (if Works(worksText) == [] && old(selectedParts) == [] then Err(NothingToOrder)
                    else if Shortfall(old(parts), old(selectedParts)).Some?
                    then Err(OutOfStock(old(selectedParts)[Shortfall(old(parts), old(selectedParts)).value].name))
                    else Ok(old(nextIds.Get(OrderKind))))
      ensures r.Err? ==> unchanged(this)
      ensures r.Ok? ==> State() == old(State()).(
        parts := ShiftAll(old(parts), old(selectedParts), false),
        orders := old(orders) + [Row(r.value, OrderInfo(date, clientId, carId, Works(worksText),
                                  old(selectedParts), InWork, old(shownTotal)))],
        nextIds := old(nextIds).Bump(OrderKind),
        draft := [],
        shownTotal := 0)
    {
      r := SaveOrder(clientId, carId, Works(worksText), date, shownTotal);
    }
  }

  // ---------------------------------------------------------------------------
  // Scenarios
  // ---------------------------------------------------------------------------

  /** A fresh shop after one client was added. */
  method ShopWithClient() returns (shop: Autoservice, clientId: int)
    ensures fresh(shop) && shop.Valid()
    ensures IndexOfId(shop.clients, clientId).Some? && shop.cars == []
    ensures shop.parts == [] && shop.orders == [] && shop.selectedParts == [] && shop.shownTotal == 0
  {
    shop := new Autoservice();
    CapitalStart("Ivanov");
    var client := shop.AddClient("Ivanov", "", "");
    clientId := client.value;
  }

  /** A fresh shop after one client was added and one car was added for that client. */
  method ShopWithCar() returns (shop: Autoservice, clientId: int, carId: int)
    ensures fresh(shop) && shop.Valid()
    ensures IndexOfId(shop.clients, clientId).Some? && IndexOfId(shop.cars, carId).Some?
    ensures shop.parts == [] && shop.orders == [] && shop.selectedParts == [] && shop.shownTotal == 0
  {
    shop, clientId := ShopWithClient();
    CapitalStart("X1");
    CapitalStart("Lada");
    CapitalStart("Niva");
    var car := shop.AddCar(clientId, "X1", "Lada", "Niva");
    carId := car.value;
  }

  /** A single work item typed on the form of a shop with a client and a car, with no part
      added: the order as the form saves it records the total shown, 0, while the order
      costs one work item. */
  method StaleTotalExample() returns (stored: int, intended: int)
    ensures stored == 0 && intended == WorkPrice
  {
    var shop, clientId, carId := ShopWithCar();
    OneWork();
    var r := shop.SaveNewOrderAsWritten(clientId, carId, "oil", "2024-05-01 10:00:00");
    stored := shop.orders[0].data.total;
    intended := Total([], "oil");
  }

}
