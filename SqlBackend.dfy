/** The Postgres-backed handlers: the serverless functions under api/ and the
    Express routes of server/index.ts, which run the same statements against
    the same tables. A table is a list of rows; `UPDATE ... WHERE id = x`
    rewrites every row with that id, `INSERT` appends one row.

    Unlike services/db.ts, the slot query JOINs appointments to services, so
    an appointment whose service is gone blocks nothing, and POST of an
    appointment checks only that the service exists: it neither refuses past
    times nor re-runs the calculator. */
module SqlBackend {
  import opened Domain
  import opened Keyed
  import opened Clock
  import opened Availability
  import opened Inventory

  /** The rows of the slot query: (start, start + duration) for the barber's
      non-cancelled appointments on `day` that join to an existing service. */
  function JoinedRows(apps: seq<Appointment>, services: seq<Service>, barberId: string, day: int): (r: seq<Interval>)
    ensures forall a :: a in apps && ConsideredBy(a, barberId, day) && FindService(services, a.serviceId).Some? ==>
              Span(a, services) in r
    ensures forall iv :: iv in r ==>
              exists a :: a in apps && ConsideredBy(a, barberId, day) && FindService(services, a.serviceId).Some? &&
                          iv == Span(a, services)
  {
    var considered := BarberAppointments(apps, barberId, day);
    BarberAppointmentsMember(apps, barberId, day);
    IntervalsCover(considered, services, JoinDropsMissing);
    IntervalsFromCounted(considered, services, JoinDropsMissing);
    Busy(apps, services, barberId, day, JoinDropsMissing)
  }

  /** The `some` test of the slot handlers over the loaded rows. */
  method RowsConflict(slotStart: int, slotEnd: int, rows: seq<Interval>) returns (conflict: bool)
    ensures !conflict <==> Clear(Interval(slotStart, slotEnd), rows)
  {
    var i := 0;
    while i < |rows|
      invariant 0 <= i <= |rows|
      invariant forall j :: 0 <= j < i ==> !Overlaps(Interval(slotStart, slotEnd), rows[j])
    {
      var appStart := rows[i].start;
      var appEnd := rows[i].end;
      if slotStart < appEnd && slotEnd > appStart {
        assert rows[i] in rows;
        return true;
      }
      i := i + 1;
    }
    return false;
  }

  /** `UPDATE appointments SET status = ..., [payment_method = ...] WHERE id = ...`. */
  function UpdateWhere(apps: seq<Appointment>, id: string, status: Status, paymentMethod: Option<PaymentMethod>): (r: seq<Appointment>)
    ensures |r| == |apps|
  {
    seq(|apps|, i requires 0 <= i < |apps| =>
      if apps[i].id == id then WithStatus(apps[i], status, paymentMethod) else apps[i])
  }

  predicate UniqueIds(apps: seq<Appointment>)
  {
    forall i, j :: 0 <= i < j < |apps| ==> apps[i].id != apps[j].id
  }

  /** While ids are unique, as the primary key keeps them, the SQL update
      and the in-memory store's first-match update agree. */
  lemma UpdateWhereMatchesFirst(apps: seq<Appointment>, id: string, status: Status, paymentMethod: Option<PaymentMethod>)
    requires UniqueIds(apps)
    ensures UpdateWhere(apps, id, status, paymentMethod) ==
            match FirstIndex(apps, AppointmentKey, id)
            case None => apps
            case Some(i) => apps[i := WithStatus(apps[i], status, paymentMethod)]
  {
    var r := UpdateWhere(apps, id, status, paymentMethod);
    match FirstIndex(apps, AppointmentKey, id)
    case None =>
      assert forall j :: 0 <= j < |apps| ==> AppointmentKey(apps[j]) != id;
      assert r == apps;
    case Some(i) =>
      assert forall j :: 0 <= j < |apps| && j != i ==> apps[j].id != id;
      assert r == apps[i := WithStatus(apps[i], status, paymentMethod)];
  }

  /** `UPDATE products SET stock_quantity = stock_quantity - quantity WHERE id = ...`. */
  function DecrementWhere(products: seq<Product>, productId: string, quantity: int): (r: seq<Product>)
    ensures |r| == |products|
  {
    seq(|products|, j requires 0 <= j < |products| =>
      if products[j].id == productId then products[j].(stockQuantity := products[j].stockQuantity - quantity)
      else products[j])
  }

  /** The update lowers the stock the product shows by `quantity`, keeps
      every key in place and leaves other products' rows as they were. */
  lemma DecrementWhereLowers(products: seq<Product>, productId: string, quantity: int)
    requires FirstIndex(products, ProductKey, productId).Some?
    ensures StockLowered(products, DecrementWhere(products, productId, quantity), productId, quantity)
  {
    var r := DecrementWhere(products, productId, quantity);
    var i := FirstIndex(products, ProductKey, productId).value;
    assert products[i].id == productId;
    assert r[i].stockQuantity == products[i].stockQuantity - quantity;
  }

  /** POST of an appointment does not re-run the calculator: from a state
      without double bookings, a request for an occupied start is accepted
      and leaves two overlapping appointments, where the in-memory store
      refuses the same start. */
  lemma SqlPostMayDoubleBook(a: Appointment, service: Service, req: BookingRequest, id: string, now: int)
    requires a.status == Confirmed && a.serviceId == service.id && service.durationMinutes > 0
    requires req.barberId == a.barberId && req.serviceId == service.id && req.start == a.start
    ensures NoDoubleBooking([a], [service])
    ensures !NoDoubleBooking([a, NewAppointment(id, req, service.price, None)], [service])
    ensures MinuteOfDay(req.start) !in FreeSlots(DayOf(req.start), service.durationMinutes, now,
                                                 Busy([a], [service], req.barberId, DayOf(req.start), DefaultWhenMissing))
  {
    var b := NewAppointment(id, req, service.price, None);
    var apps := [a, b];
    assert FindService([service], service.id) == Some(service);
    var span := Interval(a.start, a.start + service.durationMinutes);
    assert Span(a, [service]) == span && Span(b, [service]) == span;
    assert Competing(apps[0], apps[1]) && Overlaps(Span(apps[0], [service]), Span(apps[1], [service]));
    assert [] + [a] == [a];
    BookedSlotDisappears([], [service], a, service.durationMinutes, now, DefaultWhenMissing);
  }

  /** One step of the nested hour/minute walk: the time tested at `hour`,
      `min` is the `k`-th grid time, and pushing its padded rendering when it
      passed the three tests extends the answer by one grid time. */
  lemma GridWalkStep(day: int, duration: int, now: int, rows: seq<Interval>, k: int, hour: int, min: int, free: bool)
    requires 0 <= k < SlotCount && 0 <= hour < 24 && 0 <= min < MinutesPerHour
    requires hour * MinutesPerHour + min == GridAt(k)
    requires free <==> (var s := At(day, hour * MinutesPerHour + min);
                        now <= s && s + duration <= At(day, CloseHour * MinutesPerHour) && Clear(Interval(s, s + duration), rows))
    ensures SlotsUpTo(day, duration, now, rows, k + 1) ==
            SlotsUpTo(day, duration, now, rows, k) + (if free then [Pad2(hour) + ":" + Pad2(min)] else [])
  {
    FormatHourMinute(hour, min);
    assert FormatHHMM(GridAt(k)) == Pad2(hour) + ":" + Pad2(min);
    assert free == Bookable(day, GridAt(k), duration, now, rows);
  }

  /** The slot handlers' nested loops: every half hour from 09:00 to 20:30,
      keep the start when it is not before `now`, the service ends by 21:00
      and no loaded row overlaps it; push it as the padded hour and minute. */
  method WalkGrid(day: int, serviceDuration: int, now: int, rows: seq<Interval>) returns (slots: seq<string>)
    ensures slots == SlotList(day, serviceDuration, now, rows)
  {
    slots := [];
    ghost var k := 0;
    for hour := OpenHour to CloseHour
      invariant hour * MinutesPerHour == GridAt(k)
      invariant slots == SlotsUpTo(day, serviceDuration, now, rows, k)
    {
      var min := 0;
      while min < MinutesPerHour
        invariant min == 0 || min == SlotInterval || min == MinutesPerHour
        invariant hour * MinutesPerHour + min == GridAt(k)
        invariant 0 <= k <= SlotCount
        invariant slots == SlotsUpTo(day, serviceDuration, now, rows, k)
      {
        var slotStart := At(day, hour * MinutesPerHour + min);
        var slotEnd := slotStart + serviceDuration;
        var free := false;
        if slotStart >= now {
          var closeTime := At(day, CloseHour * MinutesPerHour);
          if slotEnd <= closeTime {
            var conflict := RowsConflict(slotStart, slotEnd, rows);
            free := !conflict;
          }
        }
        GridWalkStep(day, serviceDuration, now, rows, k, hour, min, free);
        if free {
          slots := slots + [Pad2(hour) + ":" + Pad2(min)];
        }
        min := min + SlotInterval;
        k := k + 1;
      }
    }
  }

  class Database {
    var appointments: seq<Appointment>
    var services: seq<Service>
    var products: seq<Product>
    var sales: seq<ProductSale>

    constructor (appointments: seq<Appointment>, services: seq<Service>, products: seq<Product>, sales: seq<ProductSale>)
      ensures this.appointments == appointments && this.services == services
      ensures this.products == products && this.sales == sales
    {
      this.appointments := appointments;
      this.services := services;
      this.products := products;
      this.sales := sales;
    }

    /** GET of the available slots: the barber's joined rows for the day,
        walked by the handler's nested loops. */
    method AvailableSlots(day: int, barberId: string, serviceDuration: int, now: int) returns (slots: seq<string>)
      ensures slots == SlotList(day, serviceDuration, now, JoinedRows(appointments, services, barberId, day))
      ensures ServicesExist(appointments, services) ==>
                slots == SlotList(day, serviceDuration, now, Busy(appointments, services, barberId, day, DefaultWhenMissing))
    {
      if ServicesExist(appointments, services) {
        BusyAgreesWhenServicesExist(appointments, services, barberId, day);
      }
      var rows := JoinedRows(appointments, services, barberId, day);
      slots := WalkGrid(day, serviceDuration, now, rows);
    }

    /** POST of an appointment: unknown service is refused with nothing
        inserted; otherwise one confirmed row priced at the service's current
        price is inserted, with no time or availability check. */
    method PostAppointment(req: BookingRequest, id: string) returns (r: Result<Appointment>)
      modifies this`appointments
      ensures FindService(services, req.serviceId).None? ==> r == Err(ServiceNotFound) && appointments == old(appointments)
      ensures FindService(services, req.serviceId).Some? ==>
                && r == Ok(NewAppointment(id, req, FindService(services, req.serviceId).value.price, None))
                && appointments == old(appointments) + [r.value]
      ensures ServicesExist(old(appointments), services) ==> ServicesExist(appointments, services)
    {
      var found := FindService(services, req.serviceId);
      if found.None? {
        return Err(ServiceNotFound);
      }
      var priceAtBooking := found.value.price;
      var app := NewAppointment(id, req, priceAtBooking, None);
      appointments := appointments + [app];
      assert forall a :: a in appointments ==> a in old(appointments) || a == app;
      return Ok(app);
    }

    /** PATCH of an appointment's status: every row with the id gets the new
        status, and the payment method only when one is supplied. */
    method PatchAppointmentStatus(id: string, status: Status, paymentMethod: Option<PaymentMethod>)
      modifies this`appointments
      ensures |appointments| == |old(appointments)|
      ensures forall i :: 0 <= i < |appointments| ==>
                appointments[i] == if old(appointments)[i].id == id
                                   then WithStatus(old(appointments)[i], status, paymentMethod)
                                   else old(appointments)[i]
      ensures appointments == UpdateWhere(old(appointments), id, status, paymentMethod)
      ensures ServicesExist(old(appointments), services) ==> ServicesExist(appointments, services)
    {
      if paymentMethod.Some? {
        appointments := seq(|appointments|, i requires 0 <= i < |appointments| reads this =>
          if appointments[i].id == id then appointments[i].(status := status, paymentMethod := paymentMethod)
          else appointments[i]);
      } else {
        appointments := seq(|appointments|, i requires 0 <= i < |appointments| reads this =>
          if appointments[i].id == id then appointments[i].(status := status) else appointments[i]);
      }
      forall a | a in appointments
        ensures FindService(services, a.serviceId).Some? || !ServicesExist(old(appointments), services)
      {
        var i :| 0 <= i < |appointments| && appointments[i] == a;
        assert old(appointments)[i] in old(appointments) && old(appointments)[i].serviceId == a.serviceId;
      }
    }

    /** POST of a product sale: an unknown product, or stock below
        `quantity`, is refused before any write; otherwise every row of the
        product has its stock lowered by `quantity` and one sale at the price
        read before the update is inserted. */
    method PostProductSale(productId: string, userId: string, quantity: int, saleId: string, createdAt: int)
      returns (r: Result<ProductSale>)
      modifies this`products, this`sales
      ensures FirstIndex(old(products), ProductKey, productId).None? ==>
                r == Err(ProductNotFound) && products == old(products) && sales == old(sales)
      ensures FirstIndex(old(products), ProductKey, productId).Some? ==>
                var p := old(products)[FirstIndex(old(products), ProductKey, productId).value];
                if p.stockQuantity < quantity then
                  r == Err(InsufficientStock(p.stockQuantity)) && products == old(products) && sales == old(sales)
                else
                  && r == Ok(ProductSale(saleId, productId, userId, quantity, p.price, createdAt))
                  && products == DecrementWhere(old(products), productId, quantity)
                  && sales == old(sales) + [r.value]
      ensures r.Ok? ==> StockLowered(old(products), products, productId, quantity) && StockOf(products, productId) >= 0
      ensures r.Ok? ==> forall k :: StockOf(products, k) + SoldUnits(sales, k) == StockOf(old(products), k) + SoldUnits(old(sales), k)
    {
      var found := FirstIndex(products, ProductKey, productId);
      if found.None? {
        return Err(ProductNotFound);
      }
      var row := products[found.value];
      if row.stockQuantity < quantity {
        return Err(InsufficientStock(row.stockQuantity));
      }
      var salePrice := row.price;
      DecrementWhereLowers(products, productId, quantity);
      products := DecrementWhere(products, productId, quantity);
      var newSale := ProductSale(saleId, productId, userId, quantity, salePrice, createdAt);
      forall k ensures StockOf(products, k) + SoldUnits(sales + [newSale], k) == StockOf(old(products), k) + SoldUnits(sales, k) {
        SaleConservesUnits(old(products), products, sales, newSale, k);
      }
      SaleConservesUnits(old(products), products, sales, newSale, productId);
      sales := sales + [newSale];
      return Ok(newSale);
    }
  }
}
