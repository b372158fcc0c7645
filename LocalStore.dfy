/** The in-memory store of services/db.ts: one list per entity, changed in
    place. Slot computation walks the grid with a `while` loop; booking
    re-runs it and refuses a time whose `HH:MM` is not offered, which keeps
    the barber's appointments free of overlaps. The clock (`now`) and the
    random ids are parameters. */
module LocalStore {
  import opened Domain
  import opened Keyed
  import opened Clock
  import opened Availability
  import opened Inventory

  /** The `some` test of getAvailableSlots: does any of the barber's
      appointments, lasting as long as its service (30 minutes when the
      service is gone), overlap `[slotStart, slotEnd)`? */
  method HasConflict(slotStart: int, slotEnd: int, barberApps: seq<Appointment>, services: seq<Service>)
    returns (conflict: bool)
    ensures !conflict <==> Clear(Interval(slotStart, slotEnd), Intervals(barberApps, services, DefaultWhenMissing))
  {
    DefaultIntervalsAreSpans(barberApps, services);
    var i := 0;
    while i < |barberApps|
      invariant 0 <= i <= |barberApps|
      invariant forall j :: 0 <= j < i ==> !Overlaps(Interval(slotStart, slotEnd), Span(barberApps[j], services))
    {
      var app := barberApps[i];
      var appService := FindService(services, app.serviceId);
      var appDuration := if appService.Some? then appService.value.durationMinutes else DefaultDuration;
      var appStart := app.start;
      var appEnd := appStart + appDuration;
      assert Span(app, services) == Interval(appStart, appEnd);
      if slotStart < appEnd && slotEnd > appStart {
        assert Intervals(barberApps, services, DefaultWhenMissing)[i] in Intervals(barberApps, services, DefaultWhenMissing);
        return true;
      }
      i := i + 1;
    }
    return false;
  }

  class Store {
    var services: seq<Service>
    var barbers: seq<Barber>
    var appointments: seq<Appointment>
    var products: seq<Product>
    var sales: seq<ProductSale>
    var expenses: seq<Expense>

    /** A store seeded with catalogs and no appointments or sales. */
    constructor (services: seq<Service>, barbers: seq<Barber>, products: seq<Product>, expenses: seq<Expense>)
      ensures this.services == services && this.barbers == barbers
      ensures this.products == products && this.expenses == expenses
      ensures appointments == [] && sales == []
    {
      this.services := services;
      this.barbers := barbers;
      this.products := products;
      this.expenses := expenses;
      appointments := [];
      sales := [];
    }

    // ---- Catalog edits ----

    method SaveService(service: Service)
      modifies this`services
      ensures services == Upsert(old(services), ServiceKey, service)
      ensures FindService(services, service.id) == Some(service)
      ensures forall k :: k != service.id ==> FindService(services, k) == FindService(old(services), k)
    {
      FindAfterUpsert(services, ServiceKey, service, service.id);
      services := Upsert(services, ServiceKey, service);
      forall k ensures k != service.id ==> FindService(services, k) == FindService(old(services), k) {
        FindAfterUpsert(old(services), ServiceKey, service, k);
      }
    }

    method DeleteService(id: string)
      modifies this`services
      ensures services == Remove(old(services), ServiceKey, id)
      ensures FindService(services, id) == None
      ensures forall k :: k != id ==> FindService(services, k) == FindService(old(services), k)
    {
      services := Remove(services, ServiceKey, id);
      forall k ensures k != id ==> FindService(services, k) == FindService(old(services), k) {
        FindAfterRemove(old(services), ServiceKey, id, k);
      }
    }

    method SaveBarber(barber: Barber)
      modifies this`barbers
      ensures barbers == Upsert(old(barbers), BarberKey, barber)
      ensures Find(barbers, BarberKey, barber.id) == Some(barber)
      ensures forall k :: k != barber.id ==> Find(barbers, BarberKey, k) == Find(old(barbers), BarberKey, k)
    {
      FindAfterUpsert(barbers, BarberKey, barber, barber.id);
      barbers := Upsert(barbers, BarberKey, barber);
      forall k ensures k != barber.id ==> Find(barbers, BarberKey, k) == Find(old(barbers), BarberKey, k) {
        FindAfterUpsert(old(barbers), BarberKey, barber, k);
      }
    }

    method DeleteBarber(id: string)
      modifies this`barbers
      ensures barbers == Remove(old(barbers), BarberKey, id)
      ensures Find(barbers, BarberKey, id) == None
      ensures forall k :: k != id ==> Find(barbers, BarberKey, k) == Find(old(barbers), BarberKey, k)
    {
      barbers := Remove(barbers, BarberKey, id);
      forall k ensures k != id ==> Find(barbers, BarberKey, k) == Find(old(barbers), BarberKey, k) {
        FindAfterRemove(old(barbers), BarberKey, id, k);
      }
    }

    method SaveProduct(product: Product)
      modifies this`products
      ensures products == Upsert(old(products), ProductKey, product)
      ensures Find(products, ProductKey, product.id) == Some(product)
      ensures forall k :: k != product.id ==> Find(products, ProductKey, k) == Find(old(products), ProductKey, k)
    {
      FindAfterUpsert(products, ProductKey, product, product.id);
      products := Upsert(products, ProductKey, product);
      forall k ensures k != product.id ==> Find(products, ProductKey, k) == Find(old(products), ProductKey, k) {
        FindAfterUpsert(old(products), ProductKey, product, k);
      }
    }

    method DeleteProduct(id: string)
      modifies this`products
      ensures products == Remove(old(products), ProductKey, id)
      ensures Find(products, ProductKey, id) == None
      ensures forall k :: k != id ==> Find(products, ProductKey, k) == Find(old(products), ProductKey, k)
    {
      products := Remove(products, ProductKey, id);
      forall k ensures k != id ==> Find(products, ProductKey, k) == Find(old(products), ProductKey, k) {
        FindAfterRemove(old(products), ProductKey, id, k);
      }
    }

    method SaveExpense(expense: Expense)
      modifies this`expenses
      ensures expenses == Upsert(old(expenses), ExpenseKey, expense)
      ensures Find(expenses, ExpenseKey, expense.id) == Some(expense)
      ensures forall k :: k != expense.id ==> Find(expenses, ExpenseKey, k) == Find(old(expenses), ExpenseKey, k)
    {
      FindAfterUpsert(expenses, ExpenseKey, expense, expense.id);
      expenses := Upsert(expenses, ExpenseKey, expense);
      forall k ensures k != expense.id ==> Find(expenses, ExpenseKey, k) == Find(old(expenses), ExpenseKey, k) {
        FindAfterUpsert(old(expenses), ExpenseKey, expense, k);
      }
    }

    method DeleteExpense(id: string)
      modifies this`expenses
      ensures expenses == Remove(old(expenses), ExpenseKey, id)
      ensures Find(expenses, ExpenseKey, id) == None
      ensures forall k :: k != id ==> Find(expenses, ExpenseKey, k) == Find(old(expenses), ExpenseKey, k)
    {
      expenses := Remove(expenses, ExpenseKey, id);
      forall k ensures k != id ==> Find(expenses, ExpenseKey, k) == Find(old(expenses), ExpenseKey, k) {
        FindAfterRemove(old(expenses), ExpenseKey, id, k);
      }
    }

    // ---- Status transitions ----

    /** Changes the first appointment with `id`: its status, and its payment
        method only when one is supplied. An unknown id changes nothing.
        The invariant survives a cancellation and any change to an
        appointment that was not cancelled. */
    method UpdateAppointmentStatus(id: string, status: Status, paymentMethod: Option<PaymentMethod>)
      modifies this`appointments
      ensures FirstIndex(old(appointments), AppointmentKey, id).None? ==> appointments == old(appointments)
      ensures FirstIndex(old(appointments), AppointmentKey, id).Some? ==>
                var i := FirstIndex(old(appointments), AppointmentKey, id).value;
                appointments == old(appointments)[i := WithStatus(old(appointments)[i], status, paymentMethod)]
      ensures NoDoubleBooking(old(appointments), services) &&
              (status == Cancelled || FirstIndex(old(appointments), AppointmentKey, id).None? ||
               old(appointments)[FirstIndex(old(appointments), AppointmentKey, id).value].status != Cancelled)
              ==> NoDoubleBooking(appointments, services)
    {
      match FirstIndex(appointments, AppointmentKey, id)
      case None =>
      case Some(i) =>
        if NoDoubleBooking(appointments, services) && (status == Cancelled || appointments[i].status != Cancelled) {
          StatusChangeKeepsNoDoubleBooking(appointments, services, i, status, paymentMethod);
        }
        appointments := appointments[i := WithStatus(appointments[i], status, paymentMethod)];
    }

    /** Marks the first appointment with `id` cancelled; an unknown id
        changes nothing. */
    method CancelAppointment(id: string)
      modifies this`appointments
      ensures FirstIndex(old(appointments), AppointmentKey, id).None? ==> appointments == old(appointments)
      ensures FirstIndex(old(appointments), AppointmentKey, id).Some? ==>
                var i := FirstIndex(old(appointments), AppointmentKey, id).value;
                appointments == old(appointments)[i := old(appointments)[i].(status := Cancelled)]
      ensures NoDoubleBooking(old(appointments), services) ==> NoDoubleBooking(appointments, services)
    {
      match FirstIndex(appointments, AppointmentKey, id)
      case None =>
      case Some(i) =>
        if NoDoubleBooking(appointments, services) {
          StatusChangeKeepsNoDoubleBooking(appointments, services, i, Cancelled, None);
        }
        assert WithStatus(appointments[i], Cancelled, None) == appointments[i].(status := Cancelled);
        appointments := appointments[i := appointments[i].(status := Cancelled)];
    }

    // ---- Scheduling ----

    /** The free `HH:MM` start times for `barberId` on `day` for a service of
        `serviceDuration` minutes, in ascending order. */
    method GetAvailableSlots(day: int, barberId: string, serviceDuration: int, now: int) returns (slots: seq<string>)
      ensures slots == SlotList(day, serviceDuration, now, Busy(appointments, services, barberId, day, DefaultWhenMissing))
    {
      var barberApps := BarberAppointments(appointments, barberId, day);
      ghost var busy := Intervals(barberApps, services, DefaultWhenMissing);
      var currentTime := At(day, OpenMinute);
      var endTime := At(day, CloseMinute);
      slots := [];
      ghost var k := 0;
      while currentTime < endTime
        invariant 0 <= k <= SlotCount
        invariant currentTime == At(day, GridAt(k))
        invariant slots == SlotsUpTo(day, serviceDuration, now, busy, k)
        decreases endTime - currentTime
      {
        var slotStart := currentTime;
        var slotEnd := currentTime + serviceDuration;
        if slotStart < now {
          assert !Bookable(day, GridAt(k), serviceDuration, now, busy);
        } else if slotEnd <= endTime {
          var conflict := HasConflict(slotStart, slotEnd, barberApps, services);
          if !conflict {
            assert Bookable(day, GridAt(k), serviceDuration, now, busy);
            AtSplits(day, GridAt(k));
            slots := slots + [FormatHHMM(MinuteOfDay(slotStart))];
          } else {
            assert !Bookable(day, GridAt(k), serviceDuration, now, busy);
          }
        } else {
          assert !Bookable(day, GridAt(k), serviceDuration, now, busy);
        }
        currentTime := currentTime + SlotInterval;
        k := k + 1;
      }
    }

    /** Books `req` as appointment `id`. Fails, leaving the store as it was,
        when the start is before `now`, when the service is unknown, or when
        the start's `HH:MM` is not among the slots recomputed for that day
        and the service's duration; otherwise appends one confirmed
        appointment priced at the service's current price. */
    method CreateAppointment(req: BookingRequest, id: string, now: int) returns (r: Result<Appointment>)
      modifies this`appointments
      ensures req.start < now ==> r == Err(PastBooking)
      ensures now <= req.start && FindService(services, req.serviceId).None? ==> r == Err(ServiceNotFound)
      ensures now <= req.start && FindService(services, req.serviceId).Some? ==>
                var service := FindService(services, req.serviceId).value;
                var offered := MinuteOfDay(req.start) in
                  FreeSlots(DayOf(req.start), service.durationMinutes, now,
                            Busy(old(appointments), services, req.barberId, DayOf(req.start), DefaultWhenMissing));
                r == if offered then Ok(NewAppointment(id, req, service.price, req.paymentMethod)) else Err(SlotUnavailable)
      ensures !OnGrid(MinuteOfDay(req.start)) ==> r.Err?
      ensures r.Err? ==> appointments == old(appointments)
      ensures r.Ok? ==> appointments == old(appointments) + [r.value]
      ensures NoDoubleBooking(old(appointments), services) ==> NoDoubleBooking(appointments, services)
    {
      if req.start < now {
        return Err(PastBooking);
      }
      var found := FindService(services, req.serviceId);
      if found.None? {
        return Err(ServiceNotFound);
      }
      var service := found.value;
      var day := DayOf(req.start);
      var slots := GetAvailableSlots(day, req.barberId, service.durationMinutes, now);
      var time := FormatHHMM(MinuteOfDay(req.start));
      ghost var free := FreeSlots(day, service.durationMinutes, now,
                                  Busy(appointments, services, req.barberId, day, DefaultWhenMissing));
      SlotListMember(day, service.durationMinutes, now,
                     Busy(appointments, services, req.barberId, day, DefaultWhenMissing), MinuteOfDay(req.start));
      FreeSlotsExactly(day, service.durationMinutes, now,
                       Busy(appointments, services, req.barberId, day, DefaultWhenMissing), MinuteOfDay(req.start));
      if time !in slots {
        return Err(SlotUnavailable);
      }
      var newApp := NewAppointment(id, req, service.price, req.paymentMethod);
      if NoDoubleBooking(appointments, services) {
        BookingKeepsNoDoubleBooking(appointments, services, newApp, now);
      }
      appointments := appointments + [newApp];
      return Ok(newApp);
    }

    // ---- Inventory ----

    /** Sells `quantity` units of the first product with `productId`. Fails,
        changing nothing, when there is no such product or its stock is
        below `quantity`; otherwise lowers that product's stock by exactly
        `quantity` and records one sale at the product's price. */
    method CreateProductSale(productId: string, quantity: int, userId: string, saleId: string, createdAt: int)
      returns (r: Result<ProductSale>)
      modifies this`products, this`sales
      ensures FirstIndex(old(products), ProductKey, productId).None? ==>
                r == Err(ProductNotFound) && products == old(products) && sales == old(sales)
      ensures FirstIndex(old(products), ProductKey, productId).Some? ==>
                var i := FirstIndex(old(products), ProductKey, productId).value;
                var p := old(products)[i];
                if p.stockQuantity < quantity then
                  r == Err(InsufficientStock(p.stockQuantity)) && products == old(products) && sales == old(sales)
                else
                  && r == Ok(ProductSale(saleId, productId, userId, quantity, p.price, createdAt))
                  && products == old(products)[i := p.(stockQuantity := p.stockQuantity - quantity)]
                  && sales == old(sales) + [r.value]
                  && products[i].stockQuantity >= 0
      ensures r.Ok? ==> StockLowered(old(products), products, productId, quantity)
      ensures r.Ok? ==> forall k :: StockOf(products, k) + SoldUnits(sales, k) == StockOf(old(products), k) + SoldUnits(old(sales), k)
    {
      var found := FirstIndex(products, ProductKey, productId);
      if found.None? {
        return Err(ProductNotFound);
      }
      var i := found.value;
      var product := products[i];
      if product.stockQuantity < quantity {
        return Err(InsufficientStock(product.stockQuantity));
      }
      products := products[i := product.(stockQuantity := product.stockQuantity - quantity)];
      var newSale := ProductSale(saleId, productId, userId, quantity, product.price, createdAt);
      forall k ensures StockOf(products, k) + SoldUnits(sales + [newSale], k) == StockOf(old(products), k) + SoldUnits(sales, k) {
        SaleConservesUnits(old(products), products, sales, newSale, k);
      }
      sales := sales + [newSale];
      return Ok(newSale);
    }
  }
}
