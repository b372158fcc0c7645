# Barbershop booking engine — a Dafny model

The barbershop application lets clients book a barber for a service on a fixed half-hour grid. Staff manage the catalog (services, barbers, products, expenses) and sell products over the counter. This project models the core of its logic in two back ends.

- **The in-memory store of `services/db.ts`** is modelled as the class `LocalStore.Store`. It holds one list per entity. Its operations are:
  - upserts and deletes for each catalog;
  - status updates and cancellation;
  - the slot calculator `getAvailableSlots`;
  - the booking path `createAppointment`, which re-runs the calculator before it appends;
  - the guarded product sale.
- **The Postgres handlers** are modelled as the class `SqlBackend.Database`. These are the serverless functions `api/appointments/available-slots.ts`, `api/appointments/index.ts` and `api/product-sales.ts`, plus the matching Express routes of `server/index.ts`, which run the same statements. A table is a list of rows, `UPDATE ... WHERE id = x` rewrites every matching row, and `INSERT` appends a row.

The calculator is stated once, as a specification in `Availability`. Both back ends are proved to compute exactly that specification.

- **Grid.** It walks the grid 09:00, 09:30, ..., 20:30.
- **Dropped starts.** It drops a start that:
  - lies before `now`;
  - would end after 21:00 (ending exactly at 21:00 is allowed);
  - overlaps a considered appointment under the half-open test `slotStart < appEnd && slotEnd > appStart`.
- **Output.** It returns the survivors as zero-padded `HH:MM` strings in ascending order.
- **Duration policy.** The two back ends read an appointment's duration differently when its service is missing from the catalog. `services/db.ts` gives it 30 minutes (`DefaultWhenMissing`). The SQL query `JOIN`s services and so drops it (`JoinDropsMissing`).
  - Such orphans arise only in the in-memory store, whose `deleteService` removes a service that appointments still use.
  - In Postgres, `appointments.service_id` references `services(id)` (`server/database.ts:79`), so deleting a service that is still used fails.
  - The class `Database` keeps `ServicesExist` (every appointment's service is in the catalog) through its inserts and updates. Under that invariant, `Availability.PoliciesAgreeWhenServicesExist` shows the two policies give the same busy intervals, and `SqlBackend.Database.AvailableSlots` returns exactly what the in-memory calculator would.
  - `JoinDropsMissing` therefore matters only for data without that constraint.

The main invariant is `NoDoubleBooking`: a barber's non-cancelled appointments on one date do not pairwise overlap.

- It holds after every successful `createAppointment` and every cancellation.
- It holds after any status change of an appointment that was not cancelled.
- Two counterexample lemmas show how it can be lost:
  - reviving a cancelled appointment;
  - the SQL `POST /api/appointments`, which performs no availability recheck.

A product sale moves exactly `quantity` units from stock to the sales record. `Inventory.SaleConservesUnits` and the `r.Ok?` ensures of both sale methods state this conservation.

Modelling choices:

- **Instants** are integer minutes, so the date of `t` is `t / 1440` and its time of day is `t % 1440`. The date-prefix test `a.date.startsWith(dateStr)` and SQL `DATE(a.date) = date` are both modelled as equality of days.
- **Inputs from the environment.** The current instant `now`, the random ids and the sale timestamp are parameters.
- **Amounts.** Prices and amounts are integer cents. They are only copied, never computed.
- **Enumerations.** `Status` and `PaymentMethod` are the enumerations of `types.ts`, which are the same as the CHECK constraints of the database schema.

Modules:

| module | models |
|---|---|
| `Domain` | the records of `types.ts`, the booking request, the error outcomes |
| `Keyed` | `find`, `findIndex`, the upsert pattern and `filter(x => x.id !== id)` over lists keyed by id |
| `Clock` | days and minutes of the day, `padStart(2, '0')`, the `HH:MM` rendering and its inverse |
| `Availability` | the calculator as a specification, the two duration policies and the no-double-booking invariant |
| `Inventory` | stock shown by a product, units sold and their conservation |
| `LocalStore` | `services/db.ts` (class `Store`) |
| `SqlBackend` | `api/appointments/*.ts`, `api/product-sales.ts`, the routes of `server/index.ts` (class `Database`) |

Two consequences of the code are worth stating plainly.

- **Only grid times.** The calculator only ever offers starts on the hour and half hour; 09:45, 10:45 and 19:45 are never offered.
  - After a booking from 10:00 to 10:45, the next start offered is 11:00 (`Availability.AroundOneBooking`).
  - For a 75-minute service, the last start offered is 19:30 (`Availability.LongServiceExample`).
- **No recheck on the SQL path.** The SQL POST handlers for appointments only look up the service; they do not re-run the calculator. `SqlBackend.SqlPostMayDoubleBook` shows the consequence.

## Model

| member | source | states |
|---|---|---|
| Domain.NewAppointment | services/db.ts:262-267 | the booked record echoes the request's user, name, barber, service and start, has the new id, status confirmed and the given price as its snapshot |
| Domain.WithStatus | services/db.ts:165-168 | the status becomes the new one; the payment method is replaced only when one is given; every other field is unchanged |
| Keyed.FirstIndex | services/db.ts:111 | `findIndex`: the result is `None` exactly when no element has the key; otherwise it points at an element with the key and no earlier element has it |
| Keyed.Find | services/db.ts:163 | `find`: a found element has the key and sits at a position before which no element has the key (the first match); `None` exactly when no element has the key |
| Keyed.Upsert | services/db.ts:111-117 | the saved record is in the list; the length is unchanged when the id existed and grows by one otherwise; every record with another id keeps its position |
| Keyed.Remove | services/db.ts:122-126 | `filter(s => s.id !== id)`: keeps exactly the elements with another key, and no element gains the removed key |
| Keyed.FindAfterUpsert | services/db.ts:108-120 | after the upsert, the saved record is what `find` returns for its id; other ids find what they found before; the list grows by one exactly when the id was new |
| Keyed.FindAfterRemove | services/db.ts:122-126 | after the delete, the id is not found; every other id finds what it found before |
| Keyed.SameKeysSameFirstIndex | services/db.ts:160-171 | rewriting records without changing their ids does not change which record an id finds |
| Keyed.FirstIndexAfterUpdate | services/db.ts:163-165 | changing a found record in place keeps every lookup pointing at the same position |
| Keyed.FirstIndexAfterAppend | services/db.ts:269-271 | appending keeps every earlier lookup; a new key is found at the appended position |
| Clock.MinuteOfDay | services/db.ts:223-224 | the hours and minutes of an instant come from a minute of the day in `[0, 1440)` |
| Clock.AtSplits | services/db.ts:191 | building an instant from a date and a time of day, then splitting it, gives back that date and time |
| Clock.SplitJoins | services/db.ts:248-254 | splitting a requested instant into its date and its time of day loses nothing: the instant is that day plus that minute |
| Clock.Pad2 | services/db.ts:223 | `padStart(2, '0')` for 0..99: two decimal digits whose value is the number |
| Clock.FormatHHMM | services/db.ts:225 | the slot string is five characters with `:` in the middle |
| Clock.ParseFormat | services/db.ts:254 | parsing a rendered `HH:MM` gives back its minute of the day (round trip) |
| Clock.FormatInjective | services/db.ts:258 | two different times of day never render to the same string, so `slots.includes(time)` compares times |
| Clock.FormatHourMinute | api/appointments/available-slots.ts:58 | the string built from the loop's `hour` and `min` is the rendering of minute `hour*60+min` |
| Availability.GridIndex | services/db.ts:186-198 | every grid time is the `k`-th step of the walk for one `k` below 24 |
| Availability.FreeSlotsSound | services/db.ts:198-229 | every returned start is a grid time before 21:00, not before `now`, ends by 21:00 and overlaps no busy interval |
| Availability.FreeSlotsComplete | services/db.ts:198-229 | every grid time that passes the three tests is returned |
| Availability.FreeSlotsAscending | services/db.ts:229 | the returned starts are strictly ascending, so there are no duplicates |
| Availability.FreeSlotsExactly | services/db.ts:198-229 | a minute is returned exactly when it is on the grid and passes all three tests (both directions) |
| Availability.FreeSlotsInDay | services/db.ts:223-225 | every returned start can be rendered as a time of day |
| Availability.SlotStrings | services/db.ts:225 | rendering keeps the number of slots |
| Availability.SlotStringsAppend | services/db.ts:225 | pushing one more start pushes exactly its rendering |
| Availability.SlotsUpToRendersFree | services/db.ts:198-230 | the strings pushed by the walk so far are the renderings of the free starts so far, in order |
| Availability.SlotListMember | services/db.ts:258 | a time's `HH:MM` is in the returned list exactly when that time is free |
| Availability.SlotStringsMember | services/db.ts:258 | a rendered time is in a rendered list exactly when the time is in the list |
| Availability.BarberAppointments | services/db.ts:179-183 | the filter returns no more appointments than it was given |
| Availability.BarberAppointmentsMember | services/db.ts:179-183 | an appointment survives the filter exactly when it is for the barber, on the date and not cancelled |
| Availability.Intervals | services/db.ts:210-215 | there are never more busy intervals than appointments |
| Availability.Span | services/db.ts:211-215 | an appointment's interval starts at its start and lasts its service's current duration, or 30 minutes when the service is gone |
| Availability.IntervalsCover | api/appointments/available-slots.ts:19-26 | every appointment that counts under the policy contributes its interval |
| Availability.IntervalsFromCounted | api/appointments/available-slots.ts:19-26 | conversely, every busy interval is the span of an appointment in the list that counts under the policy (under the JOIN, one whose service exists) |
| Availability.DefaultIntervalsAreSpans | services/db.ts:211-215 | with the 30-minute default, every appointment contributes, in order, `[start, start + duration)` and the calculator never fails on a missing service |
| Availability.FreeSlotsAntitone | services/db.ts:210-220 | fewer busy intervals never remove a slot |
| Availability.IntervalsMonotone | services/db.ts:179-183 | fewer appointments never add a busy interval |
| Availability.JoinedWithinDefault | server/index.ts:261-268 | every row the SQL JOIN keeps is an interval the in-memory store also uses |
| Availability.DefaultSlotsWithinJoined | server/index.ts:256-310 | the JOIN policy offers every slot the 30-minute default offers for the same data |
| Availability.PoliciesAgreeWhenServicesExist | server/index.ts:261-268 | when every appointment's service exists, as the foreign key keeps it, the JOIN drops nothing and both policies give the same busy intervals |
| Availability.BusyAgreesWhenServicesExist | server/index.ts:261-268 | the same for the barber's non-cancelled appointments of one day |
| Availability.SingleAppointmentBusy | services/db.ts:179-183 | a single considered appointment is the whole busy list, or nothing when the policy drops it |
| Availability.OrphanedAppointmentPolicies | services/db.ts:211-212 | on an appointment at 09:00 whose service is gone, which the in-memory `deleteService` can leave, the 30-minute default blocks 09:00 and the JOIN does not |
| Availability.CancelNeverRemovesSlot | services/db.ts:182 | cancelling any appointment never removes a slot, under either policy |
| Availability.UnrelatedBookingKeepsSlots | services/db.ts:179-183 | adding an appointment for another barber or date, or a cancelled one, leaves the slots unchanged |
| Availability.BookedSlotDisappears | services/db.ts:210-220 | once an appointment of positive length is recorded, its start is no longer offered to the barber |
| Availability.BackToBackExample | services/db.ts:219 | after a 45-minute appointment at 10:00, a 30-minute request gets 09:30 and 11:00 but not 10:00 or 10:30 |
| Availability.AroundOneBooking | services/db.ts:219 | the same four facts for the busy interval 10:00-10:45 alone |
| Availability.LongServiceExample | services/db.ts:208 | for 75 minutes on a free day, 19:30 is offered and 20:00 and 20:30 are not |
| Availability.BookingKeepsNoDoubleBooking | services/db.ts:217-218 | appending an appointment whose start the calculator offers for its service keeps the barber's appointments pairwise non-overlapping |
| Availability.StatusChangeKeepsNoDoubleBooking | services/db.ts:160-171 | a cancellation, or any change to an appointment that was not cancelled, keeps the invariant |
| Availability.RevivingCancelledMayDoubleBook | services/db.ts:164 | setting a cancelled appointment back to confirmed can create an overlap, because the update does not check availability |
| Inventory.SaleConservesUnits | services/db.ts:326-341 | after a sale, every product's stock plus units sold is unchanged; other products' stock is unchanged; the sold product's stock drops by the quantity |
| LocalStore.HasConflict | services/db.ts:210-220 | `some` reports a conflict exactly when the slot overlaps a busy interval under the 30-minute default |
| LocalStore.Store.constructor | services/db.ts:54-61 | the catalogs are seeded, and there are no appointments or sales |
| LocalStore.Store.SaveService | services/db.ts:108-120 | replaces the first service with the id or appends; afterwards the id finds the saved service and other ids are unaffected |
| LocalStore.Store.DeleteService | services/db.ts:122-126 | removes every service with the id; afterwards the id is not found and other ids are unaffected |
| LocalStore.Store.SaveBarber | services/db.ts:134-146 | the same upsert for barbers |
| LocalStore.Store.DeleteBarber | services/db.ts:148-152 | the same delete for barbers |
| LocalStore.Store.SaveProduct | services/db.ts:292-304 | the same upsert for products |
| LocalStore.Store.DeleteProduct | services/db.ts:306-310 | the same delete for products |
| LocalStore.Store.SaveExpense | services/db.ts:352-364 | the same upsert for expenses |
| LocalStore.Store.DeleteExpense | services/db.ts:366-370 | the same delete for expenses |
| LocalStore.Store.UpdateAppointmentStatus | services/db.ts:160-171 | only the first appointment with the id changes (its status, and its payment method only when one is given); an unknown id changes nothing; a cancellation, or a change to a non-cancelled appointment, keeps no-double-booking |
| LocalStore.Store.CancelAppointment | services/db.ts:276-284 | only the first appointment with the id becomes cancelled; an unknown id changes nothing; no-double-booking is kept |
| LocalStore.Store.GetAvailableSlots | services/db.ts:174-233 | the `while` loop returns the calculator's `HH:MM` list for the barber's non-cancelled appointments that day, with the 30-minute default |
| LocalStore.Store.CreateAppointment | services/db.ts:235-274 | refuses a past start, then an unknown service, then a start not offered (so every off-grid time is refused), each with the store unchanged; otherwise appends one confirmed appointment priced at the service's current price; no-double-booking is kept |
| LocalStore.Store.CreateProductSale | services/db.ts:317-344 | an unknown product or stock below the quantity is refused with nothing changed; otherwise that product's stock drops by exactly the quantity and never below zero, one sale at the product's price is appended, and stock plus sold units is conserved |
| SqlBackend.JoinedRows | server/index.ts:261-268 | the query's rows are exactly the spans of the barber's non-cancelled appointments that day whose service exists (both directions) |
| SqlBackend.RowsConflict | server/index.ts:293-297 | `some` over the loaded rows reports a conflict exactly when the slot overlaps one of them |
| SqlBackend.UpdateWhere | server/index.ts:237-247 | the UPDATE keeps the number of rows |
| SqlBackend.UpdateWhereMatchesFirst | server/index.ts:237-247 | with unique ids, the SQL status update has the same effect as the in-memory first-match update |
| SqlBackend.DecrementWhere | api/product-sales.ts:50-54 | the UPDATE keeps the number of rows |
| SqlBackend.DecrementWhereLowers | api/product-sales.ts:50-54 | the decrement lowers the product's stock by the quantity, keeps every id in place and leaves other products' rows unchanged |
| SqlBackend.SqlPostMayDoubleBook | api/appointments/index.ts:33-48 | a POST for an occupied start is accepted and creates an overlap that `createAppointment` would refuse |
| SqlBackend.GridWalkStep | api/appointments/available-slots.ts:38-59 | one step of the hour/minute loops tests the next grid time and pushes exactly its rendering when it passes |
| SqlBackend.WalkGrid | api/appointments/available-slots.ts:29-61 | the nested `for` loops return exactly the calculator's `HH:MM` list for the loaded rows |
| SqlBackend.Database.AvailableSlots | server/index.ts:256-310 | GET available-slots returns the calculator's list for the barber's non-cancelled appointments that day that join to an existing service; while every appointment's service exists, this is the in-memory store's list |
| SqlBackend.Database.PostAppointment | server/index.ts:198-231 | an unknown service is refused with nothing inserted; otherwise exactly one confirmed row is inserted, echoing the request and priced at the service's current price, with no time or availability check; every appointment's service still exists afterwards |
| SqlBackend.Database.PatchAppointmentStatus | server/index.ts:233-254 | the table becomes `UpdateWhere` of the old one: every row with the id gets the status, and the payment method only when one is given; every other row is unchanged; services stay referenced |
| SqlBackend.Database.PostProductSale | server/index.ts:381-421 | an unknown product or insufficient stock is refused before any write; otherwise the stock drops by the quantity and stays non-negative, one sale at the price read before the update is inserted, and stock plus sold units is conserved |

## Left out

- **UI, authentication, users and the catalog getters.** These are rendering and plain reads.
- **Artificial latency and localStorage.** `delay(...)` is left out, and so is the JSON (de)serialisation of `localStorage`. Each list is a field of the store.
- **Real clock and dates.** Dates are not parsed from ISO strings, and there are no timezones or seconds. Instants are whole minutes, and `toLocaleTimeString('pt-BR')` is the pure `HH:MM` renderer.
  - `createAppointment` reads the clock twice: once itself and once inside `getAvailableSlots`. The model uses one `now` for both.
- **Concurrency.** The model does not capture:
  - the check-then-act race between recomputing slots and appending;
  - the non-atomic UPDATE-then-INSERT of a product sale;
  - other clients writing to the same tables.
- **Database constraint errors.** Random ids are parameters. A primary-key collision on INSERT, a database error and the HTTP status codes are not modelled.
- **Numeric conversion.** `Number(serviceDuration)` producing `NaN` is not modelled. Durations, quantities and prices are integers. `rating` is an opaque real that is never computed with.
- **Row order.** SQL result order is taken to be insertion order. The calculator's answer depends only on which rows exist, not on their order.
- **The HTTP response body** of POST product-sales is not modelled. Its `createdAt` is the sale timestamp parameter.
- **Other routes.** The catalog upsert and delete routes of `server/index.ts` and `api/*` (SQL `ON CONFLICT` upserts with a random id fallback), the GET list routes, and the users and auth routes are not part of this model.
- **Referential integrity in Postgres.** The database refuses to delete a service that appointments still reference. The SQL catalog delete routes are not part of this model. The class `Database` carries that constraint only as the invariant `ServicesExist`, which its insert and update methods keep.
- **Negative quantities.** Negative or zero sale quantities are accepted, as in the code.
- **Conditions on the invariant.** `NoDoubleBooking` takes the service catalog as fixed. Changing a service's duration after bookings exist can break the invariant, and the model does not claim otherwise.
