/** Entities of the barbershop: the records of types.ts, the status and
    payment-method enumerations fixed by the CHECK constraints of the
    appointments table, and the error outcomes of the booking and sale paths.
    Instants are whole minutes on one global clock; prices and amounts are
    integer cents that the core only copies. */
module Domain {

  datatype Option<+T> = None | Some(value: T)

  datatype Status = Confirmed | Cancelled | Completed

  datatype PaymentMethod = CreditCard | DebitCard | Pix | Cash

  datatype ExpenseCategory = Fixed | Variable

  datatype Service = Service(id: string, name: string, price: int, durationMinutes: int, image: string)

  datatype Barber = Barber(id: string, name: string, avatarUrl: string, rating: real)

  /** `start` is the appointment's start instant in minutes; `priceAtBooking`
      is a snapshot of the service price taken when the appointment was made. */
  datatype Appointment = Appointment(
    id: string,
    userId: string,
    userName: Option<string>,
    barberId: string,
    serviceId: string,
    start: int,
    status: Status,
    priceAtBooking: int,
    paymentMethod: Option<PaymentMethod>)

  datatype Product = Product(id: string, name: string, description: string, price: int, stockQuantity: int)

  datatype ProductSale = ProductSale(id: string, productId: string, userId: string, quantity: int, salePrice: int, createdAt: int)

  datatype Expense = Expense(id: string, description: string, amount: int, date: int, category: ExpenseCategory)

  /** What a client submits when booking: an appointment without id, status
      and price. */
  datatype BookingRequest = BookingRequest(
    userId: string,
    userName: Option<string>,
    barberId: string,
    serviceId: string,
    start: int,
    paymentMethod: Option<PaymentMethod>)

  datatype Error =
    | PastBooking
    | ServiceNotFound
    | SlotUnavailable
    | ProductNotFound
    | InsufficientStock(available: int)

  datatype Result<+T> = Ok(value: T) | Err(error: Error)

  // Keys by which the stores look records up.
  function ServiceKey(s: Service): string { s.id }
  function BarberKey(b: Barber): string { b.id }
  function AppointmentKey(a: Appointment): string { a.id }
  function ProductKey(p: Product): string { p.id }
  function ExpenseKey(e: Expense): string { e.id }

  /** The record both booking paths insert: the request's fields, status
      `Confirmed` and the given price as the snapshot. */
  function NewAppointment(id: string, req: BookingRequest, price: int, paymentMethod: Option<PaymentMethod>): (r: Appointment)
    ensures r.id == id && r.status == Confirmed && r.priceAtBooking == price && r.paymentMethod == paymentMethod
    ensures r.userId == req.userId && r.userName == req.userName && r.barberId == req.barberId
    ensures r.serviceId == req.serviceId && r.start == req.start
  {
    Appointment(id, req.userId, req.userName, req.barberId, req.serviceId, req.start,
                Confirmed, price, paymentMethod)
  }

  /** The record a status change leaves: new status, and the payment method
      replaced only when one is supplied. */
  function WithStatus(a: Appointment, status: Status, paymentMethod: Option<PaymentMethod>): (r: Appointment)
    ensures r.status == status
    ensures r.paymentMethod == if paymentMethod.Some? then paymentMethod else a.paymentMethod
    ensures r.(status := a.status, paymentMethod := a.paymentMethod) == a
  {
    a.(status := status, paymentMethod := if paymentMethod.Some? then paymentMethod else a.paymentMethod)
  }
}
