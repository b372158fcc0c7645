/** The slot-availability calculator, stated as a specification that the
    three loop implementations (services/db.ts and the two SQL handlers)
    are proved against, and the no-double-booking invariant that booking
    through services/db.ts keeps.

    The calculator walks a fixed grid of start times, every 30 minutes from
    09:00 up to but not including 21:00, and keeps a start `m` on `day` when
    it is not before `now`, the service ends by 21:00, and its half-open
    interval meets no busy interval. The busy intervals come from the
    barber's non-cancelled appointments that day; an appointment lasts as
    long as its service in the current catalog says. The in-memory store
    assumes 30 minutes when the service is gone; the SQL handlers' JOIN
    drops such an appointment altogether. */
module Availability {
  import opened Domain
  import opened Keyed
  import opened Clock

  const OpenHour: int := 9
  const CloseHour: int := 21
  const SlotInterval: int := 30
  const DefaultDuration: int := 30
  const OpenMinute: int := OpenHour * MinutesPerHour
  const CloseMinute: int := CloseHour * MinutesPerHour
  /** Number of grid start times: 09:00, 09:30, ..., 20:30. */
  const SlotCount: int := (CloseMinute - OpenMinute) / SlotInterval

  /** A half-open interval `[start, end)` of instants. */
  datatype Interval = Interval(start: int, end: int)

  /** Half-open overlap: touching intervals do not overlap. */
  predicate Overlaps(a: Interval, b: Interval) { a.start < b.end && a.end > b.start }

  /** No busy interval overlaps `slot`. */
  predicate Clear(slot: Interval, busy: seq<Interval>)
  {
    forall iv | iv in busy :: !Overlaps(slot, iv)
  }

  /** The `k`-th start time of the grid, in minutes of the day. */
  function GridAt(k: int): int { OpenMinute + SlotInterval * k }

  predicate OnGrid(m: int)
  {
    OpenMinute <= m < CloseMinute && (m - OpenMinute) % SlotInterval == 0
  }

  lemma GridIndex(m: int)
    requires OnGrid(m)
    ensures 0 <= (m - OpenMinute) / SlotInterval < SlotCount
    ensures GridAt((m - OpenMinute) / SlotInterval) == m
  {
  }

  /** The three tests a start time at minute `m` of `day` must pass. */
  predicate Bookable(day: int, m: int, duration: int, now: int, busy: seq<Interval>)
  {
    var slot := Interval(At(day, m), At(day, m) + duration);
    && now <= slot.start
    && slot.end <= At(day, CloseMinute)
    && Clear(slot, busy)
  }

  /** The bookable start times among the first `k` grid times, in grid order. */
  function FreeSlotsUpTo(day: int, duration: int, now: int, busy: seq<Interval>, k: int): seq<int>
    requires 0 <= k <= SlotCount
  {
    if k == 0 then []
    else
      var prev := FreeSlotsUpTo(day, duration, now, busy, k - 1);
      if Bookable(day, GridAt(k - 1), duration, now, busy) then prev + [GridAt(k - 1)] else prev
  }

  /** Sound: among the first `k` grid times, the list holds only grid
      times that pass the three tests. */
  lemma {:induction false} FreeSlotsSound(day: int, duration: int, now: int, busy: seq<Interval>, k: int)
    requires 0 <= k <= SlotCount
    ensures forall i :: 0 <= i < |FreeSlotsUpTo(day, duration, now, busy, k)| ==>
              var m := FreeSlotsUpTo(day, duration, now, busy, k)[i];
              OnGrid(m) && m < GridAt(k) && Bookable(day, m, duration, now, busy)
  {
    if k > 0 {
      FreeSlotsSound(day, duration, now, busy, k - 1);
    }
  }

  /** Complete: every one of the first `k` grid times that passes the three
      tests is in the list. */
  lemma {:induction false} FreeSlotsComplete(day: int, duration: int, now: int, busy: seq<Interval>, k: int)
    requires 0 <= k <= SlotCount
    ensures forall j :: 0 <= j < k && Bookable(day, GridAt(j), duration, now, busy) ==>
              GridAt(j) in FreeSlotsUpTo(day, duration, now, busy, k)
  {
    if k > 0 {
      FreeSlotsComplete(day, duration, now, busy, k - 1);
      var prev := FreeSlotsUpTo(day, duration, now, busy, k - 1);
      assert forall x :: x in prev ==> x in FreeSlotsUpTo(day, duration, now, busy, k);
    }
  }

  /** The list is strictly ascending: the grid walk meets times in order. */
  lemma {:induction false} FreeSlotsAscending(day: int, duration: int, now: int, busy: seq<Interval>, k: int)
    requires 0 <= k <= SlotCount
    ensures forall i, i' :: 0 <= i < i' < |FreeSlotsUpTo(day, duration, now, busy, k)| ==>
              FreeSlotsUpTo(day, duration, now, busy, k)[i] < FreeSlotsUpTo(day, duration, now, busy, k)[i']
  {
    if k > 0 {
      FreeSlotsAscending(day, duration, now, busy, k - 1);
      FreeSlotsSound(day, duration, now, busy, k - 1);
    }
  }

  /** The calculator's answer, as minutes of the day. */
  function FreeSlots(day: int, duration: int, now: int, busy: seq<Interval>): seq<int>
  {
    FreeSlotsUpTo(day, duration, now, busy, SlotCount)
  }

  /** A start time is returned exactly when it is on the grid and passes the
      three tests; in particular, a slot ending exactly at 21:00, or touching
      a busy interval at either end, is kept. */
  lemma FreeSlotsExactly(day: int, duration: int, now: int, busy: seq<Interval>, m: int)
    ensures m in FreeSlots(day, duration, now, busy) <==> OnGrid(m) && Bookable(day, m, duration, now, busy)
  {
    FreeSlotsSound(day, duration, now, busy, SlotCount);
    if OnGrid(m) && Bookable(day, m, duration, now, busy) {
      GridIndex(m);
      FreeSlotsComplete(day, duration, now, busy, SlotCount);
    }
  }

  /** Every entry is a minute of the day, so it can be rendered. */
  predicate InDay(ms: seq<int>)
  {
    forall i :: 0 <= i < |ms| ==> 0 <= ms[i] < MinutesPerDay
  }

  /** The rendered slot list: each minute as `HH:MM`. */
  function SlotStrings(ms: seq<int>): (r: seq<string>)
    requires InDay(ms)
    ensures |r| == |ms|
  {
    if |ms| == 0 then [] else SlotStrings(ms[..|ms| - 1]) + [FormatHHMM(ms[|ms| - 1])]
  }

  /** Slot lists hold grid minutes only, so they can be rendered. */
  lemma FreeSlotsInDay(day: int, duration: int, now: int, busy: seq<Interval>, k: int)
    requires 0 <= k <= SlotCount
    ensures InDay(FreeSlotsUpTo(day, duration, now, busy, k))
  {
    FreeSlotsSound(day, duration, now, busy, k);
  }

  /** Rendering commutes with appending one slot. */
  lemma SlotStringsAppend(ms: seq<int>, m: int)
    requires InDay(ms)
    requires 0 <= m < MinutesPerDay
    ensures SlotStrings(ms + [m]) == SlotStrings(ms) + [FormatHHMM(m)]
  {
    assert (ms + [m])[..|ms|] == ms;
  }

  /** The rendered answer for the first `k` grid times, built the way a walk
      over the grid builds it: one step per grid time, pushing the time's
      `HH:MM` when it is bookable. */
  function SlotsUpTo(day: int, duration: int, now: int, busy: seq<Interval>, k: int): seq<string>
    requires 0 <= k <= SlotCount
  {
    if k == 0 then []
    else
      SlotsUpTo(day, duration, now, busy, k - 1) +
      (if Bookable(day, GridAt(k - 1), duration, now, busy) then [FormatHHMM(GridAt(k - 1))] else [])
  }

  /** The calculator's rendered answer: the `HH:MM` strings it returns. */
  function SlotList(day: int, duration: int, now: int, busy: seq<Interval>): seq<string>
  {
    SlotsUpTo(day, duration, now, busy, SlotCount)
  }

  /** The walk's strings are the renderings of the free minutes, in order. */
  lemma {:induction false} SlotsUpToRendersFree(day: int, duration: int, now: int, busy: seq<Interval>, k: int)
    requires 0 <= k <= SlotCount
    ensures InDay(FreeSlotsUpTo(day, duration, now, busy, k)) &&
            SlotsUpTo(day, duration, now, busy, k) == SlotStrings(FreeSlotsUpTo(day, duration, now, busy, k))
  {
    FreeSlotsInDay(day, duration, now, busy, k);
    if k > 0 {
      SlotsUpToRendersFree(day, duration, now, busy, k - 1);
      FreeSlotsInDay(day, duration, now, busy, k - 1);
      if Bookable(day, GridAt(k - 1), duration, now, busy) {
        SlotStringsAppend(FreeSlotsUpTo(day, duration, now, busy, k - 1), GridAt(k - 1));
      }
    }
  }

  /** The returned `HH:MM` strings are exactly the renderings of the free
      minutes, so a rendered time is returned exactly when its minute is free. */
  lemma SlotListMember(day: int, duration: int, now: int, busy: seq<Interval>, m: int)
    requires 0 <= m < MinutesPerDay
    ensures FormatHHMM(m) in SlotList(day, duration, now, busy) <==> m in FreeSlots(day, duration, now, busy)
  {
    SlotsUpToRendersFree(day, duration, now, busy, SlotCount);
    FreeSlotsInDay(day, duration, now, busy, SlotCount);
    SlotStringsMember(FreeSlots(day, duration, now, busy), m);
  }

  /** A rendered time is in the rendered list exactly when its minute is in
      the list: the `includes` test on strings is a test on minutes. */
  lemma {:induction false} SlotStringsMember(ms: seq<int>, m: int)
    requires InDay(ms)
    requires 0 <= m < MinutesPerDay
    ensures FormatHHMM(m) in SlotStrings(ms) <==> m in ms
  {
    if |ms| > 0 {
      var init, last := ms[..|ms| - 1], ms[|ms| - 1];
      assert ms == init + [last];
      SlotStringsMember(init, m);
      if FormatHHMM(m) == FormatHHMM(last) {
        FormatInjective(m, last);
      }
    }
  }

  // ---- Which appointments the calculator considers ----

  /** The services/db.ts filter: same barber, same date, not cancelled. The
      SQL handlers' WHERE clause states the same condition. */
  predicate ConsideredBy(a: Appointment, barberId: string, day: int)
  {
    a.barberId == barberId && DayOf(a.start) == day && a.status != Cancelled
  }

  function BarberAppointments(apps: seq<Appointment>, barberId: string, day: int): (r: seq<Appointment>)
    ensures |r| <= |apps|
  {
    if |apps| == 0 then []
    else
      var init, last := apps[..|apps| - 1], apps[|apps| - 1];
      BarberAppointments(init, barberId, day) + (if ConsideredBy(last, barberId, day) then [last] else [])
  }

  /** The filter keeps exactly the appointments it considers. */
  lemma {:induction false} BarberAppointmentsMember(apps: seq<Appointment>, barberId: string, day: int)
    ensures forall a :: a in BarberAppointments(apps, barberId, day) <==> a in apps && ConsideredBy(a, barberId, day)
  {
    if |apps| > 0 {
      var init, last := apps[..|apps| - 1], apps[|apps| - 1];
      assert apps == init + [last];
      BarberAppointmentsMember(init, barberId, day);
    }
  }

  function FindService(services: seq<Service>, id: string): Option<Service>
  {
    Find(services, ServiceKey, id)
  }

  /** How the calculator treats an appointment whose service is missing from
      the catalog. */
  datatype DurationPolicy =
    | DefaultWhenMissing   // services/db.ts: assume 30 minutes
    | JoinDropsMissing     // SQL JOIN services: the appointment disappears

  /** An appointment's interval, with its duration from the current catalog
      (30 minutes when its service is gone). */
  function Span(a: Appointment, services: seq<Service>): (r: Interval)
    ensures r.start == a.start
    ensures FindService(services, a.serviceId).Some? ==> r.end - r.start == FindService(services, a.serviceId).value.durationMinutes
    ensures FindService(services, a.serviceId).None? ==> r.end - r.start == DefaultDuration
  {
    var duration := match FindService(services, a.serviceId)
      case Some(s) => s.durationMinutes
      case None => DefaultDuration;
    Interval(a.start, a.start + duration)
  }

  predicate Counted(a: Appointment, services: seq<Service>, policy: DurationPolicy)
  {
    policy == DefaultWhenMissing || FindService(services, a.serviceId).Some?
  }

  /** The busy intervals of a list of appointments under a policy. */
  function Intervals(apps: seq<Appointment>, services: seq<Service>, policy: DurationPolicy): (r: seq<Interval>)
    ensures |r| <= |apps|
  {
    if |apps| == 0 then []
    else
      var init, last := apps[..|apps| - 1], apps[|apps| - 1];
      Intervals(init, services, policy) + (if Counted(last, services, policy) then [Span(last, services)] else [])
  }

  /** Every counted appointment's span is busy. */
  lemma {:induction false} IntervalsCover(apps: seq<Appointment>, services: seq<Service>, policy: DurationPolicy)
    ensures forall a :: a in apps && Counted(a, services, policy) ==> Span(a, services) in Intervals(apps, services, policy)
  {
    if |apps| > 0 {
      var init, last := apps[..|apps| - 1], apps[|apps| - 1];
      assert apps == init + [last];
      IntervalsCover(init, services, policy);
    }
  }

  /** Conversely, every busy interval is the span of an appointment in the
      list that counts under the policy: under the JOIN, one whose service
      exists. */
  lemma {:induction false} IntervalsFromCounted(apps: seq<Appointment>, services: seq<Service>, policy: DurationPolicy)
    ensures forall iv :: iv in Intervals(apps, services, policy) ==>
              exists a :: a in apps && Counted(a, services, policy) && iv == Span(a, services)
  {
    if |apps| > 0 {
      var init, last := apps[..|apps| - 1], apps[|apps| - 1];
      assert apps == init + [last];
      IntervalsFromCounted(init, services, policy);
      forall iv | iv in Intervals(apps, services, policy)
        ensures exists a :: a in apps && Counted(a, services, policy) && iv == Span(a, services)
      {
        if iv in Intervals(init, services, policy) {
          var a :| a in init && Counted(a, services, policy) && iv == Span(a, services);
          assert a in apps;
        } else {
          assert last in apps && Counted(last, services, policy) && iv == Span(last, services);
        }
      }
    }
  }

  /** Under the local policy every appointment contributes its span, in
      order. */
  lemma {:induction false} DefaultIntervalsAreSpans(apps: seq<Appointment>, services: seq<Service>)
    ensures |Intervals(apps, services, DefaultWhenMissing)| == |apps|
    ensures forall j :: 0 <= j < |apps| ==> Intervals(apps, services, DefaultWhenMissing)[j] == Span(apps[j], services)
  {
    if |apps| > 0 {
      var init, last := apps[..|apps| - 1], apps[|apps| - 1];
      DefaultIntervalsAreSpans(init, services);
      var r := Intervals(apps, services, DefaultWhenMissing);
      assert r == Intervals(init, services, DefaultWhenMissing) + [Span(last, services)];
      assert forall j :: 0 <= j < |init| ==> apps[j] == init[j] && r[j] == Intervals(init, services, DefaultWhenMissing)[j];
    }
  }

  /** The busy intervals the calculator tests candidates against. */
  function Busy(apps: seq<Appointment>, services: seq<Service>, barberId: string, day: int, policy: DurationPolicy): seq<Interval>
  {
    Intervals(BarberAppointments(apps, barberId, day), services, policy)
  }

  // ---- How the answer depends on the appointments ----

  /** Fewer busy intervals never remove a slot. */
  lemma FreeSlotsAntitone(day: int, duration: int, now: int, busy: seq<Interval>, busy': seq<Interval>)
    requires forall iv :: iv in busy' ==> iv in busy
    ensures forall m :: m in FreeSlots(day, duration, now, busy) ==> m in FreeSlots(day, duration, now, busy')
  {
    forall m | m in FreeSlots(day, duration, now, busy)
      ensures m in FreeSlots(day, duration, now, busy')
    {
      FreeSlotsExactly(day, duration, now, busy, m);
      FreeSlotsExactly(day, duration, now, busy', m);
    }
  }

  lemma {:induction false} IntervalsMonotone(apps: seq<Appointment>, apps': seq<Appointment>, services: seq<Service>, policy: DurationPolicy)
    requires forall a :: a in apps' ==> a in apps
    ensures forall iv :: iv in Intervals(apps', services, policy) ==> iv in Intervals(apps, services, policy)
  {
    if |apps'| > 0 {
      var init, last := apps'[..|apps'| - 1], apps'[|apps'| - 1];
      assert forall a :: a in init ==> a in apps';
      IntervalsMonotone(apps, init, services, policy);
      IntervalsCover(apps, services, policy);
    }
  }

  /** Every interval the SQL JOIN keeps is one the in-memory store uses. */
  lemma {:induction false} JoinedWithinDefault(apps: seq<Appointment>, services: seq<Service>)
    ensures forall iv :: iv in Intervals(apps, services, JoinDropsMissing) ==> iv in Intervals(apps, services, DefaultWhenMissing)
  {
    if |apps| > 0 {
      JoinedWithinDefault(apps[..|apps| - 1], services);
    }
  }

  /** So the JOIN policy offers every slot the 30-minute default offers, and
      possibly more on data where an appointment's service is gone. */
  lemma DefaultSlotsWithinJoined(apps: seq<Appointment>, services: seq<Service>, barberId: string, day: int, duration: int, now: int)
    ensures forall m :: m in FreeSlots(day, duration, now, Busy(apps, services, barberId, day, DefaultWhenMissing)) ==>
                        m in FreeSlots(day, duration, now, Busy(apps, services, barberId, day, JoinDropsMissing))
  {
    JoinedWithinDefault(BarberAppointments(apps, barberId, day), services);
    FreeSlotsAntitone(day, duration, now, Busy(apps, services, barberId, day, DefaultWhenMissing),
                      Busy(apps, services, barberId, day, JoinDropsMissing));
  }

  /** Every appointment's service is in the catalog, as a foreign key from
      appointments to services keeps it. */
  predicate ServicesExist(apps: seq<Appointment>, services: seq<Service>)
  {
    forall a :: a in apps ==> FindService(services, a.serviceId).Some?
  }

  /** While every appointment's service exists, the JOIN drops nothing and
      both policies give the same busy intervals. */
  lemma {:induction false} PoliciesAgreeWhenServicesExist(apps: seq<Appointment>, services: seq<Service>)
    requires ServicesExist(apps, services)
    ensures Intervals(apps, services, JoinDropsMissing) == Intervals(apps, services, DefaultWhenMissing)
  {
    if |apps| > 0 {
      var init, last := apps[..|apps| - 1], apps[|apps| - 1];
      assert apps == init + [last];
      assert forall a :: a in init ==> a in apps;
      PoliciesAgreeWhenServicesExist(init, services);
      assert last in apps;
    }
  }

  /** The same for the barber's busy list of a day. */
  lemma BusyAgreesWhenServicesExist(apps: seq<Appointment>, services: seq<Service>, barberId: string, day: int)
    requires ServicesExist(apps, services)
    ensures Busy(apps, services, barberId, day, JoinDropsMissing) == Busy(apps, services, barberId, day, DefaultWhenMissing)
  {
    BarberAppointmentsMember(apps, barberId, day);
    PoliciesAgreeWhenServicesExist(BarberAppointments(apps, barberId, day), services);
  }

  /** A single considered appointment is the whole busy list when it is
      counted, and contributes nothing when it is not. */
  lemma SingleAppointmentBusy(a: Appointment, services: seq<Service>, day: int, policy: DurationPolicy)
    requires ConsideredBy(a, a.barberId, day)
    ensures Busy([a], services, a.barberId, day, policy) == if Counted(a, services, policy) then [Span(a, services)] else []
  {
    assert [a][..0] == [];
    assert BarberAppointments([a], a.barberId, day) == [a];
  }

  /** The two policies differ only on an appointment whose service is gone,
      which the in-memory store's delete can leave behind: at 09:00 it blocks
      09:00 under the 30-minute default but not under the JOIN. */
  lemma OrphanedAppointmentPolicies(a: Appointment, day: int, now: int)
    requires a.start == At(day, OpenMinute) && a.status == Confirmed
    requires now <= At(day, OpenMinute)
    ensures OpenMinute !in FreeSlots(day, SlotInterval, now, Busy([a], [], a.barberId, day, DefaultWhenMissing))
    ensures OpenMinute in FreeSlots(day, SlotInterval, now, Busy([a], [], a.barberId, day, JoinDropsMissing))
  {
    AtSplits(day, OpenMinute);
    var orphan := Interval(At(day, OpenMinute), At(day, OpenMinute) + DefaultDuration);
    SingleAppointmentBusy(a, [], day, DefaultWhenMissing);
    SingleAppointmentBusy(a, [], day, JoinDropsMissing);
    assert Span(a, []) == orphan;
    assert orphan in [orphan];
    FreeSlotsExactly(day, SlotInterval, now, [orphan], OpenMinute);
    FreeSlotsExactly(day, SlotInterval, now, [], OpenMinute);
  }

  /** Cancelling an appointment never removes a slot, under either policy. */
  lemma CancelNeverRemovesSlot(apps: seq<Appointment>, services: seq<Service>, i: int, barberId: string, day: int,
                               duration: int, now: int, policy: DurationPolicy)
    requires 0 <= i < |apps|
    ensures forall m :: m in FreeSlots(day, duration, now, Busy(apps, services, barberId, day, policy)) ==>
                        m in FreeSlots(day, duration, now, Busy(apps[i := apps[i].(status := Cancelled)], services, barberId, day, policy))
  {
    var apps' := apps[i := apps[i].(status := Cancelled)];
    var before, after := BarberAppointments(apps, barberId, day), BarberAppointments(apps', barberId, day);
    BarberAppointmentsMember(apps, barberId, day);
    BarberAppointmentsMember(apps', barberId, day);
    forall a | a in after ensures a in before {
      var j :| 0 <= j < |apps'| && apps'[j] == a;
      assert j != i;
    }
    IntervalsMonotone(before, after, services, policy);
    FreeSlotsAntitone(day, duration, now, Busy(apps, services, barberId, day, policy),
                      Busy(apps', services, barberId, day, policy));
  }

  /** Adding an appointment for another barber, another date, or one already
      cancelled leaves the answer as it was. */
  lemma UnrelatedBookingKeepsSlots(apps: seq<Appointment>, services: seq<Service>, a: Appointment, barberId: string, day: int,
                                   duration: int, now: int, policy: DurationPolicy)
    requires !ConsideredBy(a, barberId, day)
    ensures FreeSlots(day, duration, now, Busy(apps + [a], services, barberId, day, policy)) ==
            FreeSlots(day, duration, now, Busy(apps, services, barberId, day, policy))
  {
    assert (apps + [a])[..|apps|] == apps;
    assert BarberAppointments(apps + [a], barberId, day) == BarberAppointments(apps, barberId, day);
  }

  /** Once an appointment of positive length is recorded, a request of
      positive length for its start time on that day is no longer offered. */
  lemma BookedSlotDisappears(apps: seq<Appointment>, services: seq<Service>, a: Appointment, duration: int, now: int, policy: DurationPolicy)
    requires a.status != Cancelled && duration > 0
    requires Counted(a, services, policy) && Span(a, services).end > a.start
    ensures MinuteOfDay(a.start) !in FreeSlots(DayOf(a.start), duration, now, Busy(apps + [a], services, a.barberId, DayOf(a.start), policy))
  {
    var day, m := DayOf(a.start), MinuteOfDay(a.start);
    SplitJoins(a.start);
    var busy := Busy(apps + [a], services, a.barberId, day, policy);
    assert a in BarberAppointments(apps + [a], a.barberId, day);
    assert Span(a, services) in busy;
    FreeSlotsExactly(day, duration, now, busy, m);
  }

  /** One appointment 10:00-10:45 and a 30-minute request. 09:30 (ending 10:00) and 11:00 (starting at 10:45
      or later) are offered; 10:00 and 10:30 are not. */
  lemma BackToBackExample(a: Appointment, services: seq<Service>, day: int, now: int)
    requires a.start == At(day, 10 * MinutesPerHour) && a.status == Confirmed
    requires FindService(services, a.serviceId).Some? && FindService(services, a.serviceId).value.durationMinutes == 45
    requires now <= At(day, OpenMinute)
    ensures 9 * MinutesPerHour + 30 in FreeSlots(day, 30, now, Busy([a], services, a.barberId, day, DefaultWhenMissing))
    ensures 11 * MinutesPerHour in FreeSlots(day, 30, now, Busy([a], services, a.barberId, day, DefaultWhenMissing))
    ensures 10 * MinutesPerHour !in FreeSlots(day, 30, now, Busy([a], services, a.barberId, day, DefaultWhenMissing))
    ensures 10 * MinutesPerHour + 30 !in FreeSlots(day, 30, now, Busy([a], services, a.barberId, day, DefaultWhenMissing))
  {
    AtSplits(day, 10 * MinutesPerHour);
    SingleAppointmentBusy(a, services, day, DefaultWhenMissing);
    assert Span(a, services) == Interval(At(day, 10 * MinutesPerHour), At(day, 10 * MinutesPerHour) + 45);
    AroundOneBooking(day, now);
  }

  /** The slots around a booking from 10:00 to 10:45, for a 30-minute request. */
  lemma AroundOneBooking(day: int, now: int)
    requires now <= At(day, OpenMinute)
    ensures var busy := [Interval(At(day, 10 * MinutesPerHour), At(day, 10 * MinutesPerHour) + 45)];
      && 9 * MinutesPerHour + 30 in FreeSlots(day, 30, now, busy)
      && 11 * MinutesPerHour in FreeSlots(day, 30, now, busy)
      && 10 * MinutesPerHour !in FreeSlots(day, 30, now, busy)
      && 10 * MinutesPerHour + 30 !in FreeSlots(day, 30, now, busy)
  {
    var booked := Interval(At(day, 10 * MinutesPerHour), At(day, 10 * MinutesPerHour) + 45);
    var busy := [booked];
    assert booked in busy;
    FreeSlotsExactly(day, 30, now, busy, 9 * MinutesPerHour + 30);
    FreeSlotsExactly(day, 30, now, busy, 11 * MinutesPerHour);
    FreeSlotsExactly(day, 30, now, busy, 10 * MinutesPerHour);
    FreeSlotsExactly(day, 30, now, busy, 10 * MinutesPerHour + 30);
  }

  /** A 75-minute service on a free day: the last start offered is 19:30;
      20:00 and 20:30 would run past 21:00. */
  lemma LongServiceExample(day: int, now: int)
    requires now <= At(day, OpenMinute)
    ensures 19 * MinutesPerHour + 30 in FreeSlots(day, 75, now, [])
    ensures 20 * MinutesPerHour !in FreeSlots(day, 75, now, [])
    ensures 20 * MinutesPerHour + 30 !in FreeSlots(day, 75, now, [])
  {
    FreeSlotsExactly(day, 75, now, [], 19 * MinutesPerHour + 30);
    FreeSlotsExactly(day, 75, now, [], 20 * MinutesPerHour);
    FreeSlotsExactly(day, 75, now, [], 20 * MinutesPerHour + 30);
  }

  // ---- The no-double-booking invariant ----

  /** Two appointments compete when they are for the same barber on the same
      date and neither is cancelled. */
  predicate Competing(a: Appointment, b: Appointment)
  {
    a.barberId == b.barberId && DayOf(a.start) == DayOf(b.start) && a.status != Cancelled && b.status != Cancelled
  }

  /** No two competing appointments overlap, durations taken from the
      current catalog. */
  predicate NoDoubleBooking(apps: seq<Appointment>, services: seq<Service>)
  {
    forall i, j :: 0 <= i < j < |apps| && Competing(apps[i], apps[j]) ==>
      !Overlaps(Span(apps[i], services), Span(apps[j], services))
  }

  /** Appending an appointment whose start the calculator offers, for its
      own service's duration, keeps the invariant. */
  lemma BookingKeepsNoDoubleBooking(apps: seq<Appointment>, services: seq<Service>, a: Appointment, now: int)
    requires NoDoubleBooking(apps, services)
    requires FindService(services, a.serviceId).Some?
    requires MinuteOfDay(a.start) in FreeSlots(DayOf(a.start), FindService(services, a.serviceId).value.durationMinutes, now,
                                               Busy(apps, services, a.barberId, DayOf(a.start), DefaultWhenMissing))
    ensures NoDoubleBooking(apps + [a], services)
  {
    var day, m := DayOf(a.start), MinuteOfDay(a.start);
    var duration := FindService(services, a.serviceId).value.durationMinutes;
    var busy := Busy(apps, services, a.barberId, day, DefaultWhenMissing);
    SplitJoins(a.start);
    FreeSlotsExactly(day, duration, now, busy, m);
    assert Span(a, services) == Interval(a.start, a.start + duration);
    var apps' := apps + [a];
    BarberAppointmentsMember(apps, a.barberId, day);
    IntervalsCover(BarberAppointments(apps, a.barberId, day), services, DefaultWhenMissing);
    forall i, j | 0 <= i < j < |apps'| && Competing(apps'[i], apps'[j])
      ensures !Overlaps(Span(apps'[i], services), Span(apps'[j], services))
    {
      if j == |apps| {
        var b := apps[i];
        assert b in BarberAppointments(apps, a.barberId, day);
        assert Span(b, services) in busy;
      }
    }
  }

  /** A status change keeps the invariant when it cancels, or when the
      appointment was not cancelled before. */
  lemma StatusChangeKeepsNoDoubleBooking(apps: seq<Appointment>, services: seq<Service>, i: int, status: Status,
                                         paymentMethod: Option<PaymentMethod>)
    requires 0 <= i < |apps| && NoDoubleBooking(apps, services)
    requires status == Cancelled || apps[i].status != Cancelled
    ensures NoDoubleBooking(apps[i := WithStatus(apps[i], status, paymentMethod)], services)
  {
    var apps' := apps[i := WithStatus(apps[i], status, paymentMethod)];
    forall p, q | 0 <= p < q < |apps'| && Competing(apps'[p], apps'[q])
      ensures !Overlaps(Span(apps'[p], services), Span(apps'[q], services))
    {
      assert Competing(apps[p], apps[q]);
    }
  }

  /** Moving a cancelled appointment back to confirmed (or to completed) is
      not guarded: it can create two overlapping appointments. */
  lemma RevivingCancelledMayDoubleBook(a: Appointment, b: Appointment)
    requires a.barberId == b.barberId && a.start == b.start && a.serviceId == b.serviceId
    requires a.status == Cancelled && b.status == Confirmed
    ensures NoDoubleBooking([a, b], [])
    ensures !NoDoubleBooking([a, b][0 := WithStatus(a, Confirmed, None)], [])
  {
    var apps' := [a, b][0 := WithStatus(a, Confirmed, None)];
    assert Competing(apps'[0], apps'[1]);
  }
}
