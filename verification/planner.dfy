/** The component state of `EventPlannerPro` and its store operations. Each
    `useState` field is a field of the class; each setter call replaces the
    field with the value the corresponding function of `Entities` or `Dates`
    computes. The modal flags and the selected vendor belong to the UI and are
    not part of this model. */
module Planner {

  import opened Dates
  import opened Entities

  class EventPlannerPro {
    var events: seq<Event>
    var vendors: seq<Vendor>
    var eventVendors: map<int, seq<int>>
    var currentMonth: YearMonth

    /** The displayed month is a real month, and every event has an
        assignment list (added with the event, never removed). */
    ghost predicate Valid()
      reads this
    {
      currentMonth.Valid() &&
      forall i :: 0 <= i < |events| ==> events[i].id in eventVendors
    }

    /** The initial state; `today` is the month of `new Date()`. */
    constructor (today: YearMonth)
      requires today.Valid()
      ensures Valid()
      ensures events == [] && vendors == [] && eventVendors == map[] && currentMonth == today
    {
      events := [];
      vendors := [];
      eventVendors := map[];
      currentMonth := today;
    }

    /** `addEvent`: the event gets the supplied id and an empty list of vendors. */
    method AddEvent(id: int, name: string, date: string)
      requires Valid()
      modifies this
      ensures Valid()
      ensures events == old(events) + [Event(id, name, date)]
      ensures eventVendors == WithNewEvent(old(eventVendors), id)
      ensures vendors == old(vendors) && currentMonth == old(currentMonth)
    {
      events := events + [Event(id, name, date)];
      eventVendors := WithNewEvent(eventVendors, id);
    }

    /** `addVendor`: the vendor gets the supplied id and no available dates. */
    method AddVendor(id: int, name: string, category: Category)
      requires Valid()
      modifies this
      ensures Valid()
      ensures vendors == old(vendors) + [Vendor(id, name, category, [])]
      ensures events == old(events) && eventVendors == old(eventVendors) && currentMonth == old(currentMonth)
    {
      vendors := vendors + [Vendor(id, name, category, [])];
    }

    /** `updateVendorAvailability`. */
    method UpdateVendorAvailability(vendorId: int, date: string)
      requires Valid()
      modifies this
      ensures Valid()
      ensures vendors == WithAvailability(old(vendors), vendorId, date)
      ensures events == old(events) && eventVendors == old(eventVendors) && currentMonth == old(currentMonth)
    {
      vendors := WithAvailability(vendors, vendorId, date);
    }

    /** `assignVendorToEvent`. */
    method AssignVendorToEvent(eventId: int, vendorId: int)
      requires Valid()
      modifies this
      ensures Valid()
      ensures eventVendors == AssignVendor(old(eventVendors), eventId, vendorId)
      ensures events == old(events) && vendors == old(vendors) && currentMonth == old(currentMonth)
    {
      eventVendors := AssignVendor(eventVendors, eventId, vendorId);
    }

    /** `removeVendorFromEvent`; `ok` is false when the updater would throw
        because the event has no list, and then nothing changes. For an event
        of the list, the only place the UI calls it from, it always succeeds. */
    method RemoveVendorFromEvent(eventId: int, vendorId: int) returns (ok: bool)
      requires Valid()
      modifies this
      ensures Valid()
      ensures ok <==> eventId in old(eventVendors)
      ensures (exists i :: 0 <= i < |events| && events[i].id == eventId) ==> ok
      ensures ok ==> eventVendors == UnassignVendor(old(eventVendors), eventId, vendorId).value
      ensures !ok ==> eventVendors == old(eventVendors)
      ensures events == old(events) && vendors == old(vendors) && currentMonth == old(currentMonth)
    {
      var r := UnassignVendor(eventVendors, eventId, vendorId);
      ok := r.Some?;
      if ok {
        eventVendors := r.value;
      }
    }

    /** The "<" button of the calendar header: `new Date(year, month - 1)`,
        with the `Date` constructor's reading of years 0..99. */
    method ShowPreviousMonth()
      requires Valid()
      modifies this
      ensures Valid()
      ensures currentMonth == PrevMonthAsWritten(old(currentMonth))
      ensures events == old(events) && vendors == old(vendors) && eventVendors == old(eventVendors)
    {
      currentMonth := PrevMonthAsWritten(currentMonth);
    }

    /** The ">" button of the calendar header: `new Date(year, month + 1)`,
        with the `Date` constructor's reading of years 0..99. */
    method ShowNextMonth()
      requires Valid()
      modifies this
      ensures Valid()
      ensures currentMonth == NextMonthAsWritten(old(currentMonth))
      ensures events == old(events) && vendors == old(vendors) && eventVendors == old(eventVendors)
    {
      currentMonth := NextMonthAsWritten(currentMonth);
    }
  }
}
