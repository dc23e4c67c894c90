/** The records of the planner and the pure updates behind its store
    operations: each JavaScript updater builds a new array or object from the
    old one, and each function here gives that new value. */
module Entities {

  import opened Seqs

  datatype Category = Catering | Venue | Entertainment | Decoration | Photography | Other

  /** `VENDOR_CATEGORIES`, in declaration order. */
  const VendorCategories: seq<Category> := [Catering, Venue, Entertainment, Decoration, Photography, Other]

  /** Position of a category in `VendorCategories`. */
  function CategoryIndex(c: Category): (i: nat)
    ensures i < |VendorCategories| && VendorCategories[i] == c
  {
    match c
    case Catering => 0
    case Venue => 1
    case Entertainment => 2
    case Decoration => 3
    case Photography => 4
    case Other => 5
  }

  /** Ids come from `Date.now()` in the component; here the caller supplies them. */
  datatype Event = Event(id: int, name: string, date: string)

  /** `availability` is the array of date strings the vendor was marked
      available on, duplicates included. */
  datatype Vendor = Vendor(id: int, name: string, category: Category, availability: seq<string>)

  datatype Status = Available | Pending

  /** `getVendorAvailability(vendor, eventDate)`. */
  function StatusOn(v: Vendor, date: string): (s: Status)
    ensures s == Available <==> date in v.availability
    ensures s == Pending <==> date !in v.availability
  {
    if date in v.availability then Available else Pending
  }

  // ---------------------------------------------------------------------
  // Vendor availability.

  /** The vendor with `date` appended to its availability when its id is
      `vendorId`, unchanged otherwise (the callback of `vendors.map`). */
  function MarkIfMatching(v: Vendor, vendorId: int, date: string): Vendor
  {
    if v.id == vendorId then v.(availability := v.availability + [date]) else v
  }

  /** The array `updateVendorAvailability(vendorId, date)` stores. */
  function WithAvailability(vendors: seq<Vendor>, vendorId: int, date: string): (r: seq<Vendor>)
    ensures |r| == |vendors|
    ensures forall i :: 0 <= i < |r| ==>
      r[i].id == vendors[i].id && r[i].name == vendors[i].name && r[i].category == vendors[i].category
    ensures forall i :: 0 <= i < |r| && vendors[i].id != vendorId ==> r[i] == vendors[i]
    ensures forall i :: 0 <= i < |r| && vendors[i].id == vendorId ==>
      r[i].availability == vendors[i].availability + [date]
  {
    if vendors == [] then []
    else [MarkIfMatching(vendors[0], vendorId, date)] + WithAvailability(vendors[1..], vendorId, date)
  }

  /** Marking a date never de-duplicates: each matching vendor holds one more
      copy of the date, and every other date keeps its count. */
  lemma MarkAddsOneOccurrence(vendors: seq<Vendor>, vendorId: int, date: string, i: int, d: string)
    requires 0 <= i < |vendors| && vendors[i].id == vendorId
    ensures Count(WithAvailability(vendors, vendorId, date)[i].availability, d)
            == Count(vendors[i].availability, d) + (if d == date then 1 else 0)
  {
    var before := vendors[i].availability;
    CountAppend(before, [date], d);
    assert [date][1..] == [];
  }

  /** Marking the same date twice leaves two more copies of it. */
  lemma MarkTwiceKeepsBoth(vendors: seq<Vendor>, vendorId: int, date: string, i: int)
    requires 0 <= i < |vendors| && vendors[i].id == vendorId
    ensures var twice := WithAvailability(WithAvailability(vendors, vendorId, date), vendorId, date);
      Count(twice[i].availability, date) == Count(vendors[i].availability, date) + 2
  {
    var once := WithAvailability(vendors, vendorId, date);
    MarkAddsOneOccurrence(vendors, vendorId, date, i, date);
    MarkAddsOneOccurrence(once, vendorId, date, i, date);
  }

  // ---------------------------------------------------------------------
  // Assignments: `eventVendors`, event id -> assigned vendor ids.

  /** `prev[eventId] || []`. */
  function Assigned(eventVendors: map<int, seq<int>>, eventId: int): seq<int>
  {
    if eventId in eventVendors then eventVendors[eventId] else []
  }

  /** The predicate `id => id !== vendorId`. */
  function IsNot(vendorId: int): int -> bool
  {
    id => id != vendorId
  }

  /** The object `addEvent` stores: the new event's list starts empty. */
  function WithNewEvent(eventVendors: map<int, seq<int>>, eventId: int): (r: map<int, seq<int>>)
    ensures r.Keys == eventVendors.Keys + {eventId}
    ensures Assigned(r, eventId) == []
    ensures forall k :: k != eventId ==> Assigned(r, k) == Assigned(eventVendors, k)
  {
    eventVendors[eventId := []]
  }

  /** The object `assignVendorToEvent(eventId, vendorId)` stores. */
  function AssignVendor(eventVendors: map<int, seq<int>>, eventId: int, vendorId: int): (r: map<int, seq<int>>)
    ensures r.Keys == eventVendors.Keys + {eventId}
    ensures r[eventId] == Assigned(eventVendors, eventId) + [vendorId]
    ensures forall k :: k != eventId ==> Assigned(r, k) == Assigned(eventVendors, k)
  {
    eventVendors[eventId := Assigned(eventVendors, eventId) + [vendorId]]
  }

  /** There is no uniqueness check: the vendor's id gains one occurrence in
      the event's list even when it is already there, and no other id changes count. */
  lemma AssignAddsOneOccurrence(eventVendors: map<int, seq<int>>, eventId: int, vendorId: int, id: int)
    ensures Count(AssignVendor(eventVendors, eventId, vendorId)[eventId], id)
            == Count(Assigned(eventVendors, eventId), id) + (if id == vendorId then 1 else 0)
  {
    CountAppend(Assigned(eventVendors, eventId), [vendorId], id);
    assert [vendorId][1..] == [];
  }

  /** Assigning the same vendor twice lists it twice. */
  lemma AssignTwiceListsTwice(eventVendors: map<int, seq<int>>, eventId: int, vendorId: int)
    ensures var twice := AssignVendor(AssignVendor(eventVendors, eventId, vendorId), eventId, vendorId);
      Count(twice[eventId], vendorId) == Count(Assigned(eventVendors, eventId), vendorId) + 2
  {
    var once := AssignVendor(eventVendors, eventId, vendorId);
    AssignAddsOneOccurrence(eventVendors, eventId, vendorId, vendorId);
    AssignAddsOneOccurrence(once, eventId, vendorId, vendorId);
  }

  /** The list `prev[eventId].filter(id => id !== vendorId)`. */
  function Without(ids: seq<int>, vendorId: int): (r: seq<int>)
    ensures vendorId !in r
    ensures forall id :: id in r <==> id in ids && id != vendorId
  {
    FilterMembers(ids, IsNot(vendorId));
    Filter(ids, IsNot(vendorId))
  }

  /** Removal deletes every occurrence and keeps the other ids, each as often
      as before and in the same relative order. */
  lemma WithoutKeepsOthers(ids: seq<int>, vendorId: int, id: int)
    ensures IsSubsequence(Without(ids, vendorId), ids)
    ensures Count(Without(ids, vendorId), id) == if id == vendorId then 0 else Count(ids, id)
  {
    FilterIsSubsequence(ids, IsNot(vendorId));
    CountFilter(ids, IsNot(vendorId), id);
  }

  /** The object `removeVendorFromEvent(eventId, vendorId)` stores, or `None`
      when the event has no list: `prev[eventId].filter` then throws a
      `TypeError` and rendering throws. */
  function UnassignVendor(eventVendors: map<int, seq<int>>, eventId: int, vendorId: int): (r: Option<map<int, seq<int>>>)
    ensures r.None? <==> eventId !in eventVendors
    ensures r.Some? ==> r.value.Keys == eventVendors.Keys
    ensures r.Some? ==> r.value[eventId] == Without(eventVendors[eventId], vendorId)
    ensures r.Some? ==> forall k :: k != eventId ==> Assigned(r.value, k) == Assigned(eventVendors, k)
  {
    if eventId !in eventVendors then None
    else Some(eventVendors[eventId := Without(eventVendors[eventId], vendorId)])
  }

  /** Removing right after assigning leaves the list as removing alone would;
      in particular it restores the list when the vendor was not assigned before. */
  lemma UnassignAfterAssign(eventVendors: map<int, seq<int>>, eventId: int, vendorId: int)
    ensures var after := UnassignVendor(AssignVendor(eventVendors, eventId, vendorId), eventId, vendorId);
      after.Some? && after.value[eventId] == Without(Assigned(eventVendors, eventId), vendorId)
    ensures vendorId !in Assigned(eventVendors, eventId) ==>
      UnassignVendor(AssignVendor(eventVendors, eventId, vendorId), eventId, vendorId).value[eventId]
        == Assigned(eventVendors, eventId)
  {
    var ids := Assigned(eventVendors, eventId);
    FilterSnoc(ids, vendorId, IsNot(vendorId));
    if vendorId !in ids {
      FilterAll(ids, IsNot(vendorId));
    }
  }
}
