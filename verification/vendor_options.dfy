/** The assignment side of the event list: the options of the "Assign vendor"
    drop-down (`renderVendorOptions`) and the rows of vendors already assigned
    to an event. */
module VendorOptions {

  import opened Seqs
  import opened Entities

  /** A vendor of the drop-down with the status `getVendorAvailability` gives it. */
  datatype VendorOption = VendorOption(vendor: Vendor, status: Status)

  /** An `<optgroup>`: a category and its options. */
  datatype OptGroup = OptGroup(category: Category, options: seq<VendorOption>)

  // ---------------------------------------------------------------------
  // The stable sort by status.

  /** The comparator's `order` object: Available sorts before Pending. */
  function Rank(s: Status): nat
  {
    match s
    case Available => 0
    case Pending => 1
  }

  /** The predicate `o => o.status === s`. */
  function HasStatus(s: Status): VendorOption -> bool
  {
    (o: VendorOption) => o.status == s
  }

  /** Options never descend in rank. */
  predicate SortedByStatus(os: seq<VendorOption>)
  {
    forall i, j :: 0 <= i < j < |os| ==> Rank(os[i].status) <= Rank(os[j].status)
  }

  /** `.sort((a, b) => order[a.status] - order[b.status])` with JavaScript's
      stable sort: the Available options, then the Pending ones, each in their
      original order. */
  function SortByStatus(os: seq<VendorOption>): (r: seq<VendorOption>)
    ensures |r| == |os|
  {
    assert forall o :: HasStatus(Pending)(o) == !HasStatus(Available)(o);
    FilterSplitMultiset(os, HasStatus(Available), HasStatus(Pending));
    assert |multiset(Filter(os, HasStatus(Available)) + Filter(os, HasStatus(Pending)))| == |multiset(os)|;
    Filter(os, HasStatus(Available)) + Filter(os, HasStatus(Pending))
  }

  /** The sort's result is ordered by status, is a permutation of its input,
      and keeps the original order among options of equal status. */
  lemma SortByStatusSpec(os: seq<VendorOption>)
    ensures SortedByStatus(SortByStatus(os))
    ensures multiset(SortByStatus(os)) == multiset(os)
    ensures forall s :: Filter(SortByStatus(os), HasStatus(s)) == Filter(os, HasStatus(s))
  {
    var av, pe := Filter(os, HasStatus(Available)), Filter(os, HasStatus(Pending));
    var r := av + pe;
    StatusSplit(os);
    assert forall o :: HasStatus(Pending)(o) == !HasStatus(Available)(o);
    FilterSplitMultiset(os, HasStatus(Available), HasStatus(Pending));
    forall s ensures Filter(r, HasStatus(s)) == Filter(os, HasStatus(s)) {
      FilterAppend(av, pe, HasStatus(s));
      forall i | 0 <= i < |av| ensures HasStatus(s)(av[i]) == (s == Available) {
        assert av[i].status == Available;
      }
      forall i | 0 <= i < |pe| ensures HasStatus(s)(pe[i]) == (s == Pending) {
        assert pe[i].status == Pending;
      }
      if s == Available {
        FilterAll(av, HasStatus(s));
        FilterNone(pe, HasStatus(s));
      } else {
        FilterNone(av, HasStatus(s));
        FilterAll(pe, HasStatus(s));
      }
    }
  }

  /** An independent reference: insertion sort that places each option after
      every option whose rank is not greater, as a stable sort must. */
  function InsertByStatus(sorted: seq<VendorOption>, o: VendorOption): seq<VendorOption>
  {
    if sorted == [] || Rank(sorted[|sorted| - 1].status) <= Rank(o.status) then sorted + [o]
    else InsertByStatus(sorted[..|sorted| - 1], o) + [sorted[|sorted| - 1]]
  }

  function InsertionSortByStatus(os: seq<VendorOption>): seq<VendorOption>
  {
    if os == [] then [] else InsertByStatus(InsertionSortByStatus(os[..|os| - 1]), os[|os| - 1])
  }

  /** Inserting an Available option into "Available options, then Pending
      options" puts it right after the Available ones. */
  lemma {:induction false} InsertAvailable(av: seq<VendorOption>, pe: seq<VendorOption>, o: VendorOption)
    requires forall i :: 0 <= i < |av| ==> av[i].status == Available
    requires forall i :: 0 <= i < |pe| ==> pe[i].status == Pending
    requires o.status == Available
    ensures InsertByStatus(av + pe, o) == av + [o] + pe
  {
    if pe == [] {
      assert av + pe == av;
    } else {
      var last := pe[|pe| - 1];
      var front := pe[..|pe| - 1];
      assert av + pe == (av + front) + [last];
      assert (av + pe)[..|av + pe| - 1] == av + front;
      InsertAvailable(av, front, o);
      assert av + [o] + pe == (av + [o] + front) + [last];
    }
  }

  /** A Pending option goes to the end. */
  lemma InsertPending(sorted: seq<VendorOption>, o: VendorOption)
    requires o.status == Pending
    ensures InsertByStatus(sorted, o) == sorted + [o]
  {
  }

  /** The comparator sort and the reference insertion sort agree on every input. */
  lemma {:induction false} InsertionSortAgrees(os: seq<VendorOption>)
    ensures InsertionSortByStatus(os) == SortByStatus(os)
  {
    if os != [] {
      var front, o := os[..|os| - 1], os[|os| - 1];
      assert os == front + [o];
      InsertionSortAgrees(front);
      var av, pe := Filter(front, HasStatus(Available)), Filter(front, HasStatus(Pending));
      assert InsertionSortByStatus(os) == InsertByStatus(av + pe, o);
      SortByStatusSnoc(front, o);
      StatusSplit(front);
      if o.status == Available {
        InsertAvailable(av, pe, o);
      } else {
        InsertPending(av + pe, o);
      }
    }
  }

  /** The Available part holds only Available options, the Pending part only Pending ones. */
  lemma StatusSplit(os: seq<VendorOption>)
    ensures forall i :: 0 <= i < |Filter(os, HasStatus(Available))| ==>
      Filter(os, HasStatus(Available))[i].status == Available
    ensures forall i :: 0 <= i < |Filter(os, HasStatus(Pending))| ==>
      Filter(os, HasStatus(Pending))[i].status == Pending
  {
    var av, pe := Filter(os, HasStatus(Available)), Filter(os, HasStatus(Pending));
    FilterMembers(os, HasStatus(Available));
    FilterMembers(os, HasStatus(Pending));
    forall i | 0 <= i < |av| ensures av[i].status == Available {
      assert av[i] in av;
      assert HasStatus(Available)(av[i]);
    }
    forall i | 0 <= i < |pe| ensures pe[i].status == Pending {
      assert pe[i] in pe;
      assert HasStatus(Pending)(pe[i]);
    }
  }

  /** Sorting one more option puts it after the options of its own status. */
  lemma SortByStatusSnoc(front: seq<VendorOption>, o: VendorOption)
    ensures var av, pe := Filter(front, HasStatus(Available)), Filter(front, HasStatus(Pending));
      o.status == Available ==> SortByStatus(front + [o]) == av + [o] + pe
    ensures var av, pe := Filter(front, HasStatus(Available)), Filter(front, HasStatus(Pending));
      o.status == Pending ==> SortByStatus(front + [o]) == av + pe + [o]
  {
    var av, pe := Filter(front, HasStatus(Available)), Filter(front, HasStatus(Pending));
    var av', pe' := Filter(front + [o], HasStatus(Available)), Filter(front + [o], HasStatus(Pending));
    FilterSnoc(front, o, HasStatus(Available));
    FilterSnoc(front, o, HasStatus(Pending));
    if o.status == Available {
      assert HasStatus(Available)(o) && !HasStatus(Pending)(o);
      assert av' == av + [o];
      assert pe' == pe;
    } else {
      assert !HasStatus(Available)(o) && HasStatus(Pending)(o);
      assert av' == av;
      assert pe' == pe + [o];
      assert av' + pe' == av + pe + [o];
    }
  }

  // ---------------------------------------------------------------------
  // The options of one category.

  /** The predicate `v => v.category === category && !eventVendors[eventId]?.includes(v.id)`;
      an event without a list excludes nobody. */
  function Eligible(eventVendors: map<int, seq<int>>, eventId: int, category: Category): Vendor -> bool
  {
    (v: Vendor) => v.category == category && v.id !in Assigned(eventVendors, eventId)
  }

  /** `.map(vendor => ({ ...vendor, status: getVendorAvailability(vendor, eventDate) }))`. */
  function Tag(vs: seq<Vendor>, eventDate: string): (r: seq<VendorOption>)
    ensures |r| == |vs|
    ensures forall i :: 0 <= i < |r| ==> r[i].vendor == vs[i] && r[i].status == StatusOn(vs[i], eventDate)
  {
    seq(|vs|, i requires 0 <= i < |vs| => VendorOption(vs[i], StatusOn(vs[i], eventDate)))
  }

  /** `categoryVendors` for `category`. */
  function CategoryOptions(vendors: seq<Vendor>, eventVendors: map<int, seq<int>>, eventId: int,
                           eventDate: string, category: Category): (r: seq<VendorOption>)
    ensures |r| == |Filter(vendors, Eligible(eventVendors, eventId, category))|
  {
    SortByStatus(Tag(Filter(vendors, Eligible(eventVendors, eventId, category)), eventDate))
  }

  /** The options of a category are exactly its vendors not assigned to the
      event, each tagged with its status on the event's date, Available first,
      and one option per such vendor. */
  lemma CategoryOptionsSpec(vendors: seq<Vendor>, eventVendors: map<int, seq<int>>, eventId: int,
                            eventDate: string, category: Category)
    ensures var r := CategoryOptions(vendors, eventVendors, eventId, eventDate, category);
      (forall o :: o in r <==>
         o.vendor in vendors && o.vendor.category == category &&
         o.vendor.id !in Assigned(eventVendors, eventId) && o.status == StatusOn(o.vendor, eventDate)) &&
      SortedByStatus(r) &&
      |r| == |Filter(vendors, Eligible(eventVendors, eventId, category))|
  {
    var p := Eligible(eventVendors, eventId, category);
    var eligible := Filter(vendors, p);
    var tagged := Tag(eligible, eventDate);
    SortByStatusSpec(tagged);
    SortKeepsMembers(tagged);
    TagMembers(eligible, eventDate);
    FilterMembers(vendors, p);
  }

  /** Sorting keeps the options and their number. */
  lemma SortKeepsMembers(os: seq<VendorOption>)
    ensures |SortByStatus(os)| == |os|
    ensures forall o :: o in SortByStatus(os) <==> o in os
  {
    var r := SortByStatus(os);
    SortByStatusSpec(os);
    assert |multiset(r)| == |r| && |multiset(os)| == |os|;
    forall o ensures o in r <==> o in os {
      assert o in r <==> o in multiset(r);
      assert o in os <==> o in multiset(os);
    }
  }

  /** The tagged options are the vendors, each with its status. */
  lemma TagMembers(vs: seq<Vendor>, eventDate: string)
    ensures forall o :: o in Tag(vs, eventDate) <==> o.vendor in vs && o.status == StatusOn(o.vendor, eventDate)
  {
    var tagged := Tag(vs, eventDate);
    forall o ensures o in tagged <==> o.vendor in vs && o.status == StatusOn(o.vendor, eventDate) {
      if o.vendor in vs && o.status == StatusOn(o.vendor, eventDate) {
        var i :| 0 <= i < |vs| && vs[i] == o.vendor;
        assert tagged[i] == o;
      }
    }
  }

  /** Within each status the options follow the order of `vendors`. */
  lemma CategoryOptionsStable(vendors: seq<Vendor>, eventVendors: map<int, seq<int>>, eventId: int,
                              eventDate: string, category: Category, s: Status)
    ensures var eligible := Filter(vendors, Eligible(eventVendors, eventId, category));
      Filter(CategoryOptions(vendors, eventVendors, eventId, eventDate, category), HasStatus(s))
        == Filter(Tag(eligible, eventDate), HasStatus(s)) &&
      IsSubsequence(eligible, vendors)
  {
    var eligible := Filter(vendors, Eligible(eventVendors, eventId, category));
    SortByStatusSpec(Tag(eligible, eventDate));
    FilterIsSubsequence(vendors, Eligible(eventVendors, eventId, category));
  }

  // ---------------------------------------------------------------------
  // The groups of the drop-down.

  /** `categories.map(...)` with the `null` of an empty category left out:
      one group per category whose options `optionsOf` gives are not empty,
      in the order of `categories`. */
  function GroupsFor(categories: seq<Category>, optionsOf: Category -> seq<VendorOption>): (r: seq<OptGroup>)
    ensures |r| <= |categories|
    ensures forall i :: 0 <= i < |r| ==> r[i].options != [] && r[i].options == optionsOf(r[i].category)
  {
    if categories == [] then []
    else
      var c := categories[0];
      var rest := GroupsFor(categories[1..], optionsOf);
      if optionsOf(c) == [] then rest
      else
        var r := [OptGroup(c, optionsOf(c))] + rest;
        assert forall i :: 0 <= i < |rest| ==> r[i + 1] == rest[i];
        r
  }

  /** Every category of the list that has options gets a group. */
  lemma {:induction false} GroupsForComplete(categories: seq<Category>, optionsOf: Category -> seq<VendorOption>, c: Category)
    requires c in categories && optionsOf(c) != []
    ensures HasGroup(GroupsFor(categories, optionsOf), c)
  {
    var c0 := categories[0];
    var rest := GroupsFor(categories[1..], optionsOf);
    if c == c0 {
      var r := GroupsFor(categories, optionsOf);
      assert r[0].category == c;
    } else {
      assert c in categories[1..];
      GroupsForComplete(categories[1..], optionsOf, c);
      var i :| 0 <= i < |rest| && rest[i].category == c;
      if optionsOf(c0) != [] {
        var r := [OptGroup(c0, optionsOf(c0))] + rest;
        assert r[i + 1] == rest[i];
      }
    }
  }

  /** Some group of `gs` is for category `c`. */
  predicate HasGroup(gs: seq<OptGroup>, c: Category)
  {
    exists i :: 0 <= i < |gs| && gs[i].category == c
  }

  /** The categories of a list of groups. */
  function Categories(gs: seq<OptGroup>): (cs: seq<Category>)
    ensures |cs| == |gs|
  {
    if gs == [] then [] else [gs[0].category] + Categories(gs[1..])
  }

  lemma {:induction false} CategoriesAt(gs: seq<OptGroup>, i: int)
    requires 0 <= i < |gs|
    ensures Categories(gs)[i] == gs[i].category
  {
    if i > 0 {
      CategoriesAt(gs[1..], i - 1);
    }
  }

  /** Groups come in the order of the category list: their categories form a
      subsequence of it. */
  lemma {:induction false} GroupsInCategoryOrder(categories: seq<Category>, optionsOf: Category -> seq<VendorOption>)
    ensures IsSubsequence(Categories(GroupsFor(categories, optionsOf)), categories)
  {
    if categories != [] {
      var c := categories[0];
      var rest := GroupsFor(categories[1..], optionsOf);
      GroupsInCategoryOrder(categories[1..], optionsOf);
      if optionsOf(c) == [] {
        assert GroupsFor(categories, optionsOf) == rest;
        SubsequenceOfTail(Categories(rest), categories);
      } else {
        var r := [OptGroup(c, optionsOf(c))] + rest;
        assert GroupsFor(categories, optionsOf) == r;
        assert r[1..] == rest;
        assert Categories(r) == [c] + Categories(rest);
        assert (Categories(r))[1..] == Categories(rest);
      }
    }
  }

  /** The options of each category for an event, as `renderVendorOptions` builds them. */
  function OptionsOf(vendors: seq<Vendor>, eventVendors: map<int, seq<int>>, eventId: int,
                     eventDate: string): Category -> seq<VendorOption>
  {
    c => CategoryOptions(vendors, eventVendors, eventId, eventDate, c)
  }

  /** `renderVendorOptions(eventId, eventDate)`. */
  function RenderVendorOptions(vendors: seq<Vendor>, eventVendors: map<int, seq<int>>,
                               eventId: int, eventDate: string): (r: seq<OptGroup>)
    ensures |r| <= |VendorCategories|
    ensures forall i :: 0 <= i < |r| ==>
      r[i].options != [] && r[i].options == CategoryOptions(vendors, eventVendors, eventId, eventDate, r[i].category)
  {
    assert forall c :: OptionsOf(vendors, eventVendors, eventId, eventDate)(c)
                    == CategoryOptions(vendors, eventVendors, eventId, eventDate, c);
    GroupsFor(VendorCategories, OptionsOf(vendors, eventVendors, eventId, eventDate))
  }

  /** The drop-down lists the categories of `VENDOR_CATEGORIES` in that
      order, each at most once. */
  lemma RenderInCategoryOrder(vendors: seq<Vendor>, eventVendors: map<int, seq<int>>, eventId: int, eventDate: string)
    ensures var r := RenderVendorOptions(vendors, eventVendors, eventId, eventDate);
      forall i, j :: 0 <= i < j < |r| ==> CategoryIndex(r[i].category) < CategoryIndex(r[j].category)
  {
    var r := RenderVendorOptions(vendors, eventVendors, eventId, eventDate);
    GroupsInCategoryOrder(VendorCategories, OptionsOf(vendors, eventVendors, eventId, eventDate));
    SubsequenceIndices(Categories(r), VendorCategories);
    forall i, j | 0 <= i < j < |r| ensures CategoryIndex(r[i].category) < CategoryIndex(r[j].category) {
      CategoriesAt(r, i);
      CategoriesAt(r, j);
    }
  }

  /** Some vendor of category `c` is not assigned to the event. */
  predicate HasCandidate(vendors: seq<Vendor>, eventVendors: map<int, seq<int>>, eventId: int, c: Category)
  {
    exists k :: 0 <= k < |vendors| && vendors[k].category == c && vendors[k].id !in Assigned(eventVendors, eventId)
  }

  /** A category has a group exactly when one of its vendors is not assigned
      to the event: empty categories are left out, and no other. */
  lemma RenderGroupWhenCandidate(vendors: seq<Vendor>, eventVendors: map<int, seq<int>>, eventId: int,
                                 eventDate: string, c: Category)
    ensures HasGroup(RenderVendorOptions(vendors, eventVendors, eventId, eventDate), c)
        <==> HasCandidate(vendors, eventVendors, eventId, c)
  {
    var r := RenderVendorOptions(vendors, eventVendors, eventId, eventDate);
    var options := CategoryOptions(vendors, eventVendors, eventId, eventDate, c);
    assert OptionsOf(vendors, eventVendors, eventId, eventDate)(c) == options;
    assert options != [] <==> HasCandidate(vendors, eventVendors, eventId, c) by {
      CandidateHasOptions(vendors, eventVendors, eventId, eventDate, c);
    }
    if HasGroup(r, c) {
      var i :| 0 <= i < |r| && r[i].category == c;
      assert r[i].options == options;
    }
    if options != [] {
      assert c in VendorCategories by {
        assert c == VendorCategories[CategoryIndex(c)];
      }
      GroupsForComplete(VendorCategories, OptionsOf(vendors, eventVendors, eventId, eventDate), c);
    }
  }

  /** A category has options exactly when one of its vendors is not assigned. */
  lemma CandidateHasOptions(vendors: seq<Vendor>, eventVendors: map<int, seq<int>>, eventId: int,
                            eventDate: string, c: Category)
    ensures CategoryOptions(vendors, eventVendors, eventId, eventDate, c) != []
        <==> HasCandidate(vendors, eventVendors, eventId, c)
  {
    var p := Eligible(eventVendors, eventId, c);
    var eligible := Filter(vendors, p);
    FilterMembers(vendors, p);
    if HasCandidate(vendors, eventVendors, eventId, c) {
      var k :| 0 <= k < |vendors| && vendors[k].category == c && vendors[k].id !in Assigned(eventVendors, eventId);
      assert p(vendors[k]);
      assert vendors[k] in eligible;
    }
    if eligible != [] {
      var v := eligible[0];
      assert v in eligible && p(v);
      var k :| 0 <= k < |vendors| && vendors[k] == v;
    }
  }

  /** Every option offered is a vendor of its group's category that is not
      assigned to the event, tagged with its status on the event's date. */
  lemma RenderOffersOnlyCandidates(vendors: seq<Vendor>, eventVendors: map<int, seq<int>>, eventId: int,
                                   eventDate: string, i: int, o: VendorOption)
    requires var r := RenderVendorOptions(vendors, eventVendors, eventId, eventDate);
      0 <= i < |r| && o in r[i].options
    ensures var g := RenderVendorOptions(vendors, eventVendors, eventId, eventDate)[i];
      o.vendor in vendors && o.vendor.category == g.category &&
      o.vendor.id !in Assigned(eventVendors, eventId) && o.status == StatusOn(o.vendor, eventDate)
  {
    var g := RenderVendorOptions(vendors, eventVendors, eventId, eventDate)[i];
    assert g.options == CategoryOptions(vendors, eventVendors, eventId, eventDate, g.category);
    CategoryOptionsSpec(vendors, eventVendors, eventId, eventDate, g.category);
  }

  /** Positions of a subsequence of the (duplicate-free) category list grow
      with their positions in it. */
  lemma {:induction false} SubsequenceIndices(cs: seq<Category>, all: seq<Category>)
    requires all == VendorCategories && IsSubsequence(cs, all)
    ensures forall i, j :: 0 <= i < j < |cs| ==> CategoryIndex(cs[i]) < CategoryIndex(cs[j])
  {
    SubsequenceIncreasing(cs, all, 0);
  }

  /** `cs`, a subsequence of `VendorCategories[from..]`, visits categories in
      increasing position, all at least `from`. */
  lemma {:induction false} SubsequenceIncreasing(cs: seq<Category>, rest: seq<Category>, from: nat)
    requires from <= |VendorCategories| && rest == VendorCategories[from..] && IsSubsequence(cs, rest)
    ensures forall i :: 0 <= i < |cs| ==> from <= CategoryIndex(cs[i])
    ensures forall i, j :: 0 <= i < j < |cs| ==> CategoryIndex(cs[i]) < CategoryIndex(cs[j])
    decreases |rest|
  {
    if cs != [] {
      assert rest != [];
      assert rest[0] == VendorCategories[from];
      assert rest[1..] == VendorCategories[from + 1..];
      if cs[0] == rest[0] {
        SubsequenceIncreasing(cs[1..], rest[1..], from + 1);
        assert CategoryIndex(cs[0]) == from;
        forall i | 0 < i < |cs| ensures from < CategoryIndex(cs[i]) {
          assert cs[i] == cs[1..][i - 1];
        }
        forall i, j | 0 <= i < j < |cs| ensures CategoryIndex(cs[i]) < CategoryIndex(cs[j]) {
          if i > 0 {
            assert cs[i] == cs[1..][i - 1] && cs[j] == cs[1..][j - 1];
          }
        }
      } else {
        SubsequenceIncreasing(cs, rest[1..], from + 1);
        assert CategoryIndex(cs[0]) != from;
      }
    }
  }

  // ---------------------------------------------------------------------
  // How the store operations change the drop-down.

  /** Once assigned, a vendor is no longer offered for that event. */
  lemma AssignedNotOffered(vendors: seq<Vendor>, eventVendors: map<int, seq<int>>,
                           eventId: int, eventDate: string, vendorId: int)
    ensures var r := RenderVendorOptions(vendors, AssignVendor(eventVendors, eventId, vendorId), eventId, eventDate);
      forall i, o :: 0 <= i < |r| && o in r[i].options ==> o.vendor.id != vendorId
  {
    var after := AssignVendor(eventVendors, eventId, vendorId);
    var r := RenderVendorOptions(vendors, after, eventId, eventDate);
    forall i, o | 0 <= i < |r| && o in r[i].options ensures o.vendor.id != vendorId {
      RenderOffersOnlyCandidates(vendors, after, eventId, eventDate, i, o);
      assert vendorId in Assigned(after, eventId);
    }
  }

  /** After its removal from the event a vendor is offered again, in the group
      of its category. */
  lemma RemovedOfferedAgain(vendors: seq<Vendor>, eventVendors: map<int, seq<int>>,
                            eventId: int, eventDate: string, v: Vendor)
    requires eventId in eventVendors && v in vendors
    ensures var after := UnassignVendor(eventVendors, eventId, v.id).value;
      VendorOption(v, StatusOn(v, eventDate)) in CategoryOptions(vendors, after, eventId, eventDate, v.category)
  {
    var after := UnassignVendor(eventVendors, eventId, v.id).value;
    CategoryOptionsSpec(vendors, after, eventId, eventDate, v.category);
    assert v.id !in Assigned(after, eventId);
  }

  /** Marking a vendor available on the event's date turns its option Available. */
  lemma MarkedAvailableOffersAvailable(vendors: seq<Vendor>, eventVendors: map<int, seq<int>>,
                                       eventId: int, eventDate: string, i: int)
    requires 0 <= i < |vendors| && vendors[i].id !in Assigned(eventVendors, eventId)
    ensures var marked := WithAvailability(vendors, vendors[i].id, eventDate);
      VendorOption(marked[i], Available) in CategoryOptions(marked, eventVendors, eventId, eventDate, vendors[i].category)
  {
    var marked := WithAvailability(vendors, vendors[i].id, eventDate);
    CategoryOptionsSpec(marked, eventVendors, eventId, eventDate, vendors[i].category);
    assert eventDate in marked[i].availability by {
      assert marked[i].availability[|marked[i].availability| - 1] == eventDate;
    }
    assert marked[i] in marked;
  }

  // ---------------------------------------------------------------------
  // The vendors assigned to an event.

  /** Position `i` holds the first vendor whose id is `vendorId`. */
  predicate FirstWithId(vendors: seq<Vendor>, vendorId: int, i: int)
  {
    0 <= i < |vendors| && vendors[i].id == vendorId && forall j :: 0 <= j < i ==> vendors[j].id != vendorId
  }

  /** `vendors.find(v => v.id === vendorId)`: the first vendor with that id. */
  function FindVendor(vendors: seq<Vendor>, vendorId: int): (r: Option<Vendor>)
    ensures r.None? <==> forall i :: 0 <= i < |vendors| ==> vendors[i].id != vendorId
    ensures r.Some? ==> r.value.id == vendorId
    ensures r.Some? ==> exists i :: FirstWithId(vendors, vendorId, i) && vendors[i] == r.value
  {
    if vendors == [] then None
    else if vendors[0].id == vendorId then Some(vendors[0])
    else
      var r := FindVendor(vendors[1..], vendorId);
      if r.Some? then
        var i :| FirstWithId(vendors[1..], vendorId, i) && vendors[1..][i] == r.value;
        assert vendors[i + 1] == r.value;
        assert forall j :: 1 <= j < i + 1 ==> vendors[j] == vendors[1..][j - 1];
        assert FirstWithId(vendors, vendorId, i + 1);
        r
      else
        assert forall i :: 1 <= i < |vendors| ==> vendors[i] == vendors[1..][i - 1];
        r
  }

  /** A row under an event: the vendor and its status on the event's date. */
  datatype AssignedRow = AssignedRow(vendor: Vendor, status: Status)

  /** `eventVendors[eventId]?.map(...)` over the list `ids`: one row per id
      that some vendor has, in list order; ids with no vendor render nothing.
      Each row shows the vendor `find` returns for its id, the first one. */
  function AssignedRows(vendors: seq<Vendor>, ids: seq<int>, eventDate: string): (r: seq<AssignedRow>)
    ensures |r| <= |ids|
    ensures forall row :: row in r ==>
      row.vendor in vendors && row.vendor.id in ids && row.status == StatusOn(row.vendor, eventDate)
    ensures forall k :: 0 <= k < |r| ==> FindVendor(vendors, r[k].vendor.id) == Some(r[k].vendor)
  {
    if ids == [] then []
    else
      var rest := AssignedRows(vendors, ids[1..], eventDate);
      match FindVendor(vendors, ids[0])
      case None => rest
      case Some(v) => [AssignedRow(v, StatusOn(v, eventDate))] + rest
  }

  /** The predicate "some vendor has this id". */
  function Resolves(vendors: seq<Vendor>): int -> bool
  {
    id => FindVendor(vendors, id).Some?
  }

  /** The vendor ids of the rows, in order. */
  function RowIds(rows: seq<AssignedRow>): (ids: seq<int>)
    ensures |ids| == |rows|
  {
    if rows == [] then [] else [rows[0].vendor.id] + RowIds(rows[1..])
  }

  /** The rows list the ids of the event that resolve to a vendor, in list
      order and with repetitions: dangling ids are skipped, nothing else is. */
  lemma {:induction false} AssignedRowIds(vendors: seq<Vendor>, ids: seq<int>, eventDate: string)
    ensures RowIds(AssignedRows(vendors, ids, eventDate)) == Filter(ids, Resolves(vendors))
  {
    if ids != [] {
      var id := ids[0];
      var rest := AssignedRows(vendors, ids[1..], eventDate);
      AssignedRowIds(vendors, ids[1..], eventDate);
      assert Filter(ids, Resolves(vendors))
          == (if Resolves(vendors)(id) then [id] else []) + Filter(ids[1..], Resolves(vendors));
      match FindVendor(vendors, id)
      case None =>
        assert !Resolves(vendors)(id);
      case Some(v) =>
        assert Resolves(vendors)(id);
        var rows := [AssignedRow(v, StatusOn(v, eventDate))] + rest;
        assert AssignedRows(vendors, ids, eventDate) == rows;
        assert rows[1..] == rest;
        assert RowIds(rows) == [id] + RowIds(rest);
    }
  }

  /** The rows shown under event `eventId`: one per assigned id that
      resolves, showing the first vendor with that id and its status on the
      event's date. */
  function EventRows(vendors: seq<Vendor>, eventVendors: map<int, seq<int>>, eventId: int, eventDate: string): (r: seq<AssignedRow>)
    ensures RowIds(r) == Filter(Assigned(eventVendors, eventId), Resolves(vendors))
    ensures forall k :: 0 <= k < |r| ==>
      FindVendor(vendors, r[k].vendor.id) == Some(r[k].vendor) && r[k].status == StatusOn(r[k].vendor, eventDate)
  {
    AssignedRowIds(vendors, Assigned(eventVendors, eventId), eventDate);
    AssignedRows(vendors, Assigned(eventVendors, eventId), eventDate)
  }

  /** After "Remove" the vendor has no row under the event any more, and every
      other row stays, in order. */
  lemma RemoveDropsRows(vendors: seq<Vendor>, eventVendors: map<int, seq<int>>,
                        eventId: int, eventDate: string, vendorId: int)
    requires eventId in eventVendors
    ensures var after := UnassignVendor(eventVendors, eventId, vendorId).value;
      RowIds(EventRows(vendors, after, eventId, eventDate))
        == Without(RowIds(EventRows(vendors, eventVendors, eventId, eventDate)), vendorId)
  {
    var ids := eventVendors[eventId];
    var after := UnassignVendor(eventVendors, eventId, vendorId).value;
    AssignedRowIds(vendors, ids, eventDate);
    AssignedRowIds(vendors, Without(ids, vendorId), eventDate);
    FilterCommute(ids, IsNot(vendorId), Resolves(vendors));
  }

  /** A concrete drop-down: a Pending vendor listed before an Available one of
      the same category is shown after it. */
  lemma AvailableFirstExample()
    ensures var b := Vendor(1, "B", Catering, []);
      var a := Vendor(2, "A", Catering, ["2024-05-01"]);
      RenderVendorOptions([b, a], map[7 := []], 7, "2024-05-01")
        == [OptGroup(Catering, [VendorOption(a, Available), VendorOption(b, Pending)])]
  {
    var b := Vendor(1, "B", Catering, []);
    var a := Vendor(2, "A", Catering, ["2024-05-01"]);
    var ev: map<int, seq<int>> := map[7 := []];
    var f := OptionsOf([b, a], ev, 7, "2024-05-01");
    ExampleOptions(b, a, ev);
    var cs := VendorCategories;
    assert cs[0] == Catering;
    assert GroupsFor(cs[1..], f) == [] by {
      forall i | 0 <= i < |cs[1..]| ensures f(cs[1..][i]) == [] {
        assert cs[1..][i] == cs[i + 1] != Catering;
      }
      NoGroups(cs[1..], f);
    }
  }

  /** Categories without options give no groups. */
  lemma {:induction false} NoGroups(categories: seq<Category>, optionsOf: Category -> seq<VendorOption>)
    requires forall i :: 0 <= i < |categories| ==> optionsOf(categories[i]) == []
    ensures GroupsFor(categories, optionsOf) == []
  {
    if categories != [] {
      NoGroups(categories[1..], optionsOf);
    }
  }

  lemma ExampleOptions(b: Vendor, a: Vendor, ev: map<int, seq<int>>)
    requires b == Vendor(1, "B", Catering, []) && a == Vendor(2, "A", Catering, ["2024-05-01"])
    requires ev == map[7 := []]
    ensures var f := OptionsOf([b, a], ev, 7, "2024-05-01");
      f(Catering) == [VendorOption(a, Available), VendorOption(b, Pending)] &&
      forall c :: c != Catering ==> f(c) == []
  {
    var date := "2024-05-01";
    var ob, oa := VendorOption(b, Pending), VendorOption(a, Available);
    assert Filter([b, a], Eligible(ev, 7, Catering)) == [b, a] by {
      FilterAll([b, a], Eligible(ev, 7, Catering));
    }
    assert Tag([b, a], date) == [ob] + [oa];
    assert Filter([ob], HasStatus(Available)) == [] by {
      FilterNone([ob], HasStatus(Available));
    }
    assert Filter([ob], HasStatus(Pending)) == [ob] by {
      FilterAll([ob], HasStatus(Pending));
    }
    SortByStatusSnoc([ob], oa);
    forall c | c != Catering ensures CategoryOptions([b, a], ev, 7, date, c) == [] {
      assert Filter([b, a], Eligible(ev, 7, c)) == [] by {
        FilterNone([b, a], Eligible(ev, 7, c));
      }
    }
  }
}
