/** The public property listing (app/buy-sell/page.js): the location and
    type option lists, the search/location/type filters and the default
    newest-first order. */
module PropertyListing {
  import opened Text
  import opened Lists

  /** A property row as the listing reads it. A missing `propertytype` is
      the empty string: both are falsy and neither equals a non-empty label. */
  datatype Property = Property(id: int, title: string, address: string, propertytype: string)

  const All: string := "All"
  const Unknown: string := "Unknown"
  const Other: string := "Other"

  /** `p.address.split(",")[0]`: the location the filter compares. */
  function Location(p: Property): string
  {
    FirstSegment(p.address, ',')
  }

  /** `p.address.split(",")[0] || "Unknown"`: the location as offered. */
  function LocationLabel(p: Property): string
  {
    if Location(p) == "" then Unknown else Location(p)
  }

  /** `p.propertytype || "Other"`: the type as offered. */
  function TypeLabel(p: Property): string
  {
    if p.propertytype == "" then Other else p.propertytype
  }

  /** `allLocations`. */
  function AllLocations(properties: seq<Property>): seq<string>
  {
    [All] + Dedup(seq(|properties|, i requires 0 <= i < |properties| => LocationLabel(properties[i])))
  }

  /** `allTypes`. */
  function AllTypes(properties: seq<Property>): seq<string>
  {
    [All] + Dedup(seq(|properties|, i requires 0 <= i < |properties| => TypeLabel(properties[i])))
  }

  /** The location options are "All" followed by every property's location
      label once each. */
  lemma {:induction false} LocationOptionsSpec(properties: seq<Property>)
    ensures AllLocations(properties)[0] == All
    ensures Distinct(AllLocations(properties)[1..])
    ensures forall x :: x in AllLocations(properties)[1..] <==>
      exists i :: 0 <= i < |properties| && LocationLabel(properties[i]) == x
  {
    var locs := seq(|properties|, i requires 0 <= i < |properties| => LocationLabel(properties[i]));
    DedupSpec(locs);
    assert AllLocations(properties)[1..] == Dedup(locs);
    forall x
      ensures x in locs <==> exists i :: 0 <= i < |properties| && LocationLabel(properties[i]) == x
    {
      if x in locs {
        var i :| 0 <= i < |locs| && locs[i] == x;
      }
      if exists i :: 0 <= i < |properties| && LocationLabel(properties[i]) == x {
        var i :| 0 <= i < |properties| && LocationLabel(properties[i]) == x;
        assert locs[i] == x;
      }
    }
  }

  /** The type options are "All" followed by every property's type label
      once each. */
  lemma {:induction false} TypeOptionsSpec(properties: seq<Property>)
    ensures AllTypes(properties)[0] == All
    ensures Distinct(AllTypes(properties)[1..])
    ensures forall x :: x in AllTypes(properties)[1..] <==>
      exists i :: 0 <= i < |properties| && TypeLabel(properties[i]) == x
  {
    var types := seq(|properties|, i requires 0 <= i < |properties| => TypeLabel(properties[i]));
    DedupSpec(types);
    assert AllTypes(properties)[1..] == Dedup(types);
    forall x
      ensures x in types <==> exists i :: 0 <= i < |properties| && TypeLabel(properties[i]) == x
    {
      if x in types {
        var i :| 0 <= i < |types| && types[i] == x;
      }
      if exists i :: 0 <= i < |properties| && TypeLabel(properties[i]) == x {
        var i :| 0 <= i < |properties| && TypeLabel(properties[i]) == x;
        assert types[i] == x;
      }
    }
  }

  /** The three chained filters of `filtered`: the lower-cased title
      contains the lower-cased search text, the raw location equals the
      selected one unless "All" is selected, and the raw type equals the
      selected one unless "All" is selected. */
  predicate Listed(p: Property, search: string, location: string, propertyType: string)
  {
    && Contains(LowerString(p.title), LowerString(search))
    && (location == All || Location(p) == location)
    && (propertyType == All || p.propertytype == propertyType)
  }

  function FilterListed(properties: seq<Property>, search: string, location: string, propertyType: string): (r: seq<Property>)
    ensures |r| <= |properties|
  {
    if properties == [] then []
    else
      var rest := FilterListed(properties[1..], search, location, propertyType);
      if Listed(properties[0], search, location, propertyType) then [properties[0]] + rest else rest
  }

  /** A property is shown exactly when it is fetched and passes all three
      filters. */
  lemma {:induction false} FilterListedMembers(properties: seq<Property>, search: string, location: string, propertyType: string)
    ensures forall p :: p in FilterListed(properties, search, location, propertyType) <==>
      p in properties && Listed(p, search, location, propertyType)
  {
    if properties != [] {
      FilterListedMembers(properties[1..], search, location, propertyType);
      assert properties == [properties[0]] + properties[1..];
    }
  }

  /** `b.id - a.id`: the comparator of the default order puts larger ids first. */
  predicate NewestFirst(s: seq<Property>)
  {
    forall i, j :: 0 <= i < j < |s| ==> s[i].id >= s[j].id
  }

  /** Places `p` in a list already ordered newest first, ahead of every
      entry with an equal or smaller id. */
  function InsertNewestFirst(p: Property, s: seq<Property>): (r: seq<Property>)
    requires NewestFirst(s)
    ensures NewestFirst(r)
    ensures multiset(r) == multiset(s) + multiset{p}
    ensures r != [] && (r[0] == p || (s != [] && r[0] == s[0]))
  {
    if s == [] || s[0].id <= p.id then
      ConsNewestFirst(p, s);
      [p] + s
    else
      NewestFirstTail(s);
      var rest := InsertNewestFirst(p, s[1..]);
      assert s == [s[0]] + s[1..];
      ConsNewestFirst(s[0], rest);
      [s[0]] + rest
  }

  lemma {:induction false} NewestFirstTail(s: seq<Property>)
    requires s != [] && NewestFirst(s)
    ensures NewestFirst(s[1..])
  {
    forall i, j | 0 <= i < j < |s| - 1
      ensures s[1..][i].id >= s[1..][j].id
    {
      assert s[1..][i] == s[i + 1] && s[1..][j] == s[j + 1];
    }
  }

  /** Putting a property in front of a newest-first list keeps the order
      when it is at least as new as the list's head. */
  lemma {:induction false} ConsNewestFirst(x: Property, rest: seq<Property>)
    requires NewestFirst(rest) && (rest == [] || x.id >= rest[0].id)
    ensures NewestFirst([x] + rest)
  {
    var r := [x] + rest;
    forall i, j | 0 <= i < j < |r|
      ensures r[i].id >= r[j].id
    {
      if i == 0 {
        assert r[j] == rest[j - 1];
        if j > 1 {
          assert rest[0].id >= rest[j - 1].id;
        }
      } else {
        assert r[i] == rest[i - 1] && r[j] == rest[j - 1];
      }
    }
  }

  /** The default order of `.sort(...)`: the same properties, newest first. */
  function SortNewestFirst(s: seq<Property>): (r: seq<Property>)
    ensures NewestFirst(r)
    ensures multiset(r) == multiset(s)
  {
    if s == [] then []
    else
      assert s == [s[0]] + s[1..];
      InsertNewestFirst(s[0], SortNewestFirst(s[1..]))
  }

  /** `filtered` under the default "newest" sort order. */
  function Filtered(properties: seq<Property>, search: string, location: string, propertyType: string): seq<Property>
  {
    SortNewestFirst(FilterListed(properties, search, location, propertyType))
  }

  /** The listing holds exactly the fetched properties that pass the
      filters, each as often as it was fetched, ordered by id descending. */
  lemma {:induction false} FilteredSpec(properties: seq<Property>, search: string, location: string, propertyType: string)
    ensures var r := Filtered(properties, search, location, propertyType);
      && NewestFirst(r)
      && multiset(r) == multiset(FilterListed(properties, search, location, propertyType))
      && (forall p :: p in r <==> p in properties && Listed(p, search, location, propertyType))
  {
    var f := FilterListed(properties, search, location, propertyType);
    FilterListedMembers(properties, search, location, propertyType);
    var r := Filtered(properties, search, location, propertyType);
    forall p
      ensures p in r <==> p in f
    {
      assert p in r <==> p in multiset(r);
      assert p in f <==> p in multiset(f);
    }
  }

  // The "Unknown" and "Other" options

  /** A property whose address starts with a comma: its location is offered
      as "Unknown". */
  const NoTownProperty: Property := Property(1, "Plot", ", Main Road", "Land")

  /** As written, choosing the offered "Unknown" location lists nothing for
      a property whose first address segment is empty, because the filter
      compares the raw segment "" with "Unknown". */
  lemma {:induction false} UnknownOptionMatchesNothing()
    ensures Unknown in AllLocations([NoTownProperty])
    ensures Filtered([NoTownProperty], "", Unknown, All) == []
  {
    UnknownIsOffered();
    NoTownIsNotListed();
    assert FilterListed([NoTownProperty], "", Unknown, All) == [];
  }

  lemma {:induction false} UnknownIsOffered()
    ensures AllLocations([NoTownProperty]) == [All, Unknown]
  {
    NoTownLocationIsEmpty();
    var locs := seq(1, i requires 0 <= i < 1 => LocationLabel([NoTownProperty][i]));
    assert locs == [Unknown];
    DedupOfOne(Unknown);
  }

  lemma {:induction false} NoTownIsNotListed()
    ensures !Listed(NoTownProperty, "", Unknown, All)
  {
    NoTownLocationIsEmpty();
  }

  lemma {:induction false} NoTownLocationIsEmpty()
    ensures Location(NoTownProperty) == ""
  {
    assert NoTownProperty.address[0] == ',';
    assert Split(NoTownProperty.address, ',')[0] == "";
  }

  /** A property without a type: its type is offered as "Other". */
  const UntypedProperty: Property := Property(2, "Shop", "Lahore", "")

  /** As written, choosing the offered "Other" type lists nothing for a
      property without a type. */
  lemma {:induction false} OtherOptionMatchesNothing()
    ensures Other in AllTypes([UntypedProperty])
    ensures Filtered([UntypedProperty], "", All, Other) == []
  {
    var types := seq(1, i requires 0 <= i < 1 => TypeLabel([UntypedProperty][i]));
    assert types == [Other];
    DedupOfOne(Other);
    assert AllTypes([UntypedProperty]) == [All, Other];
    assert !Listed(UntypedProperty, "", All, Other);
  }

  /** The filters compared against the labels the options show, as the
      option lists evidently intend. */
  predicate ListedByLabel(p: Property, search: string, location: string, propertyType: string)
  {
    && Contains(LowerString(p.title), LowerString(search))
    && (location == All || LocationLabel(p) == location)
    && (propertyType == All || TypeLabel(p) == propertyType)
  }

  function FilterByLabel(properties: seq<Property>, search: string, location: string, propertyType: string): (r: seq<Property>)
    ensures |r| <= |properties|
  {
    if properties == [] then []
    else
      var rest := FilterByLabel(properties[1..], search, location, propertyType);
      if ListedByLabel(properties[0], search, location, propertyType) then [properties[0]] + rest else rest
  }

  lemma {:induction false} FilterByLabelMembers(properties: seq<Property>, search: string, location: string, propertyType: string)
    ensures forall p :: p in FilterByLabel(properties, search, location, propertyType) <==>
      p in properties && ListedByLabel(p, search, location, propertyType)
  {
    if properties != [] {
      FilterByLabelMembers(properties[1..], search, location, propertyType);
      assert properties == [properties[0]] + properties[1..];
    }
  }

  /** With label comparison every offered location and every offered type,
      "Unknown" and "Other" included, lists at least one property when the
      search is empty. */
  lemma {:induction false} EveryOptionListsSomething(properties: seq<Property>, location: string, propertyType: string)
    requires location in AllLocations(properties)
    requires propertyType == All
    ensures properties != [] ==> FilterByLabel(properties, "", location, propertyType) != []
    ensures forall t :: t in AllTypes(properties) && properties != [] ==> FilterByLabel(properties, "", All, t) != []
  {
    LocationOptionsSpec(properties);
    TypeOptionsSpec(properties);
    FilterByLabelMembers(properties, "", location, propertyType);
    if properties != [] {
      var k: int := 0;
      if location != All {
        assert location in AllLocations(properties)[1..];
        k :| 0 <= k < |properties| && LocationLabel(properties[k]) == location;
      }
      assert OccursAt(LowerString(properties[k].title), LowerString(""), 0);
      assert properties[k] in FilterByLabel(properties, "", location, propertyType);
    }
    forall t | t in AllTypes(properties) && properties != []
      ensures FilterByLabel(properties, "", All, t) != []
    {
      FilterByLabelMembers(properties, "", All, t);
      var k: int := 0;
      if t != All {
        assert t in AllTypes(properties)[1..];
        k :| 0 <= k < |properties| && TypeLabel(properties[k]) == t;
      }
      assert OccursAt(LowerString(properties[k].title), LowerString(""), 0);
      assert properties[k] in FilterByLabel(properties, "", All, t);
    }
  }
}
