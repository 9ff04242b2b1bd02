/**
 The registry: `std::map<DeviceType, std::vector<Device *>>`. The map is ordered by type, and
 reading it with `operator[]` inserts an empty vector for a missing key.
 */
module Registry {
  import opened CText
  import opened Devices

  type DeviceMap = map<DeviceType, seq<Device>>

  /** The devices of a type, whether or not the map has an entry for it. */
  function DevicesOf(m: DeviceMap, t: DeviceType): seq<Device> {
    if t in m then m[t] else []
  }

  /** The map after `m[t]` has been evaluated. */
  function Touch(m: DeviceMap, t: DeviceType): DeviceMap {
    if t in m then m else m[t := []]
  }

  ghost predicate SameDevices(m: DeviceMap, m': DeviceMap) {
    forall t :: DevicesOf(m, t) == DevicesOf(m', t)
  }

  lemma TouchKeepsDevices(m: DeviceMap, t: DeviceType)
    ensures SameDevices(m, Touch(m, t)) && t in Touch(m, t)
  {
  }

  // ---- grouping ----

  /** The devices of one type in a list, in the list's order. */
  function OfType(ds: seq<Device>, t: DeviceType): seq<Device> {
    if ds == [] then []
    else (if ds[0].Type() == t then [ds[0]] else []) + OfType(ds[1..], t)
  }

  lemma {:induction false} OfTypeConcat(a: seq<Device>, b: seq<Device>, t: DeviceType)
    ensures OfType(a + b, t) == OfType(a, t) + OfType(b, t)
  {
    if a == [] {
      assert a + b == b;
    } else {
      OfTypeConcat(a[1..], b, t);
      assert (a + b)[0] == a[0] && (a + b)[1..] == a[1..] + b;
      var head := if a[0].Type() == t then [a[0]] else [];
      assert head + (OfType(a[1..], t) + OfType(b, t)) == head + OfType(a[1..], t) + OfType(b, t);
    }
  }

  lemma {:induction false} OfTypeMembers(ds: seq<Device>, t: DeviceType)
    ensures |OfType(ds, t)| <= |ds|
    ensures forall d | d in OfType(ds, t) :: d in ds && d.Type() == t
  {
    if ds != [] {
      OfTypeMembers(ds[1..], t);
    }
  }

  lemma {:induction false} OfTypeDistinct(ds: seq<Device>, t: DeviceType)
    requires NoDuplicates(ds)
    ensures NoDuplicates(OfType(ds, t))
  {
    if ds != [] {
      OfTypeDistinct(ds[1..], t);
      OfTypeMembers(ds[1..], t);
      assert ds[0] !in ds[1..];
      DistinctCons(ds[0], OfType(ds[1..], t));
    }
  }

  lemma DistinctCons(d: Device, ds: seq<Device>)
    requires d !in ds && NoDuplicates(ds)
    ensures NoDuplicates([d] + ds)
  {
  }

  /** The registry of a list of devices. */
  ghost predicate IsRegistryOf(m: DeviceMap, ds: seq<Device>) {
    forall t :: DevicesOf(m, t) == OfType(ds, t)
  }

  /** The loop of the constructor. */
  method Group(devices: seq<Device>) returns (m: DeviceMap)
    ensures IsRegistryOf(m, devices)
  {
    m := map[];
    for i := 0 to |devices|
      invariant IsRegistryOf(m, devices[..i])
    {
      var d := devices[i];
      ghost var before := m;
      m := Touch(m, d.Type());
      m := m[d.Type() := m[d.Type()] + [d]];
      forall t
        ensures DevicesOf(m, t) == OfType(devices[..i + 1], t)
      {
        OfTypeConcat(devices[..i], [d], t);
        assert devices[..i + 1] == devices[..i] + [d];
        assert DevicesOf(before, t) == OfType(devices[..i], t);
        OfTypeOne(d, t);
      }
    }
    assert devices[..|devices|] == devices;
  }

  lemma OfTypeOne(d: Device, t: DeviceType)
    ensures OfType([d], t) == if d.Type() == t then [d] else []
  {
    assert [d][1..] == [];
  }

  /** Every device sits under its own type: the invariant behind the downcasts. */
  lemma RegistryTags(m: DeviceMap, ds: seq<Device>, t: DeviceType, i: nat)
    requires IsRegistryOf(m, ds) && i < |DevicesOf(m, t)|
    ensures DevicesOf(m, t)[i].Type() == t && DevicesOf(m, t)[i] in ds
    ensures t != Unknown
  {
    OfTypeMembers(ds, t);
    assert DevicesOf(m, t)[i] in OfType(ds, t);
    TagTellsClass(DevicesOf(m, t)[i].cls, DevicesOf(m, t)[i].cls);
  }

  // ---- listing ----

  /** A device with its number among the devices of its type. */
  datatype Entry = Entry(number: nat, device: Device)

  function Numbered(ds: seq<Device>, from: nat): seq<Entry>
    decreases |ds|
  {
    if ds == [] then [] else [Entry(from, ds[0])] + Numbered(ds[1..], from + 1)
  }

  /** The entries of the given types, one type after the other. */
  function ListOver(m: DeviceMap, types: seq<DeviceType>): seq<Entry> {
    if types == [] then [] else Numbered(DevicesOf(m, types[0]), 0) + ListOver(m, types[1..])
  }

  /** Iteration over the map, and over each vector by index. */
  function Listing(m: DeviceMap): seq<Entry> {
    ListOver(m, ALL_TYPES)
  }

  /** The inner loop of the configured-devices handler. */
  method AppendNumbered(entries: seq<Entry>, ds: seq<Device>) returns (r: seq<Entry>)
    ensures r == entries + Numbered(ds, 0)
  {
    r := entries;
    NumberedAt(ds, 0);
    for i := 0 to |ds|
      invariant r == entries + Numbered(ds, 0)[..i]
    {
      r := r + [Entry(i, ds[i])];
    }
  }

  lemma {:induction false} ListOverStep(before: seq<Entry>, m: DeviceMap, types: seq<DeviceType>, k: nat)
    requires k < |types|
    ensures before + ListOver(m, types[k..])
         == before + Numbered(DevicesOf(m, types[k]), 0) + ListOver(m, types[k + 1..])
    ensures types[k] !in m ==> before + Numbered(DevicesOf(m, types[k]), 0) == before
  {
    assert types[k..][1..] == types[k + 1..];
    var here, rest := Numbered(DevicesOf(m, types[k]), 0), ListOver(m, types[k + 1..]);
    assert before + (here + rest) == before + here + rest;
  }

  /** The outer loop of the configured-devices handler. */
  method ListDevices(m: DeviceMap) returns (entries: seq<Entry>)
    ensures entries == Listing(m)
  {
    entries := [];
    for k := 0 to |ALL_TYPES|
      invariant entries + ListOver(m, ALL_TYPES[k..]) == Listing(m)
    {
      var t := ALL_TYPES[k];
      ListOverStep(entries, m, ALL_TYPES, k);
      if t in m {
        entries := AppendNumbered(entries, m[t]);
      }
    }
  }

  lemma {:induction false} SameDevicesSameList(m: DeviceMap, m': DeviceMap, types: seq<DeviceType>)
    requires SameDevices(m, m')
    ensures ListOver(m, types) == ListOver(m', types)
  {
    if types != [] {
      assert DevicesOf(m, types[0]) == DevicesOf(m', types[0]);
      SameDevicesSameList(m, m', types[1..]);
    }
  }

  lemma {:induction false} NumberedAt(ds: seq<Device>, from: nat)
    ensures |Numbered(ds, from)| == |ds|
    ensures forall i | 0 <= i < |ds| :: Numbered(ds, from)[i] == Entry(from + i, ds[i])
    decreases |ds|
  {
    if ds != [] {
      NumberedAt(ds[1..], from + 1);
    }
  }

  /** Exactly the devices of the registry are listed, each under its own number. */
  lemma {:induction false} ListedOver(m: DeviceMap, types: seq<DeviceType>, e: Entry)
    requires forall t, i: nat | i < |DevicesOf(m, t)| :: DevicesOf(m, t)[i].Type() == t
    ensures e in ListOver(m, types) <==>
            && e.device.Type() in types
            && e.number < |DevicesOf(m, e.device.Type())|
            && DevicesOf(m, e.device.Type())[e.number] == e.device
  {
    if types != [] {
      var here := DevicesOf(m, types[0]);
      ListedOver(m, types[1..], e);
      NumberedAt(here, 0);
      if e.device.Type() == types[0] && e.number < |here| && here[e.number] == e.device {
        assert Numbered(here, 0)[e.number] == e;
      }
    }
  }

  /** An entry of the listing names the device that the registry holds under its type and number. */
  lemma ListedEntries(m: DeviceMap, ds: seq<Device>, e: Entry)
    requires IsRegistryOf(m, ds)
    ensures e in Listing(m) <==>
            && e.number < |DevicesOf(m, e.device.Type())|
            && DevicesOf(m, e.device.Type())[e.number] == e.device
  {
    forall t, i: nat | i < |DevicesOf(m, t)|
      ensures DevicesOf(m, t)[i].Type() == t
    {
      RegistryTags(m, ds, t, i);
    }
    ListedOver(m, ALL_TYPES, e);
    EveryTypeIsListed(e.device.Type());
  }

  /** No two entries share both type and number. */
  predicate EntriesDiffer(entries: seq<Entry>) {
    forall i, j | 0 <= i < j < |entries| ::
      entries[i].device.Type() != entries[j].device.Type() || entries[i].number != entries[j].number
  }

  lemma {:induction false} EntriesOverDiffer(m: DeviceMap, types: seq<DeviceType>)
    requires AreIncreasing(types)
    requires forall t, i: nat | i < |DevicesOf(m, t)| :: DevicesOf(m, t)[i].Type() == t
    ensures EntriesDiffer(ListOver(m, types))
    ensures forall i | 0 <= i < |ListOver(m, types)| :: ListOver(m, types)[i].device.Type() in types
  {
    if types != [] {
      var here, rest := Numbered(DevicesOf(m, types[0]), 0), ListOver(m, types[1..]);
      EntriesOverDiffer(m, types[1..]);
      NumberedAt(DevicesOf(m, types[0]), 0);
      assert types[0] !in types[1..];
      assert forall i | |here| <= i < |here + rest| :: (here + rest)[i] == rest[i - |here|];
    }
  }

  lemma ListingDiffers(m: DeviceMap, ds: seq<Device>)
    requires IsRegistryOf(m, ds)
    ensures EntriesDiffer(Listing(m))
  {
    forall t, i: nat | i < |DevicesOf(m, t)|
      ensures DevicesOf(m, t)[i].Type() == t
    {
      RegistryTags(m, ds, t, i);
    }
    AllTypesIncrease();
    EntriesOverDiffer(m, ALL_TYPES);
  }

  // ---- the listing is a stable sort ----

  function DevicesIn(entries: seq<Entry>): seq<Device> {
    seq(|entries|, i requires 0 <= i < |entries| => entries[i].device)
  }

  predicate IsSortedByType(ds: seq<Device>) {
    forall i, j | 0 <= i < j < |ds| :: Ordinal(ds[i].Type()) <= Ordinal(ds[j].Type())
  }

  /** A stable sort: ordered by type, a permutation, and in the old order within each type. */
  ghost predicate IsStableSortOf(out: seq<Device>, ds: seq<Device>) {
    && IsSortedByType(out)
    && multiset(out) == multiset(ds)
    && forall t :: OfType(out, t) == OfType(ds, t)
  }

  lemma {:induction false} CountByType(ds: seq<Device>, d: Device)
    ensures multiset(ds)[d] == multiset(OfType(ds, d.Type()))[d]
  {
    if ds != [] {
      CountByType(ds[1..], d);
      assert ds == [ds[0]] + ds[1..];
    }
  }

  lemma SameByTypePermutes(a: seq<Device>, b: seq<Device>)
    requires forall t :: OfType(a, t) == OfType(b, t)
    ensures multiset(a) == multiset(b)
  {
    forall d: Device
      ensures multiset(a)[d] == multiset(b)[d]
    {
      CountByType(a, d);
      CountByType(b, d);
      assert OfType(a, d.Type()) == OfType(b, d.Type());
    }
  }

  lemma {:induction false} AllOfOneType(ds: seq<Device>, t: DeviceType, u: DeviceType)
    requires forall i | 0 <= i < |ds| :: ds[i].Type() == t
    ensures OfType(ds, u) == if u == t then ds else []
  {
    if ds != [] {
      AllOfOneType(ds[1..], t, u);
      assert ds == [ds[0]] + ds[1..];
    }
  }

  lemma DevicesInConcat(a: seq<Entry>, b: seq<Entry>)
    ensures DevicesIn(a + b) == DevicesIn(a) + DevicesIn(b)
  {
  }

  lemma DevicesInNumbered(ds: seq<Device>)
    ensures DevicesIn(Numbered(ds, 0)) == ds
  {
    NumberedAt(ds, 0);
  }

  lemma {:induction false} DevicesInOver(m: DeviceMap, types: seq<DeviceType>)
    requires types != []
    ensures DevicesIn(ListOver(m, types)) == DevicesOf(m, types[0]) + DevicesIn(ListOver(m, types[1..]))
  {
    DevicesInConcat(Numbered(DevicesOf(m, types[0]), 0), ListOver(m, types[1..]));
    DevicesInNumbered(DevicesOf(m, types[0]));
  }

  lemma HereByType(m: DeviceMap, ds: seq<Device>, t: DeviceType, u: DeviceType)
    requires IsRegistryOf(m, ds)
    ensures OfType(DevicesOf(m, t), u) == if u == t then DevicesOf(m, u) else []
  {
    OfTypeMembers(ds, t);
    var here := DevicesOf(m, t);
    assert forall i | 0 <= i < |here| :: here[i] in OfType(ds, t);
    AllOfOneType(here, t, u);
  }

  lemma {:induction false} ListOverByType(m: DeviceMap, ds: seq<Device>, types: seq<DeviceType>, u: DeviceType)
    requires IsRegistryOf(m, ds) && AreIncreasing(types)
    ensures OfType(DevicesIn(ListOver(m, types)), u) == if u in types then DevicesOf(m, u) else []
  {
    if types != [] {
      var t, rest := types[0], DevicesIn(ListOver(m, types[1..]));
      TailIncreases(types);
      ListOverByType(m, ds, types[1..], u);
      DevicesInOver(m, types);
      OfTypeConcat(DevicesOf(m, t), rest, u);
      HereByType(m, ds, t, u);
    }
  }

  lemma {:induction false} ListOverSorted(m: DeviceMap, ds: seq<Device>, types: seq<DeviceType>)
    requires IsRegistryOf(m, ds) && AreIncreasing(types)
    ensures IsSortedByType(DevicesIn(ListOver(m, types)))
    ensures forall d | d in DevicesIn(ListOver(m, types)) :: d.Type() in types
  {
    if types != [] {
      var t, rest := types[0], DevicesIn(ListOver(m, types[1..]));
      TailIncreases(types);
      ListOverSorted(m, ds, types[1..]);
      DevicesInOver(m, types);
      OfTypeMembers(ds, t);
      assert forall d | d in DevicesOf(m, t) :: d in OfType(ds, t);
      assert forall d | d in rest :: Ordinal(t) < Ordinal(d.Type());
      SortedConcat(DevicesOf(m, t), rest, t);
    }
  }

  lemma SortedConcat(a: seq<Device>, b: seq<Device>, t: DeviceType)
    requires forall d | d in a :: d.Type() == t
    requires IsSortedByType(b) && forall d | d in b :: Ordinal(t) < Ordinal(d.Type())
    ensures IsSortedByType(a + b)
  {
    assert forall i | 0 <= i < |a| :: (a + b)[i] == a[i] && a[i] in a;
    assert forall i | |a| <= i < |a + b| :: (a + b)[i] == b[i - |a|] && b[i - |a|] in b;
  }

  /** The configured-devices listing is a stable sort by type of the constructor's list. */
  lemma ListingIsStableSort(m: DeviceMap, ds: seq<Device>)
    requires IsRegistryOf(m, ds)
    ensures IsStableSortOf(DevicesIn(Listing(m)), ds)
  {
    AllTypesIncrease();
    ListOverSorted(m, ds, ALL_TYPES);
    forall u
      ensures OfType(DevicesIn(Listing(m)), u) == OfType(ds, u)
    {
      ListOverByType(m, ds, ALL_TYPES, u);
      EveryTypeIsListed(u);
    }
    SameByTypePermutes(DevicesIn(Listing(m)), ds);
  }

  /** There is only one stable sort, so the listing is fully determined. */
  lemma {:induction false} StableSortIsUnique(a: seq<Device>, b: seq<Device>)
    requires IsSortedByType(a) && IsSortedByType(b)
    requires forall t :: OfType(a, t) == OfType(b, t)
    ensures a == b
  {
    if a == [] {
      SameByTypePermutes(a, b);
      assert |multiset(b)| == 0;
    } else {
      FirstByType(a, b);
      FirstByType(b, a);
      assert OfType(a, a[0].Type())[0] == a[0] && OfType(b, b[0].Type())[0] == b[0];
      OrdinalInjective(a[0].Type(), b[0].Type());
      assert a[0] == b[0];
      forall t
        ensures OfType(a[1..], t) == OfType(b[1..], t)
      {
        var skip := if a[0].Type() == t then 1 else 0;
        assert OfType(a, t)[skip..] == OfType(a[1..], t) && OfType(b, t)[skip..] == OfType(b[1..], t);
      }
      StableSortIsUnique(a[1..], b[1..]);
      assert a == [a[0]] + a[1..] && b == [b[0]] + b[1..];
    }
  }

  lemma FirstByType(a: seq<Device>, b: seq<Device>)
    requires IsSortedByType(b) && a != []
    requires forall t :: OfType(a, t) == OfType(b, t)
    ensures b != [] && Ordinal(b[0].Type()) <= Ordinal(a[0].Type())
  {
    OfTypeMembers(b, a[0].Type());
    assert OfType(a, a[0].Type())[0] in OfType(b, a[0].Type());
  }
}
