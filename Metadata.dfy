/** Grouping of slide properties by vendor (wsi_viewer.py, `display_metadata` and
    `generate_metadata_text`): the vendor of a key is its text before the first '.',
    or "Other"; groups appear in first-seen order, and the export lists them sorted. */
module Metadata {
  import opened Seqs
  import opened Sorting

  /** A slide property `(key, value)`. */
  type Property = (string, string)

  /** Vendor of keys without a dot. */
  const OtherVendor: string := "Other"

  /** `key.split('.')[0] if '.' in key else 'Other'`. */
  function VendorOf(key: string): (v: string)
    ensures '.' in key ==> |v| < |key| && key[..|v|] == v && key[|v|] == '.' && '.' !in v
    ensures '.' !in key ==> v == OtherVendor
  {
    if '.' in key then key[..IndexOf(key, '.')] else OtherVendor
  }

  /** A qualified key `vendor.rest` belongs to `vendor`. */
  lemma VendorOfQualified(vendor: string, rest: string)
    requires '.' !in vendor
    ensures VendorOf(vendor + "." + rest) == vendor
  {
    var key := vendor + "." + rest;
    assert key[|vendor|] == '.';
    var i := IndexOf(key, '.');
    assert key[..|vendor|] == vendor;
    assert i <= |vendor|;
    assert key[i] == '.';
  }

  /** Vendors in the order the keys first show them: the key order of the
      `vendor_props` dictionary. */
  function VendorOrder(props: seq<Property>): seq<string> {
    if props == [] then []
    else
      var earlier := VendorOrder(props[..|props| - 1]);
      var v := VendorOf(props[|props| - 1].0);
      if v in earlier then earlier else earlier + [v]
  }

  /** The properties of `vendor`, in input order: the list `vendor_props[vendor]`. */
  function Filter(props: seq<Property>, vendor: string): seq<Property> {
    if props == [] then []
    else
      var earlier := Filter(props[..|props| - 1], vendor);
      var p := props[|props| - 1];
      if VendorOf(p.0) == vendor then earlier + [p] else earlier
  }

  /** `vendors` and `groups` are what the loop has built from `props`: the vendor order
      and, for each listed vendor, its properties. */
  ghost predicate GroupedAs(props: seq<Property>, vendors: seq<string>, groups: map<string, seq<Property>>) {
    && vendors == VendorOrder(props)
    && (forall v :: v in groups <==> v in vendors)
    && (forall v :: v in groups ==> groups[v] == Filter(props, v))
  }

  /** The loop of lines 408-412 (and 1213-1218): fills `vendor_props`, whose key order
      is `vendors` and whose lists are `groups`. */
  method GroupByVendor(props: seq<Property>) returns (vendors: seq<string>, groups: map<string, seq<Property>>)
    ensures vendors == VendorOrder(props)
    ensures forall v :: v in groups <==> v in vendors
    ensures forall v :: v in groups ==> groups[v] == Filter(props, v)
  {
    vendors := [];
    groups := map[];
    for i := 0 to |props|
      invariant GroupedAs(props[..i], vendors, groups)
    {
      var (key, value) := props[i];
      var vendor := VendorOf(key);
      ghost var vendors0, groups0 := vendors, groups;
      if vendor !in groups {
        groups := groups[vendor := []];
        vendors := vendors + [vendor];
      }
      groups := groups[vendor := groups[vendor] + [(key, value)]];
      GroupStep(props[..i], props[i], vendors0, groups0, vendors, groups);
      assert props[..i + 1] == props[..i] + [props[i]];
    }
    assert props[..|props|] == props;
  }

  /** One iteration of the grouping loop: the property's vendor is listed if it is new,
      and the property is appended to that vendor's group. */
  lemma GroupStep(props: seq<Property>, p: Property, vendors: seq<string>, groups: map<string, seq<Property>>,
                  vendors': seq<string>, groups': map<string, seq<Property>>)
    requires GroupedAs(props, vendors, groups)
    requires vendors' == if VendorOf(p.0) in groups then vendors else vendors + [VendorOf(p.0)]
    requires forall v :: v in groups' <==> v in groups || v == VendorOf(p.0)
    requires groups'[VendorOf(p.0)] == (if VendorOf(p.0) in groups then groups[VendorOf(p.0)] else []) + [p]
    requires forall v :: v in groups && v != VendorOf(p.0) ==> groups'[v] == groups[v]
    ensures GroupedAs(props + [p], vendors', groups')
  {
    FilterSnoc(props, p);
    ListedIffNonEmpty(props, VendorOf(p.0));
  }

  /** Every vendor is listed once. */
  lemma {:induction false} VendorOrderDistinct(props: seq<Property>)
    ensures Distinct(VendorOrder(props))
  {
    if props != [] {
      VendorOrderDistinct(props[..|props| - 1]);
    }
  }

  /** Appending a property adds it to the end of its vendor's group only. */
  lemma FilterSnoc(props: seq<Property>, p: Property)
    ensures forall v :: Filter(props + [p], v) == Filter(props, v) + (if VendorOf(p.0) == v then [p] else [])
    ensures VendorOrder(props + [p]) == VendorOrder(props) + (if VendorOf(p.0) in VendorOrder(props) then [] else [VendorOf(p.0)])
  {
    assert (props + [p])[..|props|] == props;
  }

  /** A vendor is listed exactly when its group is not empty. */
  lemma {:induction false} ListedIffNonEmpty(props: seq<Property>, v: string)
    ensures v in VendorOrder(props) <==> Filter(props, v) != []
  {
    if props != [] {
      ListedIffNonEmpty(props[..|props| - 1], v);
    }
  }

  /** The vendor of every property is listed. */
  lemma {:induction false} VendorListed(props: seq<Property>, i: nat)
    requires i < |props|
    ensures VendorOf(props[i].0) in VendorOrder(props)
  {
    var init := props[..|props| - 1];
    if i < |init| {
      VendorListed(init, i);
      assert init[i] == props[i];
    }
  }

  /** The group of `vendor` holds exactly the properties with that vendor. */
  lemma {:induction false} FilterMembers(props: seq<Property>, vendor: string, p: Property)
    ensures p in Filter(props, vendor) <==> p in props && VendorOf(p.0) == vendor
  {
    if props != [] {
      var init := props[..|props| - 1];
      FilterMembers(init, vendor, p);
      assert props == init + [props[|props| - 1]];
    }
  }

  /** Each property lies in the group of its own vendor, which is listed, and in no
      other group: the groups partition the properties. */
  lemma ExactlyOneGroup(props: seq<Property>, i: nat)
    requires i < |props|
    ensures VendorOf(props[i].0) in VendorOrder(props)
    ensures forall v :: v in VendorOrder(props) ==> (props[i] in Filter(props, v) <==> v == VendorOf(props[i].0))
  {
    VendorListed(props, i);
    forall v | v in VendorOrder(props)
      ensures props[i] in Filter(props, v) <==> v == VendorOf(props[i].0)
    {
      FilterMembers(props, v, props[i]);
    }
  }

  /** Sum of the group sizes over the vendors `vs`. */
  function GroupSizes(props: seq<Property>, vs: seq<string>): nat {
    if vs == [] then 0 else |Filter(props, vs[0])| + GroupSizes(props, vs[1..])
  }

  /** Appending a property grows exactly the group of its vendor by one. */
  lemma {:induction false} GroupSizesAppend(props: seq<Property>, p: Property, vs: seq<string>)
    requires Distinct(vs)
    ensures GroupSizes(props + [p], vs) == GroupSizes(props, vs) + (if VendorOf(p.0) in vs then 1 else 0)
  {
    var all := props + [p];
    assert all[..|all| - 1] == props;
    if vs != [] {
      assert Distinct(vs[1..]);
      GroupSizesAppend(props, p, vs[1..]);
      assert VendorOf(p.0) in vs <==> VendorOf(p.0) == vs[0] || VendorOf(p.0) in vs[1..];
      assert vs[0] !in vs[1..];
    }
  }

  /** Appending a vendor adds its group's size. */
  lemma {:induction false} GroupSizesSnoc(props: seq<Property>, vs: seq<string>, v: string)
    ensures GroupSizes(props, vs + [v]) == GroupSizes(props, vs) + |Filter(props, v)|
  {
    if vs == [] {
      assert [v][1..] == [];
    } else {
      assert (vs + [v])[1..] == vs[1..] + [v];
      GroupSizesSnoc(props, vs[1..], v);
    }
  }

  /** The group sizes add up to the number of properties: no property is lost or
      counted twice. */
  lemma {:induction false} GroupSizesTotal(props: seq<Property>)
    ensures GroupSizes(props, VendorOrder(props)) == |props|
  {
    if props != [] {
      var init := props[..|props| - 1];
      var p := props[|props| - 1];
      var v := VendorOf(p.0);
      assert props == init + [p];
      GroupSizesTotal(init);
      VendorOrderDistinct(init);
      GroupSizesAppend(init, p, VendorOrder(init));
      if v !in VendorOrder(init) {
        ListedIffNonEmpty(init, v);
        FilterSnoc(init, p);
        GroupSizesSnoc(props, VendorOrder(init), v);
      }
    }
  }

  /** Vendor names of a listing. */
  function Names(listing: seq<(string, seq<Property>)>): (names: seq<string>)
    ensures |names| == |listing| && forall i :: 0 <= i < |listing| ==> names[i] == listing[i].0
  {
    if listing == [] then [] else [listing[0].0] + Names(listing[1..])
  }

  /** One listing entry per vendor of `vs`, in that order, each group sorted. */
  function ListGroups(vs: seq<string>, groups: map<string, seq<Property>>): (r: seq<(string, seq<Property>)>)
    requires forall v :: v in vs ==> v in groups
    ensures Names(r) == vs
    ensures forall i :: 0 <= i < |r| ==>
      Sorted(r[i].1, PairLe) && multiset(r[i].1) == multiset(groups[r[i].0])
  {
    PairLeIsTotal();
    if vs == [] then []
    else
      var rest := ListGroups(vs[1..], groups);
      var r := [(vs[0], Sort(groups[vs[0]], PairLe))] + rest;
      assert Names(r) == [vs[0]] + Names(rest);
      r
  }

  /** Lines 1221-1224: the export walks `sorted(vendor_props.items())` and, in each group,
      `sorted(props)`. The result lists the vendors of `vendors` in string order, each with
      its properties sorted by key, then value. */
  function SortedListing(vendors: seq<string>, groups: map<string, seq<Property>>): (r: seq<(string, seq<Property>)>)
    requires forall v :: v in vendors ==> v in groups
    ensures multiset(Names(r)) == multiset(vendors)
    ensures forall i :: 0 <= i < |r| - 1 ==> StrLe(r[i].0, r[i + 1].0)
    ensures forall i :: 0 <= i < |r| ==>
      r[i].0 in groups && Sorted(r[i].1, PairLe) && multiset(r[i].1) == multiset(groups[r[i].0])
  {
    StrLeIsTotal();
    var sorted := Sort(vendors, StrLe);
    PermutationKeepsGroups(vendors, sorted, groups);
    ListingOfSorted(sorted, groups);
    ListGroups(sorted, groups)
  }

  /** A reordering of vendors that all have a group still has only vendors with a group. */
  lemma PermutationKeepsGroups(vendors: seq<string>, sorted: seq<string>, groups: map<string, seq<Property>>)
    requires forall v :: v in vendors ==> v in groups
    requires multiset(sorted) == multiset(vendors)
    ensures forall v :: v in sorted ==> v in groups
  {
    forall v | v in sorted ensures v in groups {
      assert v in multiset(sorted);
    }
  }

  /** Listing vendors already in string order keeps that order. */
  lemma ListingOfSorted(sorted: seq<string>, groups: map<string, seq<Property>>)
    requires forall v :: v in sorted ==> v in groups
    requires Sorted(sorted, StrLe)
    ensures var r := ListGroups(sorted, groups);
      Names(r) == sorted && forall i :: 0 <= i < |r| - 1 ==> StrLe(r[i].0, r[i + 1].0)
  {
    var r := ListGroups(sorted, groups);
    assert forall i :: 0 <= i < |r| ==> r[i].0 == sorted[i];
  }

  /** With distinct vendors, as `GroupByVendor` produces, the export's vendor names
      strictly increase. */
  lemma ListingStrictlyOrdered(vendors: seq<string>, groups: map<string, seq<Property>>)
    requires forall v :: v in vendors ==> v in groups
    requires Distinct(vendors)
    ensures var r := SortedListing(vendors, groups);
      forall i :: 0 <= i < |r| - 1 ==> StrLe(r[i].0, r[i + 1].0) && r[i].0 != r[i + 1].0
  {
    var r := SortedListing(vendors, groups);
    DistinctPermutation(vendors, Names(r));
  }
}
