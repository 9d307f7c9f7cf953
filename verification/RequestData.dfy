/** What a handler computes from a request before it writes anything. */
module RequestData {
  import opened Prelude
  import opened Models
  import opened Provisioning
  import Bitrate

  /** The slice a request stores: its name from the URL, its groups sorted and without
      repetitions, its rule rates in bit/s. */
  ghost function NormalizedSlice(request: Slice, name: string): Slice {
    request.(name := name, groups := SortedSet(set g | g in request.groups), rules := Map(Bitrate.NormalizedRule, request.rules))
  }

  /** The group a request stores: its name from the URL, its rates in bit/s. */
  ghost function NormalizedGroup(request: Group, name: string): Group {
    request.(name := name, domains := Bitrate.NormalizedDomains(request.domains))
  }

  /** The stored rates are the posted ones in bit/s, cut off at 2^31 - 1; the groups are the posted
      ones, strictly increasing; nothing but these and the name differs from the request. */
  lemma NormalizedSliceIs(request: Slice, name: string)
    ensures var s := NormalizedSlice(request, name);
      && s.name == name && StrictlySorted(StringLess, s.groups) && (forall g :: g in s.groups <==> g in request.groups)
      && s.(name := request.name, groups := request.groups, rules := request.rules) == request
      && |s.rules| == |request.rules| && forall k :: 0 <= k < |s.rules| ==> IsStoredRule(request.rules[k], s.rules[k])
  {
    forall k | 0 <= k < |request.rules| ensures IsStoredRule(request.rules[k], Bitrate.NormalizedRule(request.rules[k])) {
      Bitrate.NormalizedRuleIs(request.rules[k]);
    }
  }

  predicate IsStoredRule(posted: Rule, stored: Rule) {
    var factor := Bitrate.UnitFactor(posted.unit);
    && (posted.uplink >= 0 ==> stored.uplink == Bitrate.Min(posted.uplink * factor, 0x7fff_ffff))
    && (posted.downlink >= 0 ==> stored.downlink == Bitrate.Min(posted.downlink * factor, 0x7fff_ffff))
    && stored.(uplink := posted.uplink, downlink := posted.downlink) == posted
  }

  /** The stored rates are the posted ones in bit/s, cut off at 2^63 - 1 as long as they are below
      2^64; nothing but these and the name differs from the request. */
  lemma NormalizedGroupIs(request: Group, name: string)
    ensures var g := NormalizedGroup(request, name);
      && g.name == name && g.(name := request.name, domains := request.domains) == request
      && |g.domains| == |request.domains| && forall k :: 0 <= k < |g.domains| ==> IsStoredDomain(request.domains[k], g.domains[k])
  {
    forall k | 0 <= k < |request.domains| ensures IsStoredDomain(request.domains[k], Bitrate.NormalizedDomain(request.domains[k])) {
      if request.domains[k].qos.Some? { Bitrate.NormalizedDomainIs(request.domains[k], request.domains[k].qos.value); }
    }
  }

  predicate IsStoredDomain(posted: IpDomain, stored: IpDomain) {
    && stored.(qos := posted.qos) == posted && (stored.qos.None? <==> posted.qos.None?)
    && (posted.qos.Some? ==>
          var p, q := posted.qos.value, stored.qos.value; var factor := Bitrate.UnitFactor(p.unit);
          && (p.uplink >= 0 && p.uplink * factor < 0x1_0000_0000_0000_0000 ==>
                q.uplink == Bitrate.Min(p.uplink * factor, 0x7fff_ffff_ffff_ffff))
          && (p.downlink >= 0 && p.downlink * factor < 0x1_0000_0000_0000_0000 ==>
                q.downlink == Bitrate.Min(p.downlink * factor, 0x7fff_ffff_ffff_ffff))
          && q.(uplink := p.uplink, downlink := p.downlink) == p)
  }

  method Normalize(request: Slice, name: string) returns (slice: Slice)
    ensures slice == request.(name := name, rules := Map(Bitrate.NormalizedRule, request.rules))
  {
    var rules := new Rule[|request.rules|](i requires 0 <= i < |request.rules| => request.rules[i]);
    assert rules[..] == request.rules;
    Bitrate.NormalizeApplicationFilteringRules(rules);
    assert rules[..] == Map(Bitrate.NormalizedRule, request.rules);
    slice := request.(name := name, rules := rules[..]);
  }

  /** slices.Sort and slices.Compact. */
  method SortAndCompact(names: seq<string>) returns (r: seq<string>)
    ensures r == SortedSet(set g | g in names)
  {
    StringOrder();
    StringOrderIsWeak();
    var sorted := SortSlice(StringLess, names);
    SortOfMembers(StringLess, names, sorted);
    r := [];
    for i := 0 to |sorted|
      invariant StrictlySorted(StringLess, r)
      invariant forall x :: x in r <==> x in sorted[..i]
      invariant if i == 0 then r == [] else r != [] && r[|r| - 1] == sorted[i - 1]
    {
      if i == 0 || sorted[i] != sorted[i - 1] {
        if i > 0 { NextDistinct(sorted, i); }
        assert i > 0 || r == [];
        Appended(r, sorted[i]);
        r := r + [sorted[i]];
      }
    }
    assert sorted[..|sorted|] == sorted;
    StrictlySortedUnique(StringLess, r, SortedSet(set g | g in names));
  }

  lemma NextDistinct(sorted: seq<string>, i: nat)
    requires Sorted(StringLess, sorted) && 0 < i < |sorted| && sorted[i] != sorted[i - 1]
    ensures StringLess(sorted[i - 1], sorted[i])
  {
    StringOrder();
  }

  lemma Appended(r: seq<string>, x: string)
    requires StrictlySorted(StringLess, r) && (r != [] ==> StringLess(r[|r| - 1], x))
    ensures StrictlySorted(StringLess, r + [x])
  {
    StringOrder();
  }

  /** Every DNN of the domains, with or without profiles. */
  method DnnMap(domains: seq<IpDomain>) returns (dnnMap: map<string, seq<Qos>>)
    ensures dnnMap == QosByDnn(domains)
  {
    dnnMap := map[];
    for i := 0 to |domains|
      invariant dnnMap == QosByDnn(domains[..i])
    {
      var d := domains[i];
      assert domains[..i + 1][..i] == domains[..i];
      if d.qos.Some? {
        dnnMap := dnnMap[d.dnn := (if d.dnn in dnnMap then dnnMap[d.dnn] else []) + [d.qos.value]];
      } else if d.dnn !in dnnMap {
        dnnMap := dnnMap[d.dnn := []];
      } else {
        assert dnnMap[d.dnn] + [] == dnnMap[d.dnn];
        assert dnnMap[d.dnn := dnnMap[d.dnn]] == dnnMap;
      }
    }
    assert domains[..|domains|] == domains;
  }

  /** Only the DNNs with a profile. */
  method PostedDnnMap(domains: seq<IpDomain>) returns (dnnMap: map<string, seq<Qos>>)
    ensures dnnMap == PostedQosByDnn(domains)
  {
    dnnMap := map[];
    for i := 0 to |domains|
      invariant dnnMap == PostedQosByDnn(domains[..i])
    {
      var d := domains[i];
      assert domains[..i + 1][..i] == domains[..i];
      if d.qos.Some? {
        dnnMap := dnnMap[d.dnn := (if d.dnn in dnnMap then dnnMap[d.dnn] else []) + [d.qos.value]];
      }
    }
    assert domains[..|domains|] == domains;
  }

  /** The keys of a map, in the order in which a loop happens to visit them. */
  method KeysInSomeOrder<V>(m: map<string, V>) returns (order: seq<string>)
    ensures Enumerates(order, m.Keys)
  {
    order := [];
    var todo := m.Keys;
    while todo != {}
      invariant todo <= m.Keys && Enumerates(order, m.Keys - todo)
      decreases todo
    {
      var key :| key in todo;
      order, todo := order + [key], todo - {key};
    }
    assert m.Keys - todo == m.Keys;
  }

  /** All profiles of a DNN map, DNN by DNN in the order of the loop. */
  method CollectProfiles(dnnMap: map<string, seq<Qos>>) returns (profiles: seq<Qos>, ghost order: seq<string>)
    ensures Enumerates(order, dnnMap.Keys) && profiles == Flatten(dnnMap, order)
  {
    profiles, order := [], [];
    var todo := dnnMap.Keys;
    while todo != {}
      invariant todo <= dnnMap.Keys && Enumerates(order, dnnMap.Keys - todo) && profiles == Flatten(dnnMap, order)
      decreases todo
    {
      var dnn :| dnn in todo;
      FlattenSnoc(dnnMap, order, dnn);
      profiles, order, todo := profiles + dnnMap[dnn], order + [dnn], todo - {dnn};
    }
    assert dnnMap.Keys - todo == dnnMap.Keys;
  }

  method GetDeletedDeviceGroupsList(slice: Slice, prev: Slice) returns (deleted: seq<string>)
    ensures deleted == RemovedNames(slice, prev)
  {
    if |prev.groups| == 0 { return []; }
    if |slice.groups| == 0 { return prev.groups; }
    deleted := [];
    for i := 0 to |prev.groups|
      invariant deleted == NotIn(prev.groups[..i], slice.groups)
    {
      assert prev.groups[..i + 1][..i] == prev.groups[..i];
      if prev.groups[i] !in slice.groups {
        deleted := deleted + [prev.groups[i]];
      }
    }
    assert prev.groups[..|prev.groups|] == prev.groups;
  }

  method GetDeletedImsisList(g: Group, prev: Option<Group>) returns (deleted: seq<string>)
    ensures deleted == RemovedImsis(g, prev)
  {
    deleted := [];
    if prev.None? { return; }
    var had := prev.value.imsis;
    for i := 0 to |had|
      invariant deleted == NotIn(had[..i], g.imsis)
    {
      assert had[..i + 1][..i] == had[..i];
      var found := false;
      for j := 0 to |g.imsis|
        invariant found <==> had[i] in g.imsis[..j]
      {
        if had[i] == g.imsis[j] { found := true; }
      }
      assert g.imsis[..|g.imsis|] == g.imsis;
      if !found {
        deleted := deleted + [had[i]];
      }
    }
    assert had[..|had|] == had;
  }

  /** The IMSI in a ueId path parameter. */
  function ImsiOf(ueId: string): string { TrimPrefix(ueId, "imsi-") }

  /** The text after "imsi-", or the whole parameter if it does not start so. */
  lemma ImsiOfIs(u: string)
    ensures ImsiOf("imsi-" + u) == u == ImsiOf(UeId(u))
    ensures (|u| < 5 || u[..5] != "imsi-") ==> ImsiOf(u) == u
  {
    assert ("imsi-" + u)[5..] == u;
  }

  method FilterImsis(g: Group, imsi: string) returns (filtered: Group)
    ensures filtered == g.(imsis := NotIn(g.imsis, [imsi]))
  {
    var imsis: seq<string> := [];
    for i := 0 to |g.imsis|
      invariant imsis == NotIn(g.imsis[..i], [imsi])
    {
      assert g.imsis[..i + 1][..i] == g.imsis[..i];
      if g.imsis[i] != imsi {
        imsis := imsis + [g.imsis[i]];
      }
    }
    assert g.imsis[..|g.imsis|] == g.imsis;
    filtered := g.(imsis := imsis);
  }
}
