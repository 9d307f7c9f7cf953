/** The published configuration and the loops that rebuild it. Maps are walked in an
    arbitrary order (`:|`), and sorts return an arbitrary sorted permutation. */
module InMemory {
  import opened Prelude
  import opened Models
  import opened Views
  import Bitrate

  lemma IdsByPlmnStep(slices: seq<Slice>, i: nat)
    requires i < |slices|
    ensures var s := slices[i]; var before := IdsByPlmn(slices[..i]);
      IdsByPlmn(slices[..i + 1]) == before[s.plmn := (if s.plmn in before then before[s.plmn] else {}) + {s.id}]
  {
    var s := slices[i];
    var before, after := IdsByPlmn(slices[..i]), IdsByPlmn(slices[..i + 1]);
    assert slices[..i + 1] == slices[..i] + [s];
    forall p | p in after ensures after[p] == if p == s.plmn then (if p in before then before[p] else {}) + {s.id} else before[p] {
      forall id ensures id in after[p] <==> (p == s.plmn && id == s.id) || (p in before && id in before[p]) {}
    }
  }

  lemma TacsByKeyStep(slices: seq<Slice>, i: nat)
    requires i < |slices|
    ensures var s := slices[i]; var k := AmKey(s.plmn, s.id); var before := TacsByKey(slices[..i]);
      TacsByKey(slices[..i + 1]) == before[k := (if k in before then before[k] else {}) + TacsOfGnbs(s.gnbs)]
  {
    var s := slices[i];
    var k := AmKey(s.plmn, s.id);
    var before, after := TacsByKey(slices[..i]), TacsByKey(slices[..i + 1]);
    assert slices[..i + 1] == slices[..i] + [s];
    forall k' | k' in after ensures after[k'] == if k' == k then (if k in before then before[k] else {}) + TacsOfGnbs(s.gnbs) else before[k'] {
      forall t ensures t in after[k'] <==> (k' == k && t in TacsOfGnbs(s.gnbs)) || (k' in before && t in before[k']) {}
    }
  }

  /** The S-NSSAIs of a set of raw ids, in whatever order the set is walked. */
  method ParseAll(ids: set<SliceId>) returns (list: seq<Snssai>)
    ensures ListsSnssais(ids, list)
  {
    list := [];
    var remaining := ids;
    assert forall x :: Spellings(ids - remaining, x) == {};
    while remaining != {}
      invariant remaining <= ids
      invariant ListsSnssais(ids - remaining, list)
    {
      var id :| id in remaining;
      forall x { SpellingsStep(ids - remaining, id, x); }
      assert ids - (remaining - {id}) == (ids - remaining) + {id};
      var parsed := ParseSnssai(id);
      if parsed.Some? {
        list := list + [parsed.value];
      }
      remaining := remaining - {id};
    }
    assert ids - remaining == ids;
  }

  ghost predicate UnsortedListing(done: set<Plmn>, m: map<Plmn, set<SliceId>>, list: seq<PlmnSnssai>) {
    && (forall i, j :: 0 <= i < j < |list| ==> list[i].plmn != list[j].plmn)
    && (forall e :: e in list ==> e.plmn in done && e.plmn in m && e.snssais != [] && ListsSnssais(m[e.plmn], e.snssais))
    && (forall p, id :: p in done && p in m && id in m[p] && ParseSnssai(id).Some? ==> exists e :: e in list && e.plmn == p)
  }

  method ConvertPlmnMapToSortedList(plmnMap: map<Plmn, set<SliceId>>) returns (list: seq<PlmnSnssai>)
    ensures IsSnssaiListing(plmnMap, list)
  {
    list := [];
    var remaining := plmnMap.Keys;
    while remaining != {}
      invariant remaining <= plmnMap.Keys
      invariant UnsortedListing(plmnMap.Keys - remaining, plmnMap, list)
    {
      var p :| p in remaining;
      var snssais := ParseAll(plmnMap[p]);
      NonEmptyListing(plmnMap[p], snssais);
      ghost var before := list;
      remaining := remaining - {p};
      if |snssais| != 0 {
        list := list + [PlmnSnssai(p, snssais)];
        assert forall e :: e in before ==> e in list;
        assert list[|list| - 1] in list;
      }
    }
    list := SortPlmnSnssaiConfig(list, plmnMap);
  }

  method SortPlmnSnssaiConfig(config: seq<PlmnSnssai>, ghost m: map<Plmn, set<SliceId>>) returns (list: seq<PlmnSnssai>)
    requires UnsortedListing(m.Keys, m, config)
    ensures IsSnssaiListing(m, list)
  {
    PlmnOrder();
    SnssaiOrder();
    TotalIsWeak(SnssaiLess);
    KeyOrder(PlmnSnssaiLess, (e: PlmnSnssai) => e.plmn, PlmnLess);
    list := SortSlice(PlmnSnssaiLess, config);
    SortOfMembers(PlmnSnssaiLess, config, list);
    SortedDistinctKeys(config, list);
    ghost var sorted := list;
    for i := 0 to |list|
      invariant |list| == |sorted|
      invariant forall k :: 0 <= k < |list| ==> list[k].plmn == sorted[k].plmn && multiset(list[k].snssais) == multiset(sorted[k].snssais)
      invariant forall k :: 0 <= k < i ==> Sorted(SnssaiLess, list[k].snssais)
    {
      var snssais := SortSlice(SnssaiLess, list[i].snssais);
      list := list[i := list[i].(snssais := snssais)];
    }
    SortedInside(m, sorted, list);
  }

  lemma SortedDistinctKeys(config: seq<PlmnSnssai>, list: seq<PlmnSnssai>)
    requires IsSortOf(PlmnSnssaiLess, config, list)
    requires forall i, j :: 0 <= i < j < |config| ==> config[i].plmn != config[j].plmn
    ensures StrictlySorted(PlmnSnssaiLess, list)
  {
    PlmnOrder();
    SortOfMembers(PlmnSnssaiLess, config, list);
    EnumerationMultiset(config, set e | e in config);
    forall i, j | 0 <= i < j < |list| ensures PlmnSnssaiLess(list[i], list[j]) {
      assert list[i] in config && list[j] in config;
      assert list[i] != list[j] by {
        assert multiset(list)[list[i]] <= 1;
        if list[i] == list[j] { OccursTwice(list, i, j); }
      }
      assert !PlmnLess(list[j].plmn, list[i].plmn);
    }
  }

  lemma SortedInside(m: map<Plmn, set<SliceId>>, sorted: seq<PlmnSnssai>, list: seq<PlmnSnssai>)
    requires UnsortedListing(m.Keys, m, sorted) && StrictlySorted(PlmnSnssaiLess, sorted)
    requires |list| == |sorted|
    requires forall k :: 0 <= k < |list| ==> list[k].plmn == sorted[k].plmn && multiset(list[k].snssais) == multiset(sorted[k].snssais)
    requires forall k :: 0 <= k < |list| ==> Sorted(SnssaiLess, list[k].snssais)
    ensures IsSnssaiListing(m, list)
  {
    forall e | e in list ensures IsSnssaiEntry(m, e) {
      var k :| 0 <= k < |list| && list[k] == e;
      assert sorted[k] in sorted;
      assert |multiset(e.snssais)| == |multiset(sorted[k].snssais)| > 0;
    }
    forall p, id | p in m && id in m[p] && ParseSnssai(id).Some? ensures exists e :: e in list && e.plmn == p {
      var e :| e in sorted && e.plmn == p;
      var k :| 0 <= k < |sorted| && sorted[k] == e;
      assert list[k] in list && list[k].plmn == p;
    }
  }

  // ---------- access and mobility ----------

  /** The TACs of a set, in whatever order the set is walked. */
  method ListTacs(tacs: set<string>) returns (list: seq<string>)
    ensures Enumerates(list, tacs)
  {
    list := [];
    var remaining := tacs;
    while remaining != {}
      invariant remaining <= tacs
      invariant Enumerates(list, tacs - remaining)
    {
      var t :| t in remaining;
      list := list + [t];
      remaining := remaining - {t};
    }
    assert tacs - remaining == tacs;
  }

  /** An entry whose TACs are right but not yet sorted. */
  ghost predicate UnsortedEntry(tacs: map<AmKey, set<string>>, k: AmKey, e: AccessAndMobility) {
    && k in tacs && Enumerates(e.tacs, tacs[k])
    && AmEntry(tacs, k) == AccessAndMobility(e.plmn, e.snssai, SortedSet(tacs[k]))
  }

  ghost function WithSortedTacs(e: AccessAndMobility): AccessAndMobility {
    e.(tacs := SortedSet(set t | t in e.tacs))
  }

  method ConvertPlmnSnssaiTacsMapToSortedList(tacs: map<AmKey, set<string>>) returns (list: seq<AccessAndMobility>)
    ensures IsAmListing(tacs, list)
  {
    list := [];
    ghost var keys: seq<AmKey> := [];
    var remaining := tacs.Keys;
    while remaining != {}
      invariant remaining <= tacs.Keys
      invariant Enumerates(keys, ParsableKeys(tacs) - remaining)
      invariant |list| == |keys| && forall i :: 0 <= i < |keys| ==> UnsortedEntry(tacs, keys[i], list[i])
    {
      var k :| k in remaining;
      remaining := remaining - {k};
      var parsed := ParseSnssai(k.id);
      if parsed.Some? {
        var tacList := ListTacs(tacs[k]);
        list := list + [AccessAndMobility(k.plmn, parsed.value, tacList)];
        keys := keys + [k];
      }
    }
    assert ParsableKeys(tacs) - remaining == ParsableKeys(tacs);
    list := SortAccessAndMobilityConfig(list, tacs, keys);
  }

  ghost predicate NoRepeats(list: seq<string>) { Enumerates(list, set t | t in list) }

  method SortTacs(config: seq<AccessAndMobility>) returns (list: seq<AccessAndMobility>)
    requires forall e :: e in config ==> NoRepeats(e.tacs)
    ensures |list| == |config| && forall k :: 0 <= k < |list| ==> list[k] == WithSortedTacs(config[k])
  {
    list := config;
    StringOrderIsWeak();
    for i := 0 to |list|
      invariant |list| == |config|
      invariant forall k :: 0 <= k < i ==> list[k] == WithSortedTacs(config[k])
      invariant forall k :: i <= k < |list| ==> list[k] == config[k]
    {
      var tacList := SortSlice(StringLess, list[i].tacs);
      assert NoRepeats(config[i].tacs);
      SortedStrings(config[i].tacs, tacList, set t | t in config[i].tacs);
      list := list[i := list[i].(tacs := tacList)];
    }
  }

  method SortAccessAndMobilityConfig(config: seq<AccessAndMobility>, ghost tacs: map<AmKey, set<string>>, ghost keys: seq<AmKey>)
    returns (list: seq<AccessAndMobility>)
    requires Enumerates(keys, ParsableKeys(tacs)) && |config| == |keys|
    requires forall i :: 0 <= i < |keys| ==> UnsortedEntry(tacs, keys[i], config[i])
    ensures IsAmListing(tacs, list)
  {
    hide AmLess, IsAmListing;
    AmOrder();
    var sorted := SortSlice(AmLess, config);
    SortOfMembers(AmLess, config, sorted);
    forall e | e in sorted ensures NoRepeats(e.tacs) {
      var i :| 0 <= i < |config| && config[i] == e;
      assert UnsortedEntry(tacs, keys[i], e);
    }
    list := SortTacs(sorted);
    SortedTacsListing(tacs, keys, config, sorted, list);
  }

  lemma SortedTacsListing(tacs: map<AmKey, set<string>>, keys: seq<AmKey>, config: seq<AccessAndMobility>,
                          sorted: seq<AccessAndMobility>, list: seq<AccessAndMobility>)
    requires Enumerates(keys, ParsableKeys(tacs)) && |config| == |keys|
    requires forall i :: 0 <= i < |keys| ==> UnsortedEntry(tacs, keys[i], config[i])
    requires IsSortOf(AmLess, config, sorted)
    requires |list| == |sorted| && forall k :: 0 <= k < |list| ==> list[k] == WithSortedTacs(sorted[k])
    ensures IsAmListing(tacs, list)
  {
    assert list == Map(WithSortedTacs, sorted);
    MapPermutation(WithSortedTacs, config, sorted);
    assert Map(WithSortedTacs, config) == AmEntries(tacs, keys) by {
      forall i | 0 <= i < |keys| ensures WithSortedTacs(config[i]) == AmEntry(tacs, keys[i]) {
        assert (set t | t in config[i].tacs) == tacs[keys[i]];
      }
    }
    assert Sorted(AmLess, list);
  }

  method AddTacs(start: map<AmKey, set<string>>, k: AmKey, gnbs: seq<Gnb>) returns (tacs: map<AmKey, set<string>>)
    requires k in start
    ensures tacs == start[k := start[k] + TacsOfGnbs(gnbs)]
  {
    tacs := start;
    for j := 0 to |gnbs|
      invariant tacs.Keys == start.Keys && tacs[k] == start[k] + TacsOfGnbs(gnbs[..j])
      invariant forall k' :: k' in start && k' != k ==> tacs[k'] == start[k']
    {
      assert gnbs[..j + 1] == gnbs[..j] + [gnbs[j]];
      assert TacsOfGnbs(gnbs[..j + 1]) == TacsOfGnbs(gnbs[..j]) + {Bitrate.Itoa(gnbs[j].tac)};
      var tac := Bitrate.Itoa(gnbs[j].tac);
      tacs := tacs[k := tacs[k] + {tac}];
    }
    assert gnbs[..|gnbs|] == gnbs;
  }

  // ---------- the published fields ----------

  class InMemoryConfig {
    var plmn: seq<Plmn>
    var plmnSnssai: seq<PlmnSnssai>
    var accessAndMobility: seq<AccessAndMobility>
    var sessionManagement: seq<SessionManagement>
    var policyControl: seq<PolicyControl>
    var imsiQos: seq<ImsiQosConfig>

    function Snapshot(): Config
      reads this
    {
      Config(plmn, plmnSnssai, accessAndMobility, sessionManagement, policyControl, imsiQos)
    }

    constructor ()
      ensures plmn == [] && plmnSnssai == [] && accessAndMobility == []
      ensures sessionManagement == [] && policyControl == [] && imsiQos == []
    {
      plmn, plmnSnssai, accessAndMobility := [], [], [];
      sessionManagement, policyControl, imsiQos := [], [], [];
    }

    method SyncPlmn(slices: seq<Slice>)
      modifies this`plmn
      ensures IsPlmnView(slices, plmn)
    {
      var plmnSet: set<string> := {};
      var newPlmnConfig: seq<Plmn> := [];
      for i := 0 to |slices|
        invariant newPlmnConfig == FirstPlmns(slices[..i])
        invariant forall key :: key in plmnSet <==> HasKey(newPlmnConfig, key)
      {
        assert slices[..i + 1][..i] == slices[..i];
        var p := slices[i].plmn;
        var key := PlmnKey(p);
        if key !in plmnSet {
          ghost var before := newPlmnConfig;
          plmnSet := plmnSet + {key};
          newPlmnConfig := newPlmnConfig + [p];
          forall k ensures HasKey(newPlmnConfig, k) <==> HasKey(before, k) || k == key {
            if HasKey(before, k) {
              var j :| 0 <= j < |before| && PlmnKey(before[j]) == k;
              assert newPlmnConfig[j] == before[j];
            }
            assert PlmnKey(newPlmnConfig[|before|]) == key;
          }
        }
      }
      assert slices[..|slices|] == slices;
      PlmnOrder();
      TotalIsWeak(PlmnLess);
      plmn := SortSlice(PlmnLess, newPlmnConfig);
    }

    method SyncPlmnSnssai(slices: seq<Slice>)
      modifies this`plmnSnssai
      ensures IsPlmnSnssaiView(slices, plmnSnssai)
    {
      var plmnMap: map<Plmn, set<SliceId>> := map[];
      assert IdsByPlmn(slices[..0]) == plmnMap;
      for i := 0 to |slices|
        invariant plmnMap == IdsByPlmn(slices[..i])
      {
        IdsByPlmnStep(slices, i);
        var p := slices[i].plmn;
        if p !in plmnMap {
          plmnMap := plmnMap[p := {}];
        }
        plmnMap := plmnMap[p := plmnMap[p] + {slices[i].id}];
      }
      assert slices[..|slices|] == slices;
      plmnSnssai := ConvertPlmnMapToSortedList(plmnMap);
    }

    method SyncAccessAndMobility(slices: seq<Slice>)
      modifies this`accessAndMobility
      ensures IsAmView(slices, accessAndMobility)
    {
      var tacs: map<AmKey, set<string>> := map[];
      assert TacsByKey(slices[..0]) == tacs;
      for i := 0 to |slices|
        invariant tacs == TacsByKey(slices[..i])
      {
        TacsByKeyStep(slices, i);
        var s := slices[i];
        var k := AmKey(s.plmn, s.id);
        if k !in tacs {
          tacs := tacs[k := {}];
        }
        tacs := AddTacs(tacs, k, s.gnbs);
      }
      assert slices[..|slices|] == slices;
      accessAndMobility := ConvertPlmnSnssaiTacsMapToSortedList(tacs);
    }

    method SyncSessionManagement(slices: seq<Slice>, groups: map<string, Group>)
      modifies this`sessionManagement
      ensures IsSessionView(slices, groups, sessionManagement)
    {
      var sessions: seq<SessionManagement> := [];
      for i := 0 to |slices|
        invariant sessions == Sessions(slices[..i], groups)
      {
        assert slices[..i + 1][..i] == slices[..i];
        var session := BuildSessionManagementConfig(slices[i], groups);
        if session.Some? {
          sessions := sessions + [session.value];
        }
      }
      assert slices[..|slices|] == slices;
      StringOrder();
      KeyOrder(SessionLess, (e: SessionManagement) => e.sliceName, StringLess);
      sessionManagement := SortSlice(SessionLess, sessions);
    }

    method SyncPolicyControl(slices: seq<Slice>, groups: map<string, Group>)
      modifies this`policyControl
      ensures IsPolicyView(slices, groups, policyControl)
    {
      var configs: seq<PolicyControl> := [];
      for i := 0 to |slices|
        invariant AreEntriesOf(Parsable(slices[..i]), groups, configs)
      {
        assert slices[..i + 1][..i] == slices[..i];
        var config := BuildPolicyControlConfig(slices[i], groups);
        if config.Some? {
          configs := configs + [config.value];
        }
      }
      assert slices[..|slices|] == slices;
      PlmnThenSnssaiOrder();
      KeyOrder(PolicyLess, (e: PolicyControl) => (e.plmn, e.snssai), PlmnThenSnssaiLess);
      policyControl := SortSlice(PolicyLess, configs);
    }

    method SyncImsiQos(groups: map<string, Group>)
      modifies this`imsiQos
      ensures IsQosView(groups, imsiQos)
    {
      var configs: seq<ImsiQosConfig> := [];
      ghost var order: seq<string> := [];
      var remaining := groups.Keys;
      while remaining != {}
        invariant remaining <= groups.Keys
        invariant Enumerates(order, groups.Keys - remaining)
        invariant configs == QosEntries(groups, order)
      {
        var name :| name in remaining;
        remaining := remaining - {name};
        ghost var before := order;
        order := order + [name];
        assert order[..|order| - 1] == before;
        var dg := groups[name];
        ghost var start := configs;
        if |dg.domains| == 0 { continue; }
        for j := 0 to |dg.domains|
          invariant configs == start + GroupQos(dg.imsis, dg.domains[..j])
        {
          assert dg.domains[..j + 1][..j] == dg.domains[..j];
          var d := dg.domains[j];
          var q := ImsiQosOf(d);
          if q.Some? {
            configs := configs + [ImsiQosConfig(dg.imsis, d.dnn, [q.value])];
          }
        }
        assert dg.domains[..|dg.domains|] == dg.domains;
      }
      assert groups.Keys - remaining == groups.Keys;
      StringOrder();
      KeyOrder(QosLess, (e: ImsiQosConfig) => e.dnn, StringLess);
      imsiQos := SortSlice(QosLess, configs);
    }

    /** First match of GET /qos/:dnn/:imsi, where the IMSI may carry its prefix; an empty answer is
        a 404. */
    method GetImsiQosConfig(dnn: string, param: string) returns (qos: seq<ImsiQos>)
      ensures qos == FirstMatch(imsiQos, dnn, TrimPrefix(param, "imsi-"))
    {
      var imsi := TrimPrefix(param, "imsi-");
      qos := [];
      for i := 0 to |imsiQos|
        invariant qos == []
        invariant FirstMatch(imsiQos, dnn, imsi) == FirstMatch(imsiQos[i..], dnn, imsi)
      {
        assert imsiQos[i..][1..] == imsiQos[i + 1..];
        if imsiQos[i].dnn == dnn && imsi in imsiQos[i].imsis {
          qos := imsiQos[i].qos;
          break;
        }
      }
    }
  }

  // ---------- builders of single entries ----------

  method ExtractIpDomains(names: seq<string>, groups: map<string, Group>) returns (ipDomains: seq<IpDomainInfo>)
    ensures ipDomains == IpDomainsOf(names, groups)
  {
    ipDomains := [];
    for i := 0 to |names|
      invariant ipDomains == IpDomainsOf(names[..i], groups)
    {
      assert names[..i + 1][..i] == names[..i];
      if names[i] !in groups { continue; }
      var domains := groups[names[i]].domains;
      ghost var start := ipDomains;
      for j := 0 to |domains|
        invariant ipDomains == start + Map(IpDomainInfoOf, domains[..j])
      {
        var ip := IpDomainInfo(domains[j].dnn, domains[j].dnsPrimary, domains[j].ueIpPool, domains[j].mtu, None);
        if domains[j].pcscfPrimary != "" {
          ip := ip.(pcscf := Some(domains[j].pcscfPrimary));
        }
        ipDomains := ipDomains + [ip];
        assert domains[..j + 1] == domains[..j] + [domains[j]];
        assert Map(IpDomainInfoOf, domains[..j + 1]) == Map(IpDomainInfoOf, domains[..j]) + [ip];
      }
      assert domains[..|domains|] == domains;
      assert IpDomainsOf(names[..i + 1], groups) == start + Map(IpDomainInfoOf, domains);
    }
    assert names[..|names|] == names;
  }

  method GetSupportedDnns(names: seq<string>, groups: map<string, Group>) returns (sorted: seq<string>)
    ensures IsSortOf(StringLess, Dnns(DomainsOf(names, groups)), sorted)
  {
    var dnns: seq<string> := [];
    for i := 0 to |names|
      invariant dnns == Dnns(DomainsOf(names[..i], groups))
    {
      assert names[..i + 1][..i] == names[..i];
      if names[i] !in groups { continue; }
      var domains := groups[names[i]].domains;
      ghost var start := dnns;
      for j := 0 to |domains|
        invariant dnns == start + Dnns(domains[..j])
      {
        dnns := dnns + [domains[j].dnn];
        assert Dnns(domains[..j + 1]) == Dnns(domains[..j]) + [domains[j].dnn];
      }
      assert domains[..|domains|] == domains;
      assert Dnns(DomainsOf(names[..i + 1], groups)) == start + Dnns(domains);
    }
    assert names[..|names|] == names;
    StringOrderIsWeak();
    sorted := SortSlice(StringLess, dnns);
  }

  method ExtractGnbNames(gnbs: seq<Gnb>) returns (sorted: seq<string>)
    ensures sorted == InsertionSort(StringLess, GnbNames(gnbs))
  {
    var names: seq<string> := [];
    for i := 0 to |gnbs|
      invariant names == GnbNames(gnbs[..i])
    {
      names := names + [gnbs[i].name];
      assert GnbNames(gnbs[..i + 1]) == GnbNames(gnbs[..i]) + [gnbs[i].name];
    }
    assert gnbs[..|gnbs|] == gnbs;
    StringOrderIsWeak();
    sorted := SortSlice(StringLess, names);
    StringSortUnique(names, sorted);
  }

  method BuildSessionManagementConfig(s: Slice, groups: map<string, Group>) returns (session: Option<SessionManagement>)
    ensures session == Session(s, groups)
  {
    var parsed := ParseSnssai(s.id);
    if parsed.None? { return None; }
    var ipDomains := ExtractIpDomains(s.groups, groups);
    var gnbNames := ExtractGnbNames(s.gnbs);
    session := Some(SessionManagement(s.name, s.plmn, parsed.value, ipDomains, UpfOf(s.upf), gnbNames));
  }

  method BuildSlicePccRules(s: Slice) returns (sorted: seq<PccRule>)
    ensures IsSortOf(RuleLess, UnsortedRules(s), sorted)
  {
    var rules: seq<PccRule> := [];
    for i := 0 to |s.rules|
      invariant rules == Map(PccRuleOf, s.rules[..i])
    {
      rules := rules + [PccRuleOf(s.rules[i])];
      assert Map(PccRuleOf, s.rules[..i + 1]) == Map(PccRuleOf, s.rules[..i]) + [PccRuleOf(s.rules[i])];
    }
    assert s.rules[..|s.rules|] == s.rules;
    if |rules| == 0 {
      rules := rules + [DefaultRule];
    }
    RuleOrder();
    sorted := SortSlice(RuleLess, rules);
  }

  method BuildPolicyControlConfig(s: Slice, groups: map<string, Group>) returns (policy: Option<PolicyControl>)
    ensures policy.Some? <==> ParseSnssai(s.id).Some?
    ensures policy.Some? ==> IsPolicyEntry(s, groups, policy.value)
  {
    var parsed := ParseSnssai(s.id);
    if parsed.None? { return None; }
    var rules := BuildSlicePccRules(s);
    var dnns := GetSupportedDnns(s.groups, groups);
    policy := Some(PolicyControl(s.plmn, parsed.value, dnns, rules));
  }

  // ---------- the server ----------

  method ReadSlices(raw: seq<Raw<Slice>>) returns (slices: seq<Slice>)
    ensures slices == DecodeSlices(raw)
  {
    slices := [];
    for i := 0 to |raw|
      invariant slices == DecodeSlices(raw[..i])
    {
      assert raw[..i + 1][..i] == raw[..i];
      if raw[i].Bad? { continue; }
      slices := slices + [raw[i].value];
    }
    assert raw[..|raw|] == raw;
  }

  method ReadGroups(raw: seq<Raw<Group>>) returns (groups: map<string, Group>)
    ensures groups == DecodeGroups(raw)
  {
    groups := map[];
    for i := 0 to |raw|
      invariant groups == DecodeGroups(raw[..i])
    {
      assert raw[..i + 1][..i] == raw[..i];
      if raw[i].Bad? { continue; }
      if raw[i].value.name == "" { continue; }
      groups := groups[raw[i].value.name := raw[i].value];
    }
    assert raw[..|raw|] == raw;
  }

  class NFConfigServer {
    const inMemoryConfig: InMemoryConfig

    constructor (config: InMemoryConfig)
      ensures inMemoryConfig == config
    {
      inMemoryConfig := config;
    }

    /** One synchronisation, given what the two database reads return (None for a read error).
        A failed read leaves every published field as it was. */
    method SyncInMemoryConfig(rawSlices: Option<seq<Raw<Slice>>>, rawGroups: Option<seq<Raw<Group>>>) returns (err: bool)
      modifies inMemoryConfig
      ensures err <==> rawSlices.None? || rawGroups.None?
      ensures err ==> inMemoryConfig.Snapshot() == old(inMemoryConfig.Snapshot())
      ensures !err ==> IsProjection(DecodeSlices(rawSlices.value), DecodeGroups(rawGroups.value), inMemoryConfig.Snapshot())
    {
      hide IsPlmnView, IsPlmnSnssaiView, IsAmView, IsSessionView, IsPolicyView, IsQosView, DecodeSlices, DecodeGroups;
      if rawSlices.None? { return true; }
      var slices := ReadSlices(rawSlices.value);
      if rawGroups.None? { return true; }
      var groups := ReadGroups(rawGroups.value);
      inMemoryConfig.SyncPlmn(slices);
      inMemoryConfig.SyncPlmnSnssai(slices);
      inMemoryConfig.SyncAccessAndMobility(slices);
      inMemoryConfig.SyncSessionManagement(slices, groups);
      inMemoryConfig.SyncPolicyControl(slices, groups);
      inMemoryConfig.SyncImsiQos(groups);
      return false;
    }
  }
}
