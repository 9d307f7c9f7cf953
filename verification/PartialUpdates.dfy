/** A top-level $set keeps every stored field that the posted record leaves out: when what is
    stored after a successful request is what was posted, and when the subscribers are
    provisioned from the same group that is stored. */
module PartialUpdates {
  import opened Prelude
  import opened Models
  import opened Provisioning
  import opened ProvisioningTheorems
  import opened RequestSteps
  import Views

  // ---------- slices and groups ----------

  lemma {:induction false} PutSliceStores(slices: seq<Slice>, s: Slice)
    ensures FindSlice(PutSlice(slices, s), s.name)
         == Some(if FindSlice(slices, s.name).Some? then MergeSlice(FindSlice(slices, s.name).value, s) else s)
  {
    if slices != [] && slices[0].name != s.name {
      PutSliceStores(slices[1..], s);
      assert PutSlice(slices, s)[1..] == PutSlice(slices[1..], s);
    }
  }

  lemma {:induction false} PutGroupStores(groups: seq<Group>, g: Group)
    ensures FindGroup(PutGroup(groups, g), g.name)
         == Some(if FindGroup(groups, g.name).Some? then MergeGroup(FindGroup(groups, g.name).value, g) else g)
  {
    if groups != [] && groups[0].name != g.name {
      PutGroupStores(groups[1..], g);
      assert PutGroup(groups, g)[1..] == PutGroup(groups[1..], g);
    }
  }

  /** The request gives MSISDNs, or the store had none. */
  predicate MsisdnsReplaced(groups: seq<Group>, g: Group) {
    g.msisdns != [] || FindGroup(groups, g.name).None? || FindGroup(groups, g.name).value.msisdns == []
  }

  /** The request gives IP domains, or the store had none. */
  predicate DomainsReplaced(groups: seq<Group>, g: Group) {
    g.domains != [] || FindGroup(groups, g.name).None? || FindGroup(groups, g.name).value.domains == []
  }

  /** The request names a site, or the store had none. */
  predicate SiteReplaced(groups: seq<Group>, g: Group) {
    g.siteInfo != "" || FindGroup(groups, g.name).None? || FindGroup(groups, g.name).value.siteInfo == ""
  }

  /** The request names an IP domain, or the store had no name. */
  predicate DomainNameReplaced(groups: seq<Group>, g: Group) {
    g.ipDomainName != "" || FindGroup(groups, g.name).None? || FindGroup(groups, g.name).value.ipDomainName == ""
  }

  /** The posted slice is what is stored if and only if it has a rule, or there was no rule. */
  lemma PostedSliceIsStoredIff(st: Stored, s: Slice, f: Unread, after: Stored)
    requires PostSlice(st, s, f) == Some(after)
    ensures FindSlice(after.slices, s.name) == Some(s)
       <==> s.rules != [] || FindSlice(st.slices, s.name).None? || FindSlice(st.slices, s.name).value.rules == []
  {
    PutSliceStores(st.slices, s);
  }

  /** The posted group is what is stored if and only if none of its MSISDNs, site, IP domain name
      and IP domains is empty where the stored one is not. */
  lemma PostedGroupIsStoredIff(st: Stored, g: Group, f: Unread, c: Option<Slice>, after: Stored)
    requires PostGroup(st, g, f, c) == Some(after)
    ensures FindGroup(after.groups, g.name) == Some(g)
       <==> (MsisdnsReplaced(st.groups, g) && SiteReplaced(st.groups, g)
             && DomainNameReplaced(st.groups, g) && DomainsReplaced(st.groups, g))
  {
    PutGroupStores(st.groups, g);
  }

  /** Posting a slice without rules over the same slice with one changes nothing stored. */
  lemma LastRuleStays(s: Slice, r: Rule)
    requires s.rules == []
    ensures PutSlice([s.(rules := [r])], s) == [s.(rules := [r])]
    ensures FindSlice(PutSlice([s.(rules := [r])], s), s.name) != Some(s)
  {
    PutSliceStores([s.(rules := [r])], s);
  }

  /** Nor does posting a group that leaves out MSISDNs, site, IP domain name or IP domains over
      one that differs from it in having them. */
  lemma LastDomainStays(g: Group, stored: Group)
    requires g.msisdns == [] && g.siteInfo == "" && g.ipDomainName == "" && g.domains == []
    requires stored == g.(msisdns := stored.msisdns, siteInfo := stored.siteInfo, ipDomainName := stored.ipDomainName,
                          domains := stored.domains)
    requires stored != g
    ensures PutGroup([stored], g) == [stored] && FindGroup(PutGroup([stored], g), g.name) != Some(g)
  {
    PutGroupStores([stored], g);
  }

  /** In particular group "g" of site "site" cannot lose its site. */
  lemma SiteStays()
    ensures var g := Group("g", ["1"], ["1"], "", "", [COUNTER_DOMAIN]);
      PutGroup([g.(siteInfo := "site")], g) == [g.(siteInfo := "site")] != [g]
  {
    var g := Group("g", ["1"], ["1"], "", "", [COUNTER_DOMAIN]);
    PutGroupStores([g.(siteInfo := "site")], g);
    assert |g.siteInfo| != |"site"|;
  }

  /** A refused slice is stored all the same. The store is then as before if and only if it held
      the slice already, up to the rules that the request leaves out. */
  lemma {:induction false} StoringChangesNothingIff(slices: seq<Slice>, s: Slice)
    ensures PutSlice(slices, s) == slices
       <==> FindSlice(slices, s.name).Some? && MergeSlice(FindSlice(slices, s.name).value, s) == FindSlice(slices, s.name).value
  {
    if slices != [] {
      var after := PutSlice(slices, s);
      assert slices == [slices[0]] + slices[1..];
      if slices[0].name == s.name {
        assert after[0] == MergeSlice(slices[0], s);
      } else {
        StoringChangesNothingIff(slices[1..], s);
        assert after[1..] == PutSlice(slices[1..], s);
      }
    }
  }

  /** A slice with SST "x" is refused, and the empty store has it afterwards. */
  lemma RefusedSliceIsStored(s: Slice)
    requires s.id.sst == "x"
    ensures TargetOf(s).None? && PutSlice([], s) == [s] != []
  {
    assert "x"[0] in "x" && !Views.AllDigits("x");
  }

  // ---------- GPSIs ----------

  /** The GPSIs a provisioning request asks for. */
  function PostedGpsis(x: Payload): seq<string> { if x.gpsi != "" then [x.gpsi] else [] }

  /** The AM data has the GPSIs of the request if and only if it gives one, or the document that
      is reused has none. */
  lemma PostedGpsisAreStoredIff(ue: Ue, x: Payload)
    ensures HoldsPayload(Provided(ue, x), x)
    ensures Provided(ue, x).am[Some(x.plmn)].value.gpsis == PostedGpsis(x) <==> x.gpsi != "" || OldGpsis(ue, x.plmn) == []
  {
    ProvidedHolds(ue, x);
    ProvidedFirst(ue, x);
  }

  /** A subscriber that had a GPSI keeps it when it is provisioned without one. */
  lemma OldGpsiStays(ue: Ue, x: Payload, y: Payload)
    requires x.plmn == y.plmn && x.gpsi != "" && y.gpsi == ""
    ensures HoldsPayload(Provided(Provided(ue, x), y), y)
    ensures Provided(Provided(ue, x), y).am[Some(y.plmn)].value.gpsis == [x.gpsi] != PostedGpsis(y)
  {
    ProvidedHolds(Provided(ue, x), y);
    ProvidedFirst(ue, x);
    ProvidedAgain(ue, x, [x.gpsi], y);
  }

  // ---------- the group that is stored and the group that is provisioned ----------

  function DnnSet(domains: seq<IpDomain>): set<string> { set d | d in domains :: d.dnn }

  /** Each DNN has a domain with QoS. */
  predicate EveryDnnHasQos(domains: seq<IpDomain>) {
    forall d :: d in domains ==> exists e :: e in domains && e.dnn == d.dnn && e.qos.Some?
  }

  lemma {:induction false} PostedQosByDnnIs(domains: seq<IpDomain>, dnn: string)
    ensures dnn in PostedQosByDnn(domains) <==> exists d :: d in domains && d.dnn == dnn && d.qos.Some?
  {
    if domains != [] {
      assert domains == domains[..|domains| - 1] + [domains[|domains| - 1]];
      PostedQosByDnnIs(domains[..|domains| - 1], dnn);
    }
  }

  lemma PostedDnnsAreAllIff(domains: seq<IpDomain>)
    ensures PostedQosByDnn(domains).Keys == DnnSet(domains) <==> EveryDnnHasQos(domains)
  {
    var m := PostedQosByDnn(domains);
    forall dnn ensures dnn in m <==> exists d :: d in domains && d.dnn == dnn && d.qos.Some? {
      PostedQosByDnnIs(domains, dnn);
    }
    if m.Keys == DnnSet(domains) {
      forall d | d in domains ensures exists e :: e in domains && e.dnn == d.dnn && e.qos.Some? {
        assert d.dnn in DnnSet(domains);
        assert d.dnn in m.Keys;
      }
    }
  }

  /** The last event that storing a group has for one of its authorised IMSIs. */
  lemma LastPostedEvent(auth: set<string>, g: Group, prev: Option<Group>, t: Target, i: nat) returns (k: nat)
    requires i < |g.imsis| && UeId(g.imsis[i]) in auth
    ensures var mine := Mine(PostedGroupEvents(auth, g, prev, t), UeId(g.imsis[i]));
      k < |g.imsis| && g.imsis[k] == g.imsis[i] && mine != [] && mine[|mine| - 1] == GroupEvent(g, PostedQosByDnn(g.domains), t, k)
  {
    hide PayloadOf, GroupEvents, RemoveEvents, PostedQosByDnn, RemovedImsis;
    var u, m := UeId(g.imsis[i]), PostedQosByDnn(g.domains);
    var provide, gone := GroupEvents(auth, g, m, t, |g.imsis|), RemoveEvents(RemovedImsis(g, prev), t.plmn);
    MineConcat(provide, gone, u);
    NotRemoved(g, prev, t.plmn, i);
    var e := GroupEvent(g, m, t, i);
    GroupEventsAre(auth, g, m, t, |g.imsis|, e);
    MineMembers(provide, u, e);
    var mine := Mine(provide, u);
    assert mine[|mine| - 1] in mine;
    MineMembers(provide, u, mine[|mine| - 1]);
    k := GroupEventOwner(auth, g, m, t, g.imsis[i], mine[|mine| - 1]);
  }

  lemma NotRemoved(g: Group, prev: Option<Group>, plmn: string, i: nat)
    requires i < |g.imsis|
    ensures Mine(RemoveEvents(RemovedImsis(g, prev), plmn), UeId(g.imsis[i])) == []
  {
    var gone := RemovedImsis(g, prev);
    var mine := Mine(RemoveEvents(gone, plmn), UeId(g.imsis[i]));
    if mine != [] {
      assert mine[0] in mine;
      MineMembers(RemoveEvents(gone, plmn), UeId(g.imsis[i]), mine[0]);
      RemoveEventsAre(gone, plmn, mine[0]);
      var imsi :| imsi in gone && mine[0] == Remove(UeId(imsi), plmn);
      UeIdInjective(imsi, g.imsis[i]);
      if prev.Some? { NotInMembers(prev.value.imsis, g.imsis, imsi); }
    }
  }

  /** After a group is stored its authorised subscribers hold what it gives them under the slice
      that was found for it. */
  lemma PostedGroupProvisions(st: Stored, g: Group, f: Unread, c: Slice, after: Stored, i: nat) returns (k: nat)
    requires PostGroup(st, g, f, Some(c)) == Some(after)
    requires i < |g.imsis| && UeId(g.imsis[i]) in st.auth - f.auth
    ensures k < |g.imsis| && g.imsis[k] == g.imsis[i] && TargetOf(c).Some?
    ensures HoldsPayload(Get(after.prov, UeId(g.imsis[i])), GroupEvent(g, PostedQosByDnn(g.domains), TargetOf(c).value, k).payload)
  {
    hide QosByDnn, PostedQosByDnn, GroupEvents, RemoveEvents, RemovedImsis, Play, Mine, HoldsPayload, AllClassed, FindGroup, PutGroup;
    var t, auth := TargetOf(c).value, st.auth - f.auth;
    var prev := PreviousGroup(st.groups, g.name, f);
    var u := UeId(g.imsis[i]);
    k := LastPostedEvent(auth, g, prev, t, i);
    var es := PostedGroupEvents(auth, g, prev, t);
    EachUeByItself(st.prov, es, u);
    LastEventHolds(Get(st.prov, u), Mine(es, u));
  }

  /** After a group is stored its authorised subscribers hold the DNNs of the posted domains that
      have QoS. These are the DNNs of the stored group if and only if every posted DNN has a
      domain with QoS, and no domain was posted only where none was stored. */
  lemma ProvisionedDnnsAreStoredIff(st: Stored, g: Group, f: Unread, c: Slice, after: Stored, i: nat) returns (x: Payload)
    requires PostGroup(st, g, f, Some(c)) == Some(after)
    requires i < |g.imsis| && UeId(g.imsis[i]) in st.auth - f.auth
    ensures HoldsPayload(Get(after.prov, UeId(g.imsis[i])), x) && x.plmn == PlmnText(c.plmn)
    ensures x.dnns.Keys == PostedQosByDnn(g.domains).Keys
    ensures FindGroup(after.groups, g.name).Some?
    ensures x.dnns.Keys == DnnSet(FindGroup(after.groups, g.name).value.domains)
       <==> EveryDnnHasQos(g.domains) && DomainsReplaced(st.groups, g)
  {
    hide QosByDnn, PostedQosByDnn, GroupEvents, RemoveEvents, RemovedImsis, Play, Mine, HoldsPayload, AllClassed, FindGroup, PutGroup, DnnSet;
    var t, auth, m := TargetOf(c).value, st.auth - f.auth, PostedQosByDnn(g.domains);
    var k := PostedGroupProvisions(st, g, f, c, after, i);
    x := GroupEvent(g, m, t, k).payload;
    GroupEventsAre(auth, g, m, t, |g.imsis|, GroupEvent(g, m, t, i));
    ConfigKeys(m);
    PutGroupStores(st.groups, g);
    SameDnnsIff(st.groups, g);
  }

  lemma SameDnnsIff(groups: seq<Group>, g: Group)
    ensures FindGroup(PutGroup(groups, g), g.name).Some?
    ensures PostedQosByDnn(g.domains).Keys == DnnSet(FindGroup(PutGroup(groups, g), g.name).value.domains)
       <==> EveryDnnHasQos(g.domains) && DomainsReplaced(groups, g)
  {
    PutGroupStores(groups, g);
    PostedDnnsAreAllIff(g.domains);
    var stored := FindGroup(PutGroup(groups, g), g.name).value;
    if g.domains == [] && stored.domains != [] {
      assert stored.domains[0].dnn in DnnSet(stored.domains);
    }
  }

  /** A concrete case: group "old" is stored with DNN "internet" and posted again without IP
      domains. The store keeps the domain, and IMSI 1 is provisioned with no DNN. */
  lemma DnnsCanDiffer() returns (after: Stored, x: Payload)
    ensures MayChoose(COUNTER_STORE.slices, "old", AllRead, Some(OLD_SLICE))
    ensures PostGroup(COUNTER_STORE, OLD_GROUP.(domains := []), AllRead, Some(OLD_SLICE)) == Some(after)
    ensures FindGroup(after.groups, "old") == Some(OLD_GROUP) && DnnSet(OLD_GROUP.domains) == {"internet"}
    ensures HoldsPayload(Get(after.prov, UeId("1")), x) && x.dnns == map[]
  {
    hide Play, PostedGroupEvents, GroupEvents, HoldsPayload, TargetOf;
    var st, g := COUNTER_STORE, OLD_GROUP.(domains := []);
    CounterTarget(OLD_SLICE);
    CounterGroups();
    after := PostGroup(st, g, AllRead, Some(OLD_SLICE)).value;
    PutGroupStores(st.groups, g);
    assert g.imsis[0] == "1" && st.auth - {} == st.auth;
    x := ProvisionedDnnsAreStoredIff(st, g, AllRead, OLD_SLICE, after, 0);
    assert PostedQosByDnn(g.domains) == map[];
  }
}
