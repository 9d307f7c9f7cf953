/** What a provisioned subscriber's documents say about its group and slice, field by field. */
module SubscriberContents {
  import opened Prelude
  import opened Models
  import opened DbAdapter
  import opened Documents
  import opened Provisioning
  import opened ProvisioningTheorems
  import opened PartialUpdates
  import StoreTheorems
  import Bitrate
  import Views

  // ---------- totals over the IP domains of a group ----------

  function Up(q: Qos): int { q.uplink }
  function Down(q: Qos): int { q.downlink }

  /** The domain has QoS and, if a DNN is asked for, that DNN. */
  predicate Counts(d: IpDomain, dnn: Option<string>) { d.qos.Some? && (dnn.Some? ==> d.dnn == dnn.value) }

  /** The exact sum of one rate over the domains of a DNN, or over all of them. */
  function Total(domains: seq<IpDomain>, dnn: Option<string>, rate: Qos -> int): int {
    if domains == [] then 0
    else Total(domains[1..], dnn, rate) + if Counts(domains[0], dnn) then rate(domains[0].qos.value) else 0
  }

  lemma {:induction false} TotalSnoc(domains: seq<IpDomain>, d: IpDomain, dnn: Option<string>, rate: Qos -> int)
    ensures Total(domains + [d], dnn, rate) == Total(domains, dnn, rate) + if Counts(d, dnn) then rate(d.qos.value) else 0
  {
    if domains == [] {
      assert domains + [d] == [d] && [d][1..] == [];
    } else {
      assert (domains + [d])[1..] == domains[1..] + [d];
      TotalSnoc(domains[1..], d, dnn, rate);
    }
  }

  /** The printed rate is the total modulo 2^64, and reads back cut down to whole units if the
      total fits 63 bits. */
  ghost predicate ShowsTotal(text: string, total: int) {
    && text == Bitrate.ConvertToString(total % 0x1_0000_0000_0000_0000)
    && (0 <= total < 0x8000_0000_0000_0000 ==> Bitrate.ReadRate(text) == Some(Bitrate.ReadBackValue(total)))
  }

  // ---------- the documents ----------

  /** The SST is that of the slice, a decimal number, cut down to 32 bits; the SD is its SD. */
  ghost predicate ShowsSlice(x: SnssaiModel, s: Slice) {
    && x.sd == s.id.sd && Views.AllDigits(s.id.sst) && Bitrate.ParseUint(s.id.sst) < 0x1_0000_0000
    && exists k :: x.sst == Bitrate.ParseUint(s.id.sst) + k * 0x1_0000_0000
  }

  /** The rates are the sums over all domains; a GPSI given at that position is stored. */
  ghost predicate ShowsAm(am: AmData, s: Slice, g: Group, i: nat) {
    && ShowsSlice(am.snssai, s)
    && ShowsTotal(am.uplink, Total(g.domains, None, Up)) && ShowsTotal(am.downlink, Total(g.domains, None, Down))
    && (i < |g.msisdns| && g.msisdns[i] != "" ==> am.gpsis == [g.msisdns[i]])
  }

  /** The rates are the sums over the domains of the DNN, the 5QI is the least QCI among them. */
  ghost predicate ShowsDnn(c: DnnConfig, g: Group, dnn: string) {
    && ShowsTotal(c.uplink, Total(g.domains, Some(dnn), Up)) && ShowsTotal(c.downlink, Total(g.domains, Some(dnn), Down))
    && (exists d :: d in g.domains && HasClass(d, dnn) && d.qos.value.trafficClass.value.qci == c.qci)
    && (forall d :: d in g.domains && HasClass(d, dnn) ==> c.qci <= d.qos.value.trafficClass.value.qci)
  }

  /** Exactly the DNNs that have a domain with a traffic class. */
  ghost predicate ShowsDnns(dnns: map<string, DnnConfig>, g: Group) {
    && (forall dnn :: dnn in dnns <==> exists d :: d in g.domains && HasClass(d, dnn))
    && (forall dnn :: dnn in dnns ==> ShowsDnn(dnns[dnn], g, dnn))
  }

  /** The five documents of the subscriber at position i of the group, under the slice. */
  ghost predicate ShowsProfile(ue: Ue, s: Slice, g: Group, i: nat) {
    var plmn := s.plmn.mcc + s.plmn.mnc;
    && ue.amPolicy
    && Some(plmn) in ue.am && ue.am[Some(plmn)].Some? && ShowsAm(ue.am[Some(plmn)].value, s, g, i)
    && plmn in ue.sm && ShowsSlice(ue.sm[plmn].snssai, s) && ShowsDnns(ue.sm[plmn].dnns, g)
    && ue.smPolicy == Some(SmPolicy(SnssaiHex(ue.sm[plmn].snssai), ue.sm[plmn].dnns.Keys))
    && plmn in ue.smf && ue.smf[plmn].snssai == SnssaiHex(ue.sm[plmn].snssai)
    && StrictlySorted(StringLess, ue.smf[plmn].dnns) && (forall dnn :: dnn in ue.smf[plmn].dnns <==> dnn in ue.sm[plmn].dnns)
  }

  /** Under the conditions of StoredSliceProvisions the subscriber's documents say what the last
      provisioning group and the slice say. */
  lemma StoredSliceShows(p: Prov, env: Env, slice: Slice, prev: Slice, j: nat, imsi: string) returns (i: nat)
    requires SliceOk(env, slice) && j < |slice.groups|
    requires Provisions(env, slice.groups[j], imsi) && UeId(imsi) in env.auth
    requires forall k :: j < k < |slice.groups| ==> !Provisions(env, slice.groups[k], imsi)
    requires !ListedBy(env, RemovedNames(slice, prev), imsi)
    ensures var g := ReadGroup(env, slice.groups[j]).value;
      i < |g.imsis| && g.imsis[i] == imsi && ShowsProfile(Get(Play(p, SliceEvents(env, slice, prev)), "imsi-" + imsi), slice, g, i)
  {
    hide NameOk, RemovedNames, SliceEvents, Play, ShowsProfile, HoldsPayload, PayloadOf, QosByDnn, TargetOf, ListedBy;
    var g := ReadGroup(env, slice.groups[j]).value;
    StoredSliceProvisions(p, env, slice, prev, j, imsi);
    i :| 0 <= i < |g.imsis| && g.imsis[i] == imsi
      && HoldsPayload(Get(Play(p, SliceEvents(env, slice, prev)), UeId(imsi)), GroupEvent(g, QosByDnn(g.domains), TargetOf(slice).value, i).payload);
    PayloadShows(Get(Play(p, SliceEvents(env, slice, prev)), UeId(imsi)), slice, g, QosByDnn(g.domains), i);
  }

  /** After a group is posted, with a slice that lists it, so do those of its authorised subscribers. */
  lemma PostedGroupShows(st: Stored, g: Group, f: Unread, c: Slice, after: Stored, k: nat) returns (i: nat)
    requires PostGroup(st, g, f, Some(c)) == Some(after)
    requires k < |g.imsis| && UeId(g.imsis[k]) in st.auth - f.auth
    ensures i < |g.imsis| && g.imsis[i] == g.imsis[k] && ShowsProfile(Get(after.prov, "imsi-" + g.imsis[k]), c, g, i)
  {
    hide PostGroup, ShowsProfile, HoldsPayload, PayloadOf, PostedQosByDnn, TargetOf;
    i := PostedGroupProvisions(st, g, f, c, after, k);
    PayloadShows(Get(after.prov, UeId(g.imsis[k])), c, g, PostedQosByDnn(g.domains), i);
  }

  lemma PayloadShows(ue: Ue, s: Slice, g: Group, m: map<string, seq<Qos>>, i: nat)
    requires m == QosByDnn(g.domains) || m == PostedQosByDnn(g.domains)
    requires TargetOf(s).Some? && i < |g.imsis| && HoldsPayload(ue, GroupEvent(g, m, TargetOf(s).value, i).payload)
    ensures ShowsProfile(ue, s, g, i)
  {
    hide QosByDnn, PostedQosByDnn, DnnConfigs, ShowsTotal, ShowsDnns, ShowsSlice, SnssaiHex, SortedSet;
    var x := GroupEvent(g, m, TargetOf(s).value, i).payload;
    SliceShown(s);
    AllProfiles(g.domains);
    RateShown(Profiles(g.domains), g.domains, None);
    DnnsShown(g, m);
    assert x.dnns == DnnConfigs(m);
    SortedSetIs(x.dnns.Keys);
  }

  lemma SortedSetIs(s: set<string>)
    ensures StrictlySorted(StringLess, SortedSet(s)) && forall x :: x in SortedSet(s) <==> x in s
  {
  }

  lemma SliceShown(s: Slice)
    requires TargetOf(s).Some?
    ensures ShowsSlice(TargetOf(s).value.snssai, s)
  {
    var v := Bitrate.ParseUint(s.id.sst);
    var k := if v >= TWO_TO_31 then -1 else 0;
    assert Views.Truncate32(v) == v + k * TWO_TO_32;
  }

  lemma DnnsShown(g: Group, m: map<string, seq<Qos>>)
    requires m == QosByDnn(g.domains) || m == PostedQosByDnn(g.domains)
    ensures ShowsDnns(DnnConfigs(m), g)
  {
    hide QosByDnn, PostedQosByDnn, Bitrate.Aggregate, ShowsDnn;
    forall dnn
      ensures dnn in DnnConfigs(m) <==> exists d :: d in g.domains && HasClass(d, dnn)
      ensures dnn in DnnConfigs(m) ==> ShowsDnn(DnnConfigs(m)[dnn], g, dnn)
    {
      DnnShown(g, m, dnn);
    }
  }

  lemma DnnShown(g: Group, m: map<string, seq<Qos>>, dnn: string)
    requires m == QosByDnn(g.domains) || m == PostedQosByDnn(g.domains)
    ensures dnn in DnnConfigs(m) <==> exists d :: d in g.domains && HasClass(d, dnn)
    ensures dnn in DnnConfigs(m) ==> ShowsDnn(DnnConfigs(m)[dnn], g, dnn)
  {
    hide QosByDnn, PostedQosByDnn, ShowsTotal, Bitrate.Aggregate;
    var qs := ProfilesOf(m, dnn);
    DnnProfiles(g.domains, dnn);
    RateShown(qs, g.domains, Some(dnn));
    Bitrate.AggregateKeepsFirstLeastQci(qs);
    var kept := Bitrate.Aggregate(qs).trafficClass;
    if kept.Some? {
      var k :| 0 <= k < |qs| && qs[k].trafficClass == kept;
      assert qs[k] in qs;
      var d :| d in g.domains && d.dnn == dnn && d.qos == Some(qs[k]);
      assert HasClass(d, dnn);
    }
    forall d | d in g.domains && HasClass(d, dnn)
      ensures kept.Some? && kept.value.qci <= d.qos.value.trafficClass.value.qci && dnn in m
    {
      assert d.qos.value in qs;
    }
  }

  // ---------- sums ----------

  function ProfilesOf(m: map<string, seq<Qos>>, dnn: string): seq<Qos> { if dnn in m then m[dnn] else [] }

  lemma RateShown(qs: seq<Qos>, domains: seq<IpDomain>, dnn: Option<string>)
    requires Bitrate.SumUplink(qs) == Total(domains, dnn, Up) && Bitrate.SumDownlink(qs) == Total(domains, dnn, Down)
    ensures ShowsTotal(Bitrate.ConvertToString(Bitrate.ToUint64(Bitrate.Aggregate(qs).uplink)), Total(domains, dnn, Up))
    ensures ShowsTotal(Bitrate.ConvertToString(Bitrate.ToUint64(Bitrate.Aggregate(qs).downlink)), Total(domains, dnn, Down))
  {
    Bitrate.AggregateRates(qs);
    WrappedTotal(Bitrate.SumUplink(qs));
    WrappedTotal(Bitrate.SumDownlink(qs));
  }

  lemma WrappedTotal(total: int)
    ensures ShowsTotal(Bitrate.ConvertToString(Bitrate.ToUint64(Bitrate.Wrap64(total))), total)
  {
    hide Bitrate.ConvertToString, Bitrate.ReadRate, Bitrate.ReadBackValue;
    assert Bitrate.ToUint64(Bitrate.Wrap64(total)) == total % TWO_TO_64;
    if 0 <= total < TWO_TO_63 { Bitrate.ReadBackIs(total); }
  }

  lemma SumsSnoc(qs: seq<Qos>, q: Qos)
    ensures Bitrate.SumUplink(qs + [q]) == Bitrate.SumUplink(qs) + q.uplink
    ensures Bitrate.SumDownlink(qs + [q]) == Bitrate.SumDownlink(qs) + q.downlink
  {
    assert (qs + [q])[..|qs|] == qs;
  }

  lemma {:induction false} AllProfiles(domains: seq<IpDomain>)
    ensures Bitrate.SumUplink(Profiles(domains)) == Total(domains, None, Up)
    ensures Bitrate.SumDownlink(Profiles(domains)) == Total(domains, None, Down)
  {
    if domains != [] {
      var front, d := domains[..|domains| - 1], domains[|domains| - 1];
      assert domains == front + [d];
      AllProfiles(front);
      TotalSnoc(front, d, None, Up);
      TotalSnoc(front, d, None, Down);
      if d.qos.Some? {
        SumsSnoc(Profiles(front), d.qos.value);
      } else {
        assert Profiles(domains) == Profiles(front);
      }
    }
  }

  lemma NoTotal(dnn: string)
    ensures Bitrate.SumUplink([]) == Total([], Some(dnn), Up) && Bitrate.SumDownlink([]) == Total([], Some(dnn), Down)
  {
  }

  /** Both DNN maps hold the profiles of the DNN's domains. */
  lemma {:induction false} DnnProfiles(domains: seq<IpDomain>, dnn: string)
    ensures ProfilesOf(QosByDnn(domains), dnn) == ProfilesOf(PostedQosByDnn(domains), dnn)
    ensures var qs := ProfilesOf(QosByDnn(domains), dnn);
      && Bitrate.SumUplink(qs) == Total(domains, Some(dnn), Up) && Bitrate.SumDownlink(qs) == Total(domains, Some(dnn), Down)
      && (forall q :: q in qs <==> exists d :: d in domains && d.dnn == dnn && d.qos == Some(q))
  {
    hide Bitrate.SumUplink, Bitrate.SumDownlink, Total;
    if domains == [] {
      NoTotal(dnn);
    } else {
      var front, d := domains[..|domains| - 1], domains[|domains| - 1];
      assert domains == front + [d];
      DnnProfiles(front, dnn);
      TotalSnoc(front, d, Some(dnn), Up);
      TotalSnoc(front, d, Some(dnn), Down);
      var qs := ProfilesOf(QosByDnn(front), dnn);
      if d.qos.Some? && d.dnn == dnn { SumsSnoc(qs, d.qos.value); }
    }
  }

  // ---------- the stored documents ----------

  /** Exactly one AM and one SM document of the subscriber under the PLMN, with these contents. */
  ghost predicate Stores(t: Tables, u: string, s: Slice, g: Group, i: nat) {
    var plmn := s.plmn.mcc + s.plmn.mnc;
    && (exists am :: ShowsAm(am, s, g, i) && StoreTheorems.OnlyMatch(t.am, AmOfUePlmn(u, plmn), AmDoc(u, Some(plmn), Some(am))))
    && (exists sm: SmData :: ShowsSlice(sm.snssai, s) && ShowsDnns(sm.dnns, g)
          && StoreTheorems.OnlyMatch(t.sm, OfUePlmn(u, plmn), PlmnDoc(u, plmn, sm)))
  }

  lemma ProfileIsStored(t: Tables, p: Prov, u: string, s: Slice, g: Group, i: nat)
    requires Represents(t, p) && ShowsProfile(Get(p, u), s, g, i)
    ensures Stores(t, u, s, g, i)
  {
    hide Represents, StoreTheorems.OnlyMatch, ShowsAm, ShowsDnns, ShowsSlice;
    var plmn := s.plmn.mcc + s.plmn.mnc;
    StoreTheorems.AmStored(t, p, u, plmn);
    StoreTheorems.SmStored(t, p, u, plmn);
    var am, sm := Get(p, u).am[Some(plmn)].value, Get(p, u).sm[plmn];
    assert ShowsAm(am, s, g, i) && ShowsDnns(sm.dnns, g);
  }

  /** What a successful POST of a slice stores for a subscriber, from its last provisioning group. */
  lemma SliceDocuments(t: Tables, st: Stored, slice: Slice, f: Unread, after: Stored, j: nat, imsi: string) returns (i: nat)
    requires PostSlice(st, slice, f) == Some(after) && Represents(t, after.prov) && j < |slice.groups|
    requires Provisions(EnvOf(st, f), slice.groups[j], imsi) && UeId(imsi) in st.auth - f.auth
    requires forall k :: j < k < |slice.groups| ==> !Provisions(EnvOf(st, f), slice.groups[k], imsi)
    requires !ListedBy(EnvOf(st, f), RemovedNames(slice, PreviousSlice(st.slices, slice.name, f)), imsi)
    ensures var g := ReadGroup(EnvOf(st, f), slice.groups[j]).value;
      i < |g.imsis| && g.imsis[i] == imsi && Stores(t, "imsi-" + imsi, slice, g, i)
  {
    hide SliceOk, RemovedNames, SliceEvents, Play, ShowsProfile, ListedBy, Represents, Stores;
    var prev := PreviousSlice(st.slices, slice.name, f);
    i := StoredSliceShows(st.prov, EnvOf(st, f), slice, prev, j, imsi);
    ProfileIsStored(t, after.prov, "imsi-" + imsi, slice, ReadGroup(EnvOf(st, f), slice.groups[j]).value, i);
  }

  /** What a successful POST of a group stores for its authorised subscribers if some slice lists
      it and the slices can be read: whichever slice is found, it lists the group. */
  lemma GroupDocuments(t: Tables, st: Stored, g: Group, f: Unread, chosen: Option<Slice>, after: Stored, k: nat) returns (c: Slice, i: nat)
    requires PostGroup(st, g, f, chosen) == Some(after) && MayChoose(st.slices, g.name, f, chosen) && Represents(t, after.prov)
    requires !f.slices && exists s :: s in st.slices && g.name in s.groups
    requires k < |g.imsis| && UeId(g.imsis[k]) in st.auth - f.auth
    ensures c in st.slices && g.name in c.groups
    ensures i < |g.imsis| && g.imsis[i] == g.imsis[k] && Stores(t, "imsi-" + g.imsis[k], c, g, i)
  {
    hide PostGroup, ShowsProfile, Represents, Stores;
    c := chosen.value;
    i := PostedGroupShows(st, g, f, c, after, k);
    ProfileIsStored(t, after.prov, "imsi-" + g.imsis[k], c, g, i);
  }

  // ---------- the S-NSSAI as text ----------

  /** The value of a lower-case hexadecimal text. */
  function ReadHex(s: string): Option<int> {
    if s == [] then Some(0)
    else
      var front, c := ReadHex(s[..|s| - 1]), s[|s| - 1];
      if front.None? then None
      else if '0' <= c <= '9' then Some(front.value * 16 + (c as int - '0' as int))
      else if 'a' <= c <= 'f' then Some(front.value * 16 + (c as int - 'a' as int + 10))
      else None
  }

  lemma {:induction false} HexReadsBack(n: nat)
    ensures ReadHex(Hex(n)) == Some(n) && Hex(n) != []
    ensures if n < 16 then |Hex(n)| == 1 else if n < 256 then |Hex(n)| == 2 else |Hex(n)| > 2
  {
    if n < 16 {
      assert Hex(n)[..0] == [];
    } else {
      HexReadsBack(n / 16);
      assert Hex(n)[..|Hex(n)| - 1] == Hex(n / 16);
    }
  }

  /** An SST is written in lower-case hexadecimal digits, exactly two for one of eight bits and more
      for a larger one, with a sign if it is negative, and the SD follows. */
  lemma SnssaiHexIs(x: SnssaiModel)
    ensures |SnssaiHex(x)| >= |x.sd| + 2
    ensures var n := |SnssaiHex(x)| - |x.sd|;
      && SnssaiHex(x)[n..] == x.sd
      && (0 <= x.sst < 256 ==> n == 2) && (x.sst >= 256 ==> n > 2)
      && (x.sst >= 0 ==> ReadHex(SnssaiHex(x)[..n]) == Some(x.sst))
      && (x.sst < 0 ==> SnssaiHex(x)[0] == '-' && ReadHex(SnssaiHex(x)[1..n]) == Some(0 - x.sst))
  {
    var v: int := x.sst;
    var n := |SnssaiHex(x)| - |x.sd|;
    if v < 0 {
      HexReadsBack(-v);
      assert SnssaiHex(x)[1..n] == Hex(-v);
    } else {
      HexReadsBack(v);
      if v < 16 {
        assert SnssaiHex(x)[..n] == "0" + Hex(v) && ("0" + Hex(v))[..1] == "0" && "0"[..0] == [] && Hex(v)[..0] == [];
      } else {
        assert SnssaiHex(x)[..n] == Hex(v);
      }
    }
  }
}
