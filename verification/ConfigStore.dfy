/** The configuration database and the request handlers that write it. The ghost field prov is
    what the five provisioned collections hold per subscriber; every handler is proved against
    the events of Provisioning. Each proof hides the definitions it does not need. */
module ConfigStore {
  import opened Prelude
  import opened Models
  import opened DbAdapter
  import opened Provisioning
  import opened Documents
  import opened NamedRecords
  import opened RequestSteps
  import opened RequestData
  import Bitrate

  class Database {
    /** Whether every write, session and commit succeeds. */
    const reliable: bool
    /** Whether the server offers sessions. */
    const transactions: bool

    var auth: seq<string>
    var amPolicy: seq<string>
    var smPolicy: seq<UeDoc<SmPolicy>>
    var am: seq<AmDoc>
    var sm: seq<PlmnDoc<SmData>>
    var smf: seq<PlmnDoc<SmfSelection>>
    var groups: seq<Group>
    var slices: seq<Slice>
    ghost var prov: Prov

    constructor (reliable: bool, transactions: bool)
      ensures Valid() && this.reliable == reliable && this.transactions == transactions
      ensures auth == [] && groups == [] && slices == [] && prov == map[]
      ensures Documents() == Tables([], [], [], [], [])
    {
      this.reliable, this.transactions := reliable, transactions;
      auth, amPolicy, smPolicy, am, sm, smf, groups, slices := [], [], [], [], [], [], [], [];
      prov := map[];
    }

    ghost function Documents(): Tables
      reads this
    {
      Tables(amPolicy, smPolicy, am, sm, smf)
    }

    /** At most one document per key in every collection, and the records are the documents. */
    ghost predicate Valid()
      reads this
    {
      Represents(Documents(), prov) && Distinct(auth) && UniqueGroups(groups) && UniqueSlices(slices)
    }

    ghost function AuthSet(): set<string>
      reads this
    {
      set u | u in auth
    }

    ghost function State(): Stored
      reads this
    {
      Stored(AuthSet(), prov, groups, slices)
    }

    ghost function EnvNow(f: Unread): Env
      reads this
    {
      EnvOf(State(), f)
    }

    // ---------- the five writers ----------

    method UpdateAmPolicyData(imsi: string) returns (err: bool)
      requires Valid()
      modifies this`amPolicy, this`prov
      ensures Valid() && (reliable ==> !err)
      ensures err ==> prov == old(prov)
      ensures !err ==> prov == old(prov)[UeId(imsi) := Get(old(prov), UeId(imsi)).(amPolicy := true)]
    {
      var u := UeId(imsi);
      var after;
      after, err := PostOne(amPolicy, Named(u), Same, u, reliable);
      if !err {
        AmPolicyPosted(Documents(), prov, u, after);
        amPolicy := after;
        prov := prov[u := Get(prov, u).(amPolicy := true)];
      }
    }

    method UpdateSmPolicyData(snssai: SnssaiModel, dnnMap: map<string, seq<Qos>>, imsi: string) returns (err: bool)
      requires Valid()
      modifies this`smPolicy, this`prov
      ensures Valid() && (reliable ==> !err)
      ensures err ==> prov == old(prov)
      ensures !err ==> prov == old(prov)[UeId(imsi) := Get(old(prov), UeId(imsi)).(smPolicy := Some(SmPolicy(SnssaiHex(snssai), dnnMap.Keys)))]
    {
      hide Represents, Distinct, UniqueGroups, UniqueSlices;
      var dnnData, todo := {}, dnnMap.Keys;
      while todo != {}
        invariant todo <= dnnMap.Keys && dnnData == dnnMap.Keys - todo
        decreases todo
      {
        var dnn :| dnn in todo;
        dnnData, todo := dnnData + {dnn}, todo - {dnn};
      }
      assert dnnData == dnnMap.Keys;
      var u := UeId(imsi);
      var data := SmPolicy(SnssaiHex(snssai), dnnData);
      var after;
      after, err := PostOne(smPolicy, OfUe(u), Becomes(UeDoc(u, data)), UeDoc(u, data), reliable);
      if !err {
        SmPolicyPosted(Documents(), prov, u, data, after);
        smPolicy := after;
        prov := prov[u := Get(prov, u).(smPolicy := Some(data))];
      }
    }

    method UpdateAmProvisionedData(gpsi: string, snssai: SnssaiModel, aggregated: Qos, mcc: string, mnc: string, imsi: string)
      returns (err: bool)
      requires Valid()
      modifies this`am, this`prov
      ensures Valid() && (reliable ==> !err)
      ensures err ==> prov == old(prov)
      ensures var x := PayloadOf(map[], aggregated, Target(snssai, mcc + mnc), gpsi); var ue := Get(old(prov), UeId(imsi));
        !err ==> prov == old(prov)[UeId(imsi) := ue.(am := AmPosted(ue.am, x))] && AmNext(old(am), Post(UeId(imsi), x), am)
    {
      hide Represents, Distinct, UniqueGroups, UniqueSlices;
      var u := UeId(imsi);
      var x := Payload(mcc + mnc, snssai, map[], Bitrate.ConvertToString(Bitrate.ToUint64(aggregated.uplink)),
                       Bitrate.ConvertToString(Bitrate.ToUint64(aggregated.downlink)), gpsi);
      assert DnnConfigs(map[]) == map[];
      var after;
      after, err := PostOne(am, AmReusable(u, mcc + mnc), AmPatch(u, x), NewAm(u, x), reliable);
      if !err {
        AmDataPosted(Documents(), prov, u, x, after);
        am := after;
        prov := prov[u := Get(prov, u).(am := AmPosted(Get(prov, u).am, x))];
      }
    }

    /** No document when some DNN has no traffic class. */
    static method BuildSmProvisionedDataDocument(snssai: SnssaiModel, dnnMap: map<string, seq<Qos>>, mcc: string, mnc: string, imsi: string)
      returns (doc: Option<PlmnDoc<SmData>>)
      ensures doc.Some? <==> AllClassed(dnnMap)
      ensures doc.Some? ==> doc.value == PlmnDoc(UeId(imsi), mcc + mnc, SmData(snssai, DnnConfigs(dnnMap)))
    {
      var configurations: map<string, DnnConfig>, todo := map[], dnnMap.Keys;
      while todo != {}
        invariant todo <= dnnMap.Keys && configurations.Keys == dnnMap.Keys - todo
        invariant forall dnn :: dnn in configurations ==>
                                  Classed(Bitrate.Aggregate(dnnMap[dnn])) && configurations[dnn] == DnnConfigOf(Bitrate.Aggregate(dnnMap[dnn]))
        decreases todo
      {
        var dnn :| dnn in todo;
        var aggregated := Bitrate.AggregateQoS(dnnMap[dnn]);
        if aggregated.trafficClass.None? {
          return None;
        }
        configurations := configurations[dnn := DnnConfigOf(aggregated)];
        todo := todo - {dnn};
      }
      assert configurations == DnnConfigs(dnnMap);
      return Some(PlmnDoc(UeId(imsi), mcc + mnc, SmData(snssai, configurations)));
    }

    method UpdateSmProvisionedData(snssai: SnssaiModel, dnnMap: map<string, seq<Qos>>, mcc: string, mnc: string, imsi: string)
      returns (err: bool)
      requires Valid()
      modifies this`sm, this`prov
      ensures Valid() && (reliable && AllClassed(dnnMap) ==> !err)
      ensures err ==> prov == old(prov)
      ensures var ue := Get(old(prov), UeId(imsi));
        !err ==> AllClassed(dnnMap) && prov == old(prov)[UeId(imsi) := ue.(sm := ue.sm[mcc + mnc := SmData(snssai, DnnConfigs(dnnMap))])]
    {
      hide Represents, Distinct, UniqueGroups, UniqueSlices;
      var u := UeId(imsi);
      var doc := BuildSmProvisionedDataDocument(snssai, dnnMap, mcc, mnc, imsi);
      if doc.None? {
        return true;
      }
      var after;
      after, err := PostOne(sm, OfUePlmn(u, mcc + mnc), Becomes(doc.value), doc.value, reliable);
      if !err {
        SmPosted(Documents(), prov, u, mcc + mnc, doc.value.data, after);
        sm := after;
        prov := prov[u := Get(prov, u).(sm := Get(prov, u).sm[mcc + mnc := doc.value.data])];
      }
    }

    method UpdateSmfSelectionProvisionedData(snssai: SnssaiModel, mcc: string, mnc: string, dnnMap: map<string, seq<Qos>>, imsi: string)
      returns (err: bool)
      requires Valid()
      modifies this`smf, this`prov
      ensures Valid() && (reliable ==> !err)
      ensures err ==> prov == old(prov)
      ensures var ue := Get(old(prov), UeId(imsi));
        !err ==> prov == old(prov)[UeId(imsi) := ue.(smf := ue.smf[mcc + mnc := SmfSelection(SnssaiHex(snssai), SortedSet(dnnMap.Keys))])]
    {
      hide Represents, Distinct, UniqueGroups, UniqueSlices, SortedSet, IsSortOf, StrictWeakOrder, Enumerates;
      var u := UeId(imsi);
      var dnns: seq<string> := KeysInSomeOrder(dnnMap);
      ghost var listed := dnns;
      StringOrderIsWeak();
      dnns := SortSlice(StringLess, dnns);
      SortedStrings(listed, dnns, dnnMap.Keys);
      var data := SmfSelection(SnssaiHex(snssai), dnns);
      var after;
      after, err := PostOne(smf, OfUePlmn(u, mcc + mnc), Becomes(PlmnDoc(u, mcc + mnc, data)), PlmnDoc(u, mcc + mnc, data), reliable);
      if !err {
        SmfPosted(Documents(), prov, u, mcc + mnc, data, after);
        smf := after;
        prov := prov[u := Get(prov, u).(smf := Get(prov, u).smf[mcc + mnc := data])];
      }
    }

    /** The five upserts in turn; a failure leaves the later collections as they were. */
    method UpdatePolicyAndProvisionedData(imsi: string, gpsi: string, snssai: SnssaiModel, dnnMap: map<string, seq<Qos>>,
                                          mcc: string, mnc: string, aggregated: Qos) returns (err: bool)
      requires Valid()
      modifies this`amPolicy, this`smPolicy, this`am, this`sm, this`smf, this`prov
      ensures Valid() && (reliable && AllClassed(dnnMap) ==> !err)
      ensures OnlyTouches(old(prov), prov, {UeId(imsi)})
      ensures !err ==> AllClassed(dnnMap)
      ensures var x := PayloadOf(dnnMap, aggregated, Target(snssai, mcc + mnc), gpsi);
        !err ==> prov == old(prov)[UeId(imsi) := Provided(Get(old(prov), UeId(imsi)), x)]
    {
      hide Valid, AllClassed, AmPosted, PayloadOf, DnnConfigs, Provided, SortedSet, SnssaiHex;
      ghost var p, u := prov, UeId(imsi);
      ghost var t := Target(snssai, mcc + mnc);
      ghost var x, y := PayloadOf(dnnMap, aggregated, t, gpsi), PayloadOf(map[], aggregated, t, gpsi);
      ghost var e0 := Get(p, u);
      ghost var e1 := e0.(amPolicy := true);
      ghost var e2 := e1.(smPolicy := Some(SmPolicy(SnssaiHex(snssai), dnnMap.Keys)));
      ghost var e3 := e2.(am := AmPosted(e2.am, y));
      ghost var e4 := e3.(sm := e3.sm[mcc + mnc := SmData(snssai, DnnConfigs(dnnMap))]);
      ghost var e5 := e4.(smf := e4.smf[mcc + mnc := SmfSelection(SnssaiHex(snssai), SortedSet(dnnMap.Keys))]);
      Overwritten(p, u, e1, e2);
      Overwritten(p, u, e2, e3);
      Overwritten(p, u, e3, e4);
      Overwritten(p, u, e4, e5);
      err := UpdateAmPolicyData(imsi);
      if err { return; }
      err := UpdateSmPolicyData(snssai, dnnMap, imsi);
      if err { return; }
      err := UpdateAmProvisionedData(gpsi, snssai, aggregated, mcc, mnc, imsi);
      if err { return; }
      err := UpdateSmProvisionedData(snssai, dnnMap, mcc, mnc, imsi);
      if err { return; }
      err := UpdateSmfSelectionProvisionedData(snssai, mcc, mnc, dnnMap, imsi);
      if err { return; }
      PayloadParts(dnnMap, aggregated, t, gpsi);
      ConfigKeys(dnnMap);
      FiveUpserts(e0, x, y);
    }

    // ---------- processing a group ----------

    /** Provisions one IMSI of a group if it has an authentication record. */
    method ProvisionImsi(g: Group, i: nat, snssai: SnssaiModel, dnnMap: map<string, seq<Qos>>, mcc: string, mnc: string,
                         aggregated: Qos, f: Unread) returns (err: bool)
      requires Valid() && i < |g.imsis|
      requires PayloadRates(aggregated, g)
      modifies this`amPolicy, this`smPolicy, this`am, this`sm, this`smf, this`prov
      ensures Valid() && OnlyTouches(old(prov), prov, {UeId(g.imsis[i])})
      ensures reliable && (AllClassed(dnnMap) || UeId(g.imsis[i]) !in EnvNow(f).auth) ==> !err
      ensures !err ==> UeId(g.imsis[i]) in EnvNow(f).auth ==> AllClassed(dnnMap)
      ensures !err ==> prov == Play(old(prov), ImsiEvents(EnvNow(f).auth, g, dnnMap, Target(snssai, mcc + mnc), i))
    {
      hide Represents, Distinct, UniqueGroups, UniqueSlices, AllClassed, Provided;
      err := false;
      ghost var t := Target(snssai, mcc + mnc);
      PlayOne(old(prov), GroupEvent(g, dnnMap, t, i));
      var found := SubscriberAuthenticationDataGet(UeId(g.imsis[i]), f);
      if found {
        var gpsi := if i < |g.msisdns| then g.msisdns[i] else "";
        err := UpdatePolicyAndProvisionedData(g.imsis[i], gpsi, snssai, dnnMap, mcc, mnc, aggregated);
        assert GroupEvent(g, dnnMap, t, i).payload == PayloadOf(dnnMap, aggregated, t, gpsi);
      }
    }

    method SubscriberAuthenticationDataGet(ueId: string, f: Unread) returns (found: bool)
      ensures found <==> ueId in EnvNow(f).auth
    {
      found := ueId in auth && ueId !in f.auth;
    }

    method ProcessDeviceGroup(g: Group, snssai: SnssaiModel, mcc: string, mnc: string, f: Unread) returns (err: bool)
      requires Valid()
      modifies this`amPolicy, this`smPolicy, this`am, this`sm, this`smf, this`prov
      ensures Valid() && OnlyTouches(old(prov), prov, UeIds(g.imsis))
      ensures var m := QosByDnn(g.domains); var es := GroupEvents(EnvNow(f).auth, g, m, Target(snssai, mcc + mnc), |g.imsis|);
        && (reliable && (es == [] || AllClassed(m)) ==> !err)
        && (!err ==> (es == [] || AllClassed(m)) && prov == Play(old(prov), es))
    {
      hide Represents, Distinct, UniqueGroups, UniqueSlices, AllClassed, PayloadRates, Play, GroupEvents, ImsiEvents, QosByDnn, Profiles, Flatten;
      var dnnMap := DnnMap(g.domains);
      var profiles, order := CollectProfiles(dnnMap);
      var aggregated := Bitrate.AggregateQoS(profiles);
      FlattenedProfiles(g.domains, order);
      SameRates(profiles, g);
      ghost var p, auth, t := prov, EnvNow(f).auth, Target(snssai, mcc + mnc);
      GroupEventsStep(p, auth, g, dnnMap, t);
      for i := 0 to |g.imsis|
        invariant Valid() && OnlyTouches(p, prov, UeIds(g.imsis))
        invariant GroupEvents(auth, g, dnnMap, t, i) == [] || AllClassed(dnnMap)
        invariant prov == Play(p, GroupEvents(auth, g, dnnMap, t, i))
      {
        err := ProvisionImsi(g, i, snssai, dnnMap, mcc, mnc, aggregated, f);
        if err {
          return;
        }
      }
      err := false;
    }

    // ---------- removing a subscriber's entries ----------

    method DeleteAmPolicy(u: string) returns (err: bool)
      requires Valid()
      modifies this`amPolicy, this`prov
      ensures Valid() && (reliable ==> !err)
      ensures err ==> prov == old(prov)
      ensures !err ==> amPolicy == Select(old(amPolicy), Not(Named(u)))
      ensures !err ==> prov == old(prov)[u := Get(old(prov), u).(amPolicy := false)]
    {
      hide Represents, Distinct, UniqueGroups, UniqueSlices, Select;
      var after;
      after, err := DeleteOne(amPolicy, Named(u), reliable);
      if !err {
        AmPolicyDeleted(Documents(), prov, u, after);
        amPolicy := after;
        prov := prov[u := Get(prov, u).(amPolicy := false)];
      }
    }

    method DeleteSmPolicy(u: string) returns (err: bool)
      requires Valid()
      modifies this`smPolicy, this`prov
      ensures Valid() && (reliable ==> !err)
      ensures err ==> prov == old(prov)
      ensures !err ==> smPolicy == Select(old(smPolicy), Not(OfUe(u)))
      ensures !err ==> prov == old(prov)[u := Get(old(prov), u).(smPolicy := None)]
    {
      hide Represents, Distinct, UniqueGroups, UniqueSlices, Select;
      var after;
      after, err := DeleteOne(smPolicy, OfUe(u), reliable);
      if !err {
        SmPolicyDeleted(Documents(), prov, u, after);
        smPolicy := after;
        prov := prov[u := Get(prov, u).(smPolicy := None)];
      }
    }

    method DeleteAmData(u: string, plmn: string) returns (err: bool)
      requires Valid()
      modifies this`am, this`prov
      ensures Valid() && (reliable ==> !err)
      ensures err ==> prov == old(prov)
      ensures !err ==> am == Select(old(am), Not(AmOfUePlmn(u, plmn)))
      ensures !err ==> prov == old(prov)[u := Get(old(prov), u).(am := Get(old(prov), u).am - {Some(plmn)})]
    {
      hide Represents, Distinct, UniqueGroups, UniqueSlices, Select;
      var after;
      after, err := DeleteOne(am, AmOfUePlmn(u, plmn), reliable);
      if !err {
        AmDeleted(Documents(), prov, u, plmn, after);
        am := after;
        prov := prov[u := Get(prov, u).(am := Get(prov, u).am - {Some(plmn)})];
      }
    }

    method DeleteSmData(u: string, plmn: string) returns (err: bool)
      requires Valid()
      modifies this`sm, this`prov
      ensures Valid() && (reliable ==> !err)
      ensures err ==> prov == old(prov)
      ensures !err ==> sm == Select(old(sm), Not(OfUePlmn(u, plmn)))
      ensures !err ==> prov == old(prov)[u := Get(old(prov), u).(sm := Get(old(prov), u).sm - {plmn})]
    {
      hide Represents, Distinct, UniqueGroups, UniqueSlices, Select;
      var after;
      after, err := DeleteOne(sm, OfUePlmn(u, plmn), reliable);
      if !err {
        SmDeleted(Documents(), prov, u, plmn, after);
        sm := after;
        prov := prov[u := Get(prov, u).(sm := Get(prov, u).sm - {plmn})];
      }
    }

    method DeleteSmfSelection(u: string, plmn: string) returns (err: bool)
      requires Valid()
      modifies this`smf, this`prov
      ensures Valid() && (reliable ==> !err)
      ensures err ==> prov == old(prov)
      ensures !err ==> smf == Select(old(smf), Not(OfUePlmn(u, plmn)))
      ensures !err ==> prov == old(prov)[u := Get(old(prov), u).(smf := Get(old(prov), u).smf - {plmn})]
    {
      hide Represents, Distinct, UniqueGroups, UniqueSlices, Select;
      var after;
      after, err := DeleteOne(smf, OfUePlmn(u, plmn), reliable);
      if !err {
        SmfDeleted(Documents(), prov, u, plmn, after);
        smf := after;
        prov := prov[u := Get(prov, u).(smf := Get(prov, u).smf - {plmn})];
      }
    }

    /** The five deletes in turn. */
    method DeleteEntries(u: string, plmn: string) returns (err: bool)
      requires Valid()
      modifies this`amPolicy, this`smPolicy, this`am, this`sm, this`smf, this`prov
      ensures Valid() && (reliable ==> !err)
      ensures OnlyTouches(old(prov), prov, {u})
      ensures !err ==> prov == old(prov)[u := Removed(Get(old(prov), u), plmn)]
      ensures !err ==> Documents() == WithoutEntries(old(Documents()), u, plmn)
    {
      hide Valid, Select;
      ghost var p, e0 := prov, Get(prov, u);
      ghost var e1 := e0.(amPolicy := false);
      ghost var e2 := e1.(smPolicy := None);
      ghost var e3 := e2.(am := e2.am - {Some(plmn)});
      ghost var e4 := e3.(sm := e3.sm - {plmn});
      Overwritten(p, u, e1, e2);
      Overwritten(p, u, e2, e3);
      Overwritten(p, u, e3, e4);
      Overwritten(p, u, e4, Removed(e0, plmn));
      err := DeleteAmPolicy(u);
      if err { return; }
      err := DeleteSmPolicy(u);
      if err { return; }
      err := DeleteAmData(u, plmn);
      if err { return; }
      err := DeleteSmData(u, plmn);
      if err { return; }
      err := DeleteSmfSelection(u, plmn);
    }

    /** Removes everything kept for the IMSI under the PLMN and nothing else; in a session it
        does so completely or not at all. */
    method RemoveSubscriberEntriesRelatedToDeviceGroups(mcc: string, mnc: string, imsi: string) returns (err: bool)
      requires Valid()
      modifies this`amPolicy, this`smPolicy, this`am, this`sm, this`smf, this`prov
      ensures Valid() && (reliable ==> !err)
      ensures OnlyTouches(old(prov), prov, {UeId(imsi)})
      ensures !err ==> prov == Play(old(prov), [Remove(UeId(imsi), mcc + mnc)])
      ensures !err ==> Documents() == WithoutEntries(old(Documents()), UeId(imsi), mcc + mnc)
      ensures err && transactions ==> Documents() == old(Documents()) && prov == old(prov)
    {
      hide Represents, Distinct, UniqueGroups, UniqueSlices, WithoutEntries, Removed;
      PlayOne(prov, Remove(UeId(imsi), mcc + mnc));
      var started, committed := *, *;
      if !reliable && !started { return true; }
      var policies, smPolicies, amDocs, smDocs, smfDocs := amPolicy, smPolicy, am, sm, smf;
      ghost var p := prov;
      err := DeleteEntries(UeId(imsi), mcc + mnc);
      if transactions && (err || (!reliable && !committed)) {
        amPolicy, smPolicy, am, sm, smf, prov := policies, smPolicies, amDocs, smDocs, smfDocs, p;
        err := true;
      }
    }

    // ---------- reading groups and slices ----------

    /** None on a read error; an empty record when nothing is stored. */
    method GetDeviceGroupByName(name: string, unread: bool) returns (g: Option<Group>)
      ensures g == if unread then None else Some(if FindGroup(groups, name).Some? then FindGroup(groups, name).value else NoGroup)
    {
      if unread { return None; }
      var stored := FindGroup(groups, name);
      return if stored.Some? then stored else Some(NoGroup);
    }

    method GetSliceByName(name: string, unread: bool) returns (s: Option<Slice>)
      ensures s == if unread then None else Some(if FindSlice(slices, name).Some? then FindSlice(slices, name).value else NoSlice)
    {
      if unread { return None; }
      var stored := FindSlice(slices, name);
      return if stored.Some? then stored else Some(NoSlice);
    }

    /** Some slice that lists the group: the store promises no order. */
    method FindSliceByDeviceGroup(name: string, f: Unread) returns (s: Option<Slice>)
      ensures MayChoose(slices, name, f, s)
      ensures s.Some? ==> s.value in slices && name in s.value.groups
      ensures s.None? && !f.slices ==> forall c :: c in slices ==> name !in c.groups
    {
      if f.slices { return None; }
      if i :| 0 <= i < |slices| && name in slices[i].groups {
        return Some(slices[i]);
      } else {
        return None;
      }
    }

    // ---------- storing a slice ----------

    /** Removes the entries of the IMSIs one by one, stopping at the first failure. */
    method RemoveEntriesOf(imsis: seq<string>, mcc: string, mnc: string) returns (err: bool)
      requires Valid()
      modifies this`amPolicy, this`smPolicy, this`am, this`sm, this`smf, this`prov
      ensures Valid() && OnlyTouches(old(prov), prov, UeIds(imsis)) && (reliable ==> !err)
      ensures !err ==> prov == Play(old(prov), RemoveEvents(imsis, mcc + mnc))
    {
      hide Valid, Play, RemoveEvents, WithoutEntries;
      RemoveEventsStep(prov, imsis, mcc + mnc);
      ghost var p := prov;
      for i := 0 to |imsis|
        invariant Valid() && OnlyTouches(p, prov, UeIds(imsis)) && prov == Play(p, RemoveEvents(imsis[..i], mcc + mnc))
      {
        err := RemoveSubscriberEntriesRelatedToDeviceGroups(mcc, mnc, imsis[i]);
        if err {
          return;
        }
      }
      assert imsis[..|imsis|] == imsis;
      err := false;
    }

    method CleanupDeviceGroups(slice: Slice, prev: Slice, f: Unread) returns (err: bool)
      requires Valid()
      modifies this`amPolicy, this`smPolicy, this`am, this`sm, this`smf, this`prov
      ensures Valid() && OnlyTouches(old(prov), prov, Involved(EnvNow(f), prev.groups)) && (reliable ==> !err)
      ensures !err ==> prov == Play(old(prov), CleanupEvents(EnvNow(f), RemovedNames(slice, prev), PlmnText(prev.plmn)))
    {
      hide Valid, Play, CleanupEvents, RemoveEvents, RemovedNames;
      var names := GetDeletedDeviceGroupsList(slice, prev);
      ghost var p, env, plmn := prov, EnvNow(f), PlmnText(prev.plmn);
      CleanupEventsStep(p, env, names, plmn);
      for i := 0 to |names|
        invariant Valid() && OnlyTouches(p, prov, Involved(env, prev.groups)) && prov == Play(p, CleanupEvents(env, names[..i], plmn))
      {
        RemovedNamesMembers(slice, prev, names[i]);
        var g := GetDeviceGroupByName(names[i], names[i] in f.groups);
        assert g == ReadGroup(env, names[i]);
        if g.Some? {
          InvolvedMembers(env, prev.groups, names[i]);
          err := RemoveEntriesOf(g.value.imsis, prev.plmn.mcc, prev.plmn.mnc);
          if err {
            return;
          }
        }
      }
      assert names[..|names|] == names;
      err := false;
    }

    /** A bad SST changes nothing; success means the events of the slice took place, and happens
        whenever nothing fails and every provisioned DNN has a traffic class. */
    method SyncSubscribersOnSliceCreateOrUpdate(slice: Slice, prev: Slice, f: Unread) returns (status: Status)
      requires Valid()
      modifies this`amPolicy, this`smPolicy, this`am, this`sm, this`smf, this`prov
      ensures Valid() && OnlyTouches(old(prov), prov, Involved(EnvNow(f), slice.groups) + Involved(EnvNow(f), prev.groups))
      ensures status.BadRequest? <==> TargetOf(slice).None?
      ensures status.BadRequest? ==> prov == old(prov) && Documents() == old(Documents())
      ensures reliable && SliceOk(EnvNow(f), slice) ==> status.Ok?
      ensures status.Ok? ==> SliceOk(EnvNow(f), slice) && prov == Play(old(prov), SliceEvents(EnvNow(f), slice, prev))
    {
      hide Valid, Play, NamesEvents, NameEvents, CleanupEvents, GroupEvents, AllClassed, QosByDnn;
      if slice.id.sst == "" { return BadRequest; }
      var sst := ParseSst(slice.id.sst);
      if sst.None? { return BadRequest; }
      var snssai := SnssaiModel(sst.value, slice.id.sd);
      ghost var p, env, t := prov, EnvNow(f), TargetOf(slice).value;
      NamesEventsStep(p, env, slice.groups, t);
      for i := 0 to |slice.groups|
        invariant Valid() && OnlyTouches(p, prov, Involved(env, slice.groups))
        invariant forall k :: 0 <= k < i ==> NameOk(env, slice.groups[k], t)
        invariant prov == Play(p, NamesEvents(env, slice.groups[..i], t))
      {
        NameProcessed(env, slice.groups[i], t);
        var g := GetDeviceGroupByName(slice.groups[i], slice.groups[i] in f.groups);
        assert g == ReadGroup(env, slice.groups[i]);
        if g.Some? && |g.value.domains| != 0 {
          InvolvedMembers(env, slice.groups, slice.groups[i]);
          var err := ProcessDeviceGroup(g.value, snssai, slice.plmn.mcc, slice.plmn.mnc, f);
          if err {
            return ServerError;
          }
        }
      }
      assert slice.groups[..|slice.groups|] == slice.groups;
      PlayConcat(p, NamesEvents(env, slice.groups, t), CleanupEvents(env, RemovedNames(slice, prev), PlmnText(prev.plmn)));
      var err := CleanupDeviceGroups(slice, prev, f);
      return if err then ServerError else Ok;
    }

    /** Stores the slice first; a bad SST is reported only after that. */
    method HandleNetworkSlicePost(slice: Slice, prev: Slice, f: Unread) returns (status: Status)
      requires Valid()
      modifies this`slices, this`amPolicy, this`smPolicy, this`am, this`sm, this`smf, this`prov
      ensures Valid() && OnlyTouches(old(prov), prov, Involved(EnvNow(f), slice.groups) + Involved(EnvNow(f), prev.groups))
      ensures slices == old(slices) || slices == PutSlice(old(slices), slice)
      ensures reliable ==> slices == PutSlice(old(slices), slice)
      ensures status.BadRequest? ==> TargetOf(slice).None? && slices == PutSlice(old(slices), slice) && prov == old(prov)
      ensures reliable && TargetOf(slice).None? ==> status.BadRequest?
      ensures reliable && SliceOk(EnvNow(f), slice) ==> status.Ok?
      ensures status.Ok? ==> SliceOk(EnvNow(f), slice) && slices == PutSlice(old(slices), slice)
                             && prov == Play(old(prov), SliceEvents(EnvNow(f), slice, prev))
    {
      var after, err := PostOne(slices, SliceNamed(slice.name), SlicePatch(slice), slice, reliable);
      if err { return ServerError; }
      SlicePosted(slices, slice, after);
      hide Represents, Distinct, UniqueGroups, UniqueSlices, Play, SliceEvents, SliceOk, TargetOf, PutSlice, PostResult;
      slices := after;
      status := SyncSubscribersOnSliceCreateOrUpdate(slice, prev, f);
    }

    /** Storing a slice under a name succeeds exactly with the outcome PostSlice describes. */
    method NetworkSlicePostHelper(request: Slice, sliceName: string, f: Unread) returns (status: Status)
      requires Valid()
      modifies this`slices, this`amPolicy, this`smPolicy, this`am, this`sm, this`smf, this`prov
      ensures Valid()
      ensures status.Ok? ==> PostSlice(old(State()), NormalizedSlice(request, sliceName), f) == Some(State())
      ensures reliable ==> (status.Ok? <==> PostSlice(old(State()), NormalizedSlice(request, sliceName), f).Some?)
    {
      hide Valid, Play, SliceEvents, SliceOk, PutSlice, Involved, OnlyTouches, TargetOf;
      var names := SortAndCompact(request.groups);
      var slice := Normalize(request.(groups := names), sliceName);
      assert slice == NormalizedSlice(request, sliceName);
      var prev := GetSliceByName(sliceName, f.previous);
      status := HandleNetworkSlicePost(slice, if prev.Some? then prev.value else NoSlice, f);
    }

    method HandleNetworkSliceDelete(sliceName: string, f: Unread) returns (err: bool)
      requires Valid()
      modifies this`slices, this`amPolicy, this`smPolicy, this`am, this`sm, this`smf, this`prov
      ensures Valid() && (reliable ==> !err)
      ensures OnlyTouches(old(prov), prov, Involved(EnvNow(f), PreviousSlice(old(slices), sliceName, f).groups))
      ensures !err ==> SliceTakenOut(old(State()), sliceName, f, slices, prov)
    {
      hide Represents, Distinct, UniqueGroups, UniqueSlices, Play, Select, DeleteResult;
      PlayNothing(prov);
      var prev := GetSliceByName(sliceName, f.previous);
      var after;
      after, err := DeleteOne(slices, SliceNamed(sliceName), reliable);
      if err { return; }
      SliceDeleted(slices, sliceName, after);
      slices := after;
      if prev.Some? {
        err := CleanupDeviceGroups(NoSlice, prev.value, f);
      }
    }

    // ---------- storing a group ----------

    /** Provisions the group's IMSIs under the slice that lists it and removes the entries of the
        IMSIs it lost; a failure for one IMSI does not stop the others. */
    method SyncDeviceGroupSubscriber(g: Group, prev: Option<Group>, f: Unread) returns (status: Status, ghost chosen: Option<Slice>)
      requires Valid()
      modifies this`amPolicy, this`smPolicy, this`am, this`sm, this`smf, this`prov
      ensures Valid() && OnlyTouches(old(prov), prov, UeIds(g.imsis) + UeIds(RemovedImsis(g, prev)))
      ensures MayChoose(slices, g.name, f, chosen)
      ensures status.BadRequest? <==> chosen.Some? && TargetOf(chosen.value).None?
      ensures status.BadRequest? || chosen.None? ==> prov == old(prov)
      ensures chosen.None? ==> status.Ok?
      ensures chosen.Some? && TargetOf(chosen.value).Some? ==>
                var t := TargetOf(chosen.value).value;
                && (reliable && PostedOk(EnvNow(f).auth, g, t) ==> status.Ok?)
                && (status.Ok? ==> PostedOk(EnvNow(f).auth, g, t) && prov == Play(old(prov), PostedGroupEvents(EnvNow(f).auth, g, prev, t)))
    {
      hide Valid, Play, GroupEvents, ImsiEvents, RemoveEvents, AllClassed, PostedQosByDnn, Profiles, Flatten,
           PayloadRates, MayChoose, RemovedImsis, WithoutEntries;
      var slice := FindSliceByDeviceGroup(g.name, f);
      chosen := slice;
      if slice.None? { return Ok, chosen; }
      var sliceId := slice.value.id;
      if sliceId.sst == "" { return BadRequest, chosen; }
      var sst := ParseSst(sliceId.sst);
      if sst.None? { return BadRequest, chosen; }
      var snssai := SnssaiModel(sst.value, sliceId.sd);
      var mcc, mnc := slice.value.plmn.mcc, slice.value.plmn.mnc;
      ghost var p, auth, t := prov, EnvNow(f).auth, TargetOf(slice.value).value;
      var dnnMap := PostedDnnMap(g.domains);
      var profiles, order := CollectProfiles(dnnMap);
      var aggregated := Bitrate.AggregateQoS(profiles);
      FlattenedPostedProfiles(g.domains, order);
      SameRates(profiles, g);
      GroupEventsStep(p, auth, g, dnnMap, t);
      var errorOccurred := false;
      for i := 0 to |g.imsis|
        invariant Valid() && OnlyTouches(p, prov, UeIds(g.imsis))
        invariant reliable && (GroupEvents(auth, g, dnnMap, t, |g.imsis|) == [] || AllClassed(dnnMap)) ==> !errorOccurred
        invariant !errorOccurred ==> GroupEvents(auth, g, dnnMap, t, i) == [] || AllClassed(dnnMap)
        invariant !errorOccurred ==> prov == Play(p, GroupEvents(auth, g, dnnMap, t, i))
      {
        var err := ProvisionImsi(g, i, snssai, dnnMap, mcc, mnc, aggregated, f);
        if err { errorOccurred := true; }
      }
      ghost var q := Play(p, GroupEvents(auth, g, dnnMap, t, |g.imsis|));
      var deleted := GetDeletedImsisList(g, prev);
      RemoveEventsStep(q, deleted, t.plmn);
      for i := 0 to |deleted|
        invariant Valid() && OnlyTouches(p, prov, UeIds(g.imsis) + UeIds(deleted))
        invariant reliable && (GroupEvents(auth, g, dnnMap, t, |g.imsis|) == [] || AllClassed(dnnMap)) ==> !errorOccurred
        invariant !errorOccurred ==> GroupEvents(auth, g, dnnMap, t, |g.imsis|) == [] || AllClassed(dnnMap)
        invariant !errorOccurred ==> prov == Play(q, RemoveEvents(deleted[..i], t.plmn))
      {
        var err := RemoveSubscriberEntriesRelatedToDeviceGroups(mcc, mnc, deleted[i]);
        if err { errorOccurred := true; }
      }
      assert deleted[..|deleted|] == deleted;
      PlayConcat(p, GroupEvents(auth, g, dnnMap, t, |g.imsis|), RemoveEvents(deleted, t.plmn));
      status := if errorOccurred then ServerError else Ok;
    }

    method HandleDeviceGroupPost(g: Group, prev: Option<Group>, f: Unread) returns (status: Status, ghost chosen: Option<Slice>)
      requires Valid()
      modifies this`groups, this`amPolicy, this`smPolicy, this`am, this`sm, this`smf, this`prov
      ensures Valid() && OnlyTouches(old(prov), prov, UeIds(g.imsis) + UeIds(RemovedImsis(g, prev)))
      ensures groups == old(groups) || groups == PutGroup(old(groups), g)
      ensures MayChoose(slices, g.name, f, chosen)
      ensures reliable && (chosen.None? || (TargetOf(chosen.value).Some? && PostedOk(EnvNow(f).auth, g, TargetOf(chosen.value).value))) ==> status.Ok?
      ensures status.Ok? ==> groups == PutGroup(old(groups), g)
      ensures status.Ok? ==> PostedProv(old(prov), EnvNow(f).auth, g, prev, chosen) == Some(prov)
    {
      var after, err := PostOne(groups, GroupNamed(g.name), GroupPatch(g), g, reliable);
      if err {
        chosen := SomeChoice(slices, g.name, f);
        return ServerError, chosen;
      }
      GroupPosted(groups, g, after);
      hide Represents, Distinct, UniqueGroups, UniqueSlices, Play, PostedGroupEvents, TargetOf, PutGroup, PostResult, PostedOk;
      groups := after;
      status, chosen := SyncDeviceGroupSubscriber(g, prev, f);
    }

    /** Storing a group under a name succeeds exactly with the outcome PostGroup describes. */
    method DeviceGroupPostHelper(request: Group, groupName: string, f: Unread) returns (status: Status, ghost chosen: Option<Slice>)
      requires Valid()
      modifies this`groups, this`amPolicy, this`smPolicy, this`am, this`sm, this`smf, this`prov
      ensures Valid() && MayChoose(slices, groupName, f, chosen)
      ensures status.Ok? ==> PostGroup(old(State()), NormalizedGroup(request, groupName), f, chosen) == Some(State())
      ensures reliable ==> (status.Ok? <==> PostGroup(old(State()), NormalizedGroup(request, groupName), f, chosen).Some?)
    {
      var domains := new IpDomain[|request.domains|](i requires 0 <= i < |request.domains| => request.domains[i]);
      assert domains[..] == request.domains;
      Bitrate.NormalizeDomains(domains);
      var prev := GetDeviceGroupByName(groupName, f.previous);
      var g := request.(name := groupName, domains := domains[..]);
      assert g == NormalizedGroup(request, groupName);
      PostGroupIs(State(), g, f);
      hide Valid, Play, PostedGroupEvents, TargetOf, PutGroup, PostedOk, PostGroup, NormalizedGroup, MayChoose, PostedProv;
      status, chosen := HandleDeviceGroupPost(g, prev, f);
    }

    method HandleDeviceGroupDelete(groupName: string) returns (err: bool)
      requires Valid()
      modifies this`groups
      ensures Valid() && (reliable ==> !err)
      ensures groups == if err then old(groups) else Select(old(groups), Not(GroupNamed(groupName)))
    {
      var after;
      after, err := DeleteOne(groups, GroupNamed(groupName), reliable);
      if err { return; }
      GroupDeleted(groups, groupName, after);
      hide Represents, Distinct, UniqueGroups, UniqueSlices, Select;
      groups := after;
    }

    // ---------- changing the slices that match a filter ----------

    /** Stores the changed version of one found slice over its previous version; crashes when
        that cannot be read. */
    method ChangeSlice(ghost before: seq<Slice>, ghost found: seq<Slice>, ghost i: nat, slice: Slice, change: Slice -> Slice,
                       ghost complete: bool, f: Unread) returns (done: bool, crashed: bool, ghost stored: bool)
      requires Valid() && KeepsNameAndRules(change) && UniqueSlices(before) && UniqueSlices(found)
      requires i < |found| && found[i] == slice && slice in before && Progress(before, slices, found[..i], change, complete)
      modifies this`slices, this`amPolicy, this`smPolicy, this`am, this`sm, this`smf, this`prov
      ensures Valid() && OnlyTouches(old(prov), prov, Involved(EnvNow(f), change(slice).groups) + Involved(EnvNow(f), slice.groups))
      ensures Progress(before, slices, found[..i + 1], change, complete && done)
      ensures Progress(before, slices, found[..if stored then i + 1 else i], change, complete)
      ensures crashed <==> f.previous
      ensures reliable && !f.previous ==> stored && (SliceOk(EnvNow(f), change(slice)) ==> done)
      ensures done ==> SliceOk(EnvNow(f), change(slice)) && prov == Play(old(prov), SliceEvents(EnvNow(f), change(slice), slice))
      ensures (done ==> stored) && (crashed ==> !stored)
    {
      ChangeStep(before, slices, found, i, change, complete);
      hide Valid, UniqueSlices, Progress, Play, SliceEvents, SliceOk, PutSlice, KeepsNameAndRules, Involved;
      var prev := GetSliceByName(slice.name, f.previous);
      if prev.None? {
        return false, true, false;
      }
      ghost var now := slices;
      var status := HandleNetworkSlicePost(change(slice), prev.value, f);
      return status.Ok?, false, slices == PutSlice(now, change(slice));
    }

    lemma NamesAreUnique(filter: Slice -> bool, change: Slice -> Slice)
      requires Valid()
      ensures UniqueSlices(slices) && Between(slices, slices, filter, change)
    {
    }

    /** Stores the changed version of every matching slice, in the order in which they are found;
        with keepGoing a failed update does not stop the rest. n counts the slices stored before a
        run without keepGoing ends. */
    method ChangeSlices(filter: Slice -> bool, change: Slice -> Slice, keepGoing: bool, f: Unread)
      returns (err: bool, ghost order: seq<Slice>, ghost n: nat)
      requires Valid() && KeepsNameAndRules(change)
      modifies this`slices, this`amPolicy, this`smPolicy, this`am, this`sm, this`smf, this`prov
      ensures Valid() && OnlyTouches(old(prov), prov, Reached(EnvNow(f), old(slices), filter, change))
      ensures Between(old(slices), slices, filter, change)
      ensures reliable && !f.previous && AllOk(EnvNow(f), old(slices), filter, change) ==> !err
      ensures multiset(order) == multiset(Select(old(slices), filter))
      ensures !err ==> slices == Map(Changed(filter, change), old(slices))
      ensures !err ==> AllOk(EnvNow(f), old(slices), filter, change) && (f.previous ==> order == [])
      ensures !err ==> AllTargets(order, change) && prov == Play(old(prov), ChangeEvents(EnvNow(f), order, change))
      ensures !keepGoing && err ==> StoppedAfter(old(State()), f, reliable, filter, change, order, n, slices)
      ensures !err ==> n == |order| && Progress(old(slices), slices, order, change, true)
    {
      hide Valid, UniqueSlices, Progress, Between, Play, SliceEvents, SliceOk, Select, ChangeEvents, KeepsNameAndRules, Involved, Reached;
      ghost var before, p, env := slices, prov, EnvNow(f);
      NamesAreUnique(filter, change);
      NothingStored(before, change);
      n := 0;
      var found;
      found, err := FindMany(slices, filter, reliable);
      order := Select(before, filter);
      if err { return; }
      order := found;
      FoundSlices(before, filter, found);
      ChangeEventsStart(before, p, env, change);
      assert found[..0] == [];
      var errorOccurred := false;
      for i := 0 to |found|
        invariant Valid() && OnlyTouches(p, prov, Reached(env, before, filter, change))
        invariant Progress(before, slices, found[..i], change, !errorOccurred)
        invariant reliable && !f.previous && AllOk(env, before, filter, change) ==> !errorOccurred
        invariant !errorOccurred ==> forall k :: 0 <= k < i ==> SliceOk(env, change(found[k]))
        invariant !errorOccurred ==> AllTargets(found[..i], change) && prov == Play(p, ChangeEvents(env, found[..i], change))
        invariant (f.previous ==> i == 0) && (!keepGoing ==> !errorOccurred)
      {
        ReachedBy(env, before, filter, change, found[i]);
        var done, crashed;
        ghost var stored;
        done, crashed, stored := ChangeSlice(before, found, i, found[i], change, !errorOccurred, f);
        if done && !errorOccurred { ChangeEventsStep(p, env, found, i, change); }
        if crashed || (!done && !keepGoing) {
          n := if stored then i + 1 else i;
          ProgressBetween(before, slices, found[..i + 1], filter, change, !errorOccurred && done);
          return true, order, n;
        }
        errorOccurred := errorOccurred || !done;
      }
      assert found[..|found|] == found;
      ProgressBetween(before, slices, found, filter, change, !errorOccurred);
      err := errorOccurred;
      n := |found|;
      if !err {
        AllChanged(before, slices, found, filter, change);
        AllFoundOk(env, before, filter, found, change);
      }
    }

    /** The device group loses its place in every slice that lists it. */
    method UpdateDeviceGroupInNetworkSlices(groupName: string, f: Unread) returns (err: bool, ghost order: seq<Slice>)
      requires Valid()
      modifies this`slices, this`amPolicy, this`smPolicy, this`am, this`sm, this`smf, this`prov
      ensures Valid() && OnlyTouches(old(prov), prov, Reached(EnvNow(f), old(slices), Lists(groupName), WithoutGroup(groupName)))
      ensures Between(old(slices), slices, Lists(groupName), WithoutGroup(groupName))
      ensures reliable && !f.previous && AllOk(EnvNow(f), old(slices), Lists(groupName), WithoutGroup(groupName)) ==> !err
      ensures !err ==> GroupTakenOut(old(State()), groupName, f, order, slices, prov)
    {
      hide Valid, Play, ChangeEvents, Reached, Between, AllOk, Progress, StoppedAfter;
      ghost var n;
      err, order, n := ChangeSlices(Lists(groupName), WithoutGroup(groupName), true, f);
    }

    method DeviceGroupDeleteHelper(groupName: string, f: Unread) returns (err: bool, ghost order: seq<Slice>)
      requires Valid()
      modifies this`groups, this`slices, this`amPolicy, this`smPolicy, this`am, this`sm, this`smf, this`prov
      ensures Valid() && OnlyTouches(old(prov), prov, Reached(old(EnvNow(f)), old(slices), Lists(groupName), WithoutGroup(groupName)))
      ensures groups == old(groups) || groups == Select(old(groups), Not(GroupNamed(groupName)))
      ensures reliable && !f.previous && AllOk(old(EnvNow(f)), old(slices), Lists(groupName), WithoutGroup(groupName)) ==> !err
      ensures !err ==> GroupTakenOut(old(State()), groupName, f, order, slices, prov)
      ensures !err ==> groups == Select(old(groups), Not(GroupNamed(groupName)))
    {
      hide Valid, Play, ChangeEvents, Reached, Between, AllOk, Select, GroupTakenOut;
      err, order := UpdateDeviceGroupInNetworkSlices(groupName, f);
      if err { return; }
      err := HandleDeviceGroupDelete(groupName);
    }

    // ---------- subscribers ----------

    /** Stores the authentication record and, for a subscriber without any, an AM document; both
        or, in a session, neither. Create and update do the same. */
    method SubscriberAuthenticationDataStore(ueId: string) returns (err: bool)
      requires Valid()
      modifies this`auth, this`am, this`prov
      ensures Valid() && OnlyTouches(old(prov), prov, {ueId}) && (reliable ==> !err)
      ensures !err ==> AuthSet() == old(AuthSet()) + {ueId}
      ensures !err ==> prov == old(prov)[ueId := Touched(Get(old(prov), ueId))] && AmNext(old(am), Touch(ueId), am)
      ensures err && transactions ==> auth == old(auth) && am == old(am) && prov == old(prov)
    {
      hide Represents, UniqueGroups, UniqueSlices, AmNext, Touched;
      var started, committed := *, *;
      if !reliable && !started { return true; }
      var records, docs := auth, am;
      ghost var p := prov;
      err := UpsertAuth(ueId);
      if !err {
        err := UpsertAm(ueId);
      }
      if transactions && (err || (!reliable && !committed)) {
        auth, am, prov := records, docs, p;
        err := true;
      }
    }

    method UpsertAuth(ueId: string) returns (err: bool)
      requires Valid()
      modifies this`auth
      ensures Valid() && (reliable ==> !err)
      ensures if err then auth == old(auth) else AuthSet() == old(AuthSet()) + {ueId}
    {
      hide Represents, UniqueGroups, UniqueSlices;
      var records;
      records, err := PostOne(auth, Named(ueId), Same, ueId, reliable);
      if !err {
        AuthUpserted(auth, ueId, records);
        auth := records;
      }
    }

    method UpsertAm(ueId: string) returns (err: bool)
      requires Valid()
      modifies this`am, this`prov
      ensures Valid() && (reliable ==> !err)
      ensures err ==> prov == old(prov) && am == old(am)
      ensures !err ==> prov == old(prov)[ueId := Touched(Get(old(prov), ueId))] && AmNext(old(am), Touch(ueId), am)
    {
      hide Represents, UniqueGroups, UniqueSlices, Distinct;
      var docs;
      docs, err := PostOne(am, AmOfUe(ueId), Same, AmDoc(ueId, None, None), reliable);
      if !err {
        AmTouched(Documents(), prov, ueId, docs);
        am := docs;
        prov := prov[ueId := Touched(Get(prov, ueId))];
      }
    }

    /** Removes the authentication record and one AM document, whichever the store picks. */
    method SubscriberAuthenticationDataDelete(ueId: string) returns (err: bool, ghost lost: set<Option<string>>)
      requires Valid()
      modifies this`auth, this`am, this`prov
      ensures Valid() && OnlyTouches(old(prov), prov, {ueId}) && (reliable ==> !err)
      ensures !err ==> AuthSet() == old(AuthSet()) - {ueId} && Loses(Get(old(prov), ueId), lost)
      ensures !err ==> prov == old(prov)[ueId := WithoutAm(Get(old(prov), ueId), lost)] && AmNext(old(am), Drop(ueId), am)
      ensures err && transactions ==> auth == old(auth) && am == old(am) && prov == old(prov)
    {
      hide Represents, UniqueGroups, UniqueSlices, AmNext, Loses, WithoutAm;
      lost := {};
      var started, committed := *, *;
      if !reliable && !started { return true, {}; }
      var records, docs := auth, am;
      ghost var p := prov;
      err := DeleteAuth(ueId);
      if !err {
        err, lost := DropAm(ueId);
      }
      if transactions && (err || (!reliable && !committed)) {
        auth, am, prov := records, docs, p;
        err := true;
      }
    }

    method DeleteAuth(ueId: string) returns (err: bool)
      requires Valid()
      modifies this`auth
      ensures Valid() && (reliable ==> !err)
      ensures if err then auth == old(auth) else AuthSet() == old(AuthSet()) - {ueId}
    {
      hide Represents, UniqueGroups, UniqueSlices;
      var records;
      records, err := DeleteOne(auth, Named(ueId), reliable);
      if !err {
        AuthDeleted(auth, ueId, records);
        auth := records;
      }
    }

    method DropAm(ueId: string) returns (err: bool, ghost lost: set<Option<string>>)
      requires Valid()
      modifies this`am, this`prov
      ensures Valid() && (reliable ==> !err)
      ensures err ==> prov == old(prov) && am == old(am)
      ensures !err ==> Loses(Get(old(prov), ueId), lost) && AmNext(old(am), Drop(ueId), am)
      ensures !err ==> prov == old(prov)[ueId := WithoutAm(Get(old(prov), ueId), lost)]
    {
      hide Represents, UniqueGroups, UniqueSlices, Distinct;
      lost := {};
      var docs;
      docs, err := DeleteOne(am, AmOfUe(ueId), reliable);
      if !err {
        lost := AmDropped(Documents(), prov, ueId, docs);
        am := docs;
        prov := prov[ueId := WithoutAm(Get(prov, ueId), lost)];
      }
    }

    /** POST refuses a ueId that has an AM document, whatever its PLMN; otherwise the subscriber
        ends with exactly one, without a PLMN. */
    method PostSubscriberByID(ueId: string, keysGiven: bool) returns (status: Status)
      requires Valid()
      modifies this`auth, this`am, this`prov
      ensures Valid() && OnlyTouches(old(prov), prov, {ueId})
      ensures var had := Get(old(prov), ueId).am != map[];
        && (status.Conflict? ==> had) && (status.BadRequest? ==> !had && !keysGiven)
        && (reliable ==> status == if had then Conflict else if keysGiven then Ok else BadRequest)
      ensures reliable ==> (status, State()) == PostSubscriber(old(State()), ueId, keysGiven)
      ensures status.Ok? ==> AuthSet() == old(AuthSet()) + {ueId} && Get(prov, ueId) == Get(old(prov), ueId).(am := map[None := None])
      ensures !status.Ok? && (transactions || !status.ServerError?) ==> auth == old(auth) && prov == old(prov)
    {
      hide Represents, UniqueGroups, UniqueSlices, Distinct, AmNext;
      var read := *;
      if !reliable && !read { return ServerError; }
      HasAmDocument(Documents(), prov, ueId);
      if i :| 0 <= i < |am| && am[i].ueId == ueId { return Conflict; }
      if !keysGiven { return BadRequest; }
      var err := SubscriberAuthenticationDataStore(ueId);
      status := if err then ServerError else Ok;
    }

    /** PUT wants the AM document that POST refuses; it then adds none. */
    method PutSubscriberByID(ueId: string, keysGiven: bool) returns (status: Status)
      requires Valid()
      modifies this`auth, this`am, this`prov
      ensures Valid() && OnlyTouches(old(prov), prov, {ueId})
      ensures var had := Get(old(prov), ueId).am != map[];
        && (status.NotFound? ==> !had) && (status.BadRequest? ==> had && !keysGiven)
        && (reliable ==> status == if !had then NotFound else if keysGiven then Ok else BadRequest)
      ensures status.Ok? ==> AuthSet() == old(AuthSet()) + {ueId} && Get(prov, ueId) == Get(old(prov), ueId)
      ensures !status.Ok? && (transactions || !status.ServerError?) ==> auth == old(auth) && prov == old(prov)
    {
      hide Represents, UniqueGroups, UniqueSlices, Distinct, AmNext;
      var read := *;
      if !reliable && !read { return ServerError; }
      HasAmDocument(Documents(), prov, ueId);
      if i :| 0 <= i < |am| && am[i].ueId == ueId {
        if !keysGiven { return BadRequest; }
        var err := SubscriberAuthenticationDataStore(ueId);
        status := if err then ServerError else Ok;
      } else {
        return NotFound;
      }
    }

    /** Takes the IMSI out of every group, one group after the other until one fails; each is stored
        again, which provisions its other subscribers and removes the IMSI's entries. */
    method UpdateSubscriberInDeviceGroups(imsi: string, f: Unread)
      returns (status: Status, ghost found: seq<Group>, ghost chosen: seq<Option<Slice>>)
      requires Valid()
      modifies this`groups, this`amPolicy, this`smPolicy, this`am, this`sm, this`smf, this`prov
      ensures Valid() && Between(old(groups), groups, HasImsi(imsi), WithoutImsi(imsi))
      ensures OnlyTouches(old(prov), prov, Housemates(old(groups), imsi))
      ensures status.Ok? ==> groups == Map(Changed(HasImsi(imsi), WithoutImsi(imsi)), old(groups))
      ensures status.Ok? ==> multiset(found) == multiset(Select(old(groups), HasImsi(imsi)))
      ensures status.Ok? ==> |chosen| == |found| && forall i :: 0 <= i < |found| ==> MayChoose(slices, found[i].name, f, chosen[i])
      ensures status.Ok? ==> ChosenTargets(chosen) && prov == Play(old(prov), LeavingEvents(EnvNow(f).auth, found, chosen, imsi, !f.previous))
      ensures status.Ok? && !f.previous ==> ClearedUnder(Get(prov, UeId(imsi)), chosen)
    {
      hide Valid, UniqueGroups, Progress, Between, Select, MayChoose, ClearedUnder, PostedProv, PutGroup, UeIds, OnlyTouches, PostedOk,
           RemovedImsis, Play, LeavingEvents, ChosenTargets, Housemates, PostedGroupEvents, TargetOf, MergeGroup,
           FindGroup, NotIn, Get;
      ghost var before, p, known := groups, prov, EnvNow(f).auth;
      GroupNamesAreUnique(imsi);
      LeavingStart(p, known, imsi, !f.previous, Housemates(before, imsi));
      chosen := [];
      var groupsFound, err := FindMany(groups, HasImsi(imsi), reliable);
      found := groupsFound;
      if err { return ServerError, found, chosen; }
      FoundGroups(before, HasImsi(imsi), groupsFound);
      assert groupsFound[..0] == [];
      for i := 0 to |groupsFound|
        invariant Valid() && Progress(before, groups, groupsFound[..i], WithoutImsi(imsi), true)
        invariant EnvNow(f).auth == known && OnlyTouches(p, prov, Housemates(before, imsi))
        invariant |chosen| == i && forall j :: 0 <= j < i ==> MayChoose(slices, groupsFound[j].name, f, chosen[j])
        invariant ChosenTargets(chosen) && prov == Play(p, LeavingEvents(known, groupsFound[..i], chosen, imsi, !f.previous))
        invariant !f.previous ==> ClearedUnder(Get(prov, UeId(imsi)), chosen)
      {
        var g := groupsFound[i];
        GroupChangeStep(before, groups, groupsFound, i, imsi, true);
        ghost var q := prov;
        var filtered := FilterImsis(g, imsi);
        var prev := GetDeviceGroupByName(g.name, f.previous);
        HousematesOf(before, g, prev, imsi);
        ghost var c;
        status, c := HandleDeviceGroupPost(filtered, prev, f);
        TouchesMore(p, q, prov, Housemates(before, imsi), UeIds(filtered.imsis) + UeIds(RemovedImsis(filtered, prev)));
        if !status.Ok? {
          ProgressBetween(before, groups, groupsFound[..i + 1], HasImsi(imsi), WithoutImsi(imsi), false);
          return;
        }
        if !f.previous { ImsiStaysCleared(q, prov, known, g, imsi, chosen, c); }
        LeavingStep(p, prov, known, groupsFound[..i], chosen, imsi, !f.previous, g, c);
        assert groupsFound[..i + 1] == groupsFound[..i] + [g];
        chosen := chosen + [c];
      }
      assert groupsFound[..|groupsFound|] == groupsFound;
      ProgressBetween(before, groups, groupsFound, HasImsi(imsi), WithoutImsi(imsi), true);
      AllChanged(before, groups, groupsFound, HasImsi(imsi), WithoutImsi(imsi));
      status := Ok;
    }

    lemma GroupNamesAreUnique(imsi: string)
      requires Valid()
      ensures UniqueGroups(groups) && Between(groups, groups, HasImsi(imsi), WithoutImsi(imsi))
      ensures Progress(groups, groups, [], WithoutImsi(imsi), true) && forall ue :: ClearedUnder(ue, [])
    {
    }

    /** After a successful DELETE no group has the IMSI, its authentication record and one AM document
        are gone, its housemates are provisioned again, and it has no policy and nothing under the
        PLMN of a slice that was found for one of its groups (if the groups could be read back). */
    method DeleteSubscriberByID(ueId: string, f: Unread)
      returns (status: Status, ghost found: seq<Group>, ghost chosen: seq<Option<Slice>>, ghost lost: set<Option<string>>)
      requires Valid()
      modifies this`auth, this`groups, this`amPolicy, this`smPolicy, this`am, this`sm, this`smf, this`prov
      ensures Valid() && OnlyTouches(old(prov), prov, Housemates(old(groups), ImsiOf(ueId)) + {ueId})
      ensures status.Ok? ==> groups == Map(Changed(HasImsi(ImsiOf(ueId)), WithoutImsi(ImsiOf(ueId))), old(groups))
      ensures status.Ok? ==> AuthSet() == old(AuthSet()) - {ueId}
      ensures status.Ok? ==> multiset(found) == multiset(Select(old(groups), HasImsi(ImsiOf(ueId))))
      ensures status.Ok? ==> |chosen| == |found| && forall i :: 0 <= i < |found| ==> MayChoose(slices, found[i].name, f, chosen[i])
      ensures status.Ok? ==> ChosenTargets(chosen)
      ensures status.Ok? ==>
                var p := Play(old(prov), LeavingEvents(old(EnvNow(f)).auth, found, chosen, ImsiOf(ueId), !f.previous));
                Loses(Get(p, ueId), lost) && prov == p[ueId := WithoutAm(Get(p, ueId), lost)]
      ensures status.Ok? && !f.previous ==> ClearedUnder(Get(prov, UeId(ImsiOf(ueId))), chosen)
    {
      hide Valid, Select, MayChoose, Between, WithoutAm, Loses, Play, LeavingEvents, Housemates, ChosenTargets;
      lost := {};
      status, found, chosen := UpdateSubscriberInDeviceGroups(ImsiOf(ueId), f);
      if !status.Ok? { return; }
      ghost var p := prov;
      var err;
      err, lost := SubscriberAuthenticationDataDelete(ueId);
      StillCleared(Get(p, UeId(ImsiOf(ueId))), lost, chosen);
      if err { status := ServerError; }
    }
  }
}
