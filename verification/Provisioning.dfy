/** Per-subscriber records and the events that change them. A request that provisions
    subscribers is a list of events; what it does to one subscriber is the fold of that
    subscriber's own events. */
module Provisioning {
  import opened Prelude
  import opened Models
  import Bitrate
  import Views

  // ---------- records ----------

  datatype SnssaiModel = SnssaiModel(sst: int32, sd: string)
  datatype DnnConfig = DnnConfig(uplink: string, downlink: string, qci: int32)

  datatype SmPolicy = SmPolicy(snssai: string, dnns: set<string>)
  datatype AmData = AmData(gpsis: seq<string>, snssai: SnssaiModel, uplink: string, downlink: string)
  datatype SmData = SmData(snssai: SnssaiModel, dnns: map<string, DnnConfig>)
  datatype SmfSelection = SmfSelection(snssai: string, dnns: seq<string>)

  /** Everything the five collections hold for one ueId. An AM document without a PLMN is the
      one subscriber creation writes. */
  datatype Ue = Ue(
    amPolicy: bool, smPolicy: Option<SmPolicy>, am: map<Option<string>, Option<AmData>>,
    sm: map<string, SmData>, smf: map<string, SmfSelection>)

  const EmptyUe := Ue(false, None, map[], map[], map[])

  type Prov = map<string, Ue>

  function Get(p: Prov, u: string): Ue { if u in p then p[u] else EmptyUe }

  /** The same documents in all five collections. */
  ghost predicate SameProv(p: Prov, q: Prov) { forall u :: Get(p, u) == Get(q, u) }

  /** Either one AM document without a PLMN and no other, or only documents with PLMNs. */
  predicate AmShape(ue: Ue) { None in ue.am ==> ue.am.Keys == {None} }

  function UeId(imsi: string): string { "imsi-" + imsi }

  function PlmnText(p: Plmn): string { p.mcc + p.mnc }

  // ---------- payloads ----------

  /** What one group gives one of its subscribers under one slice. */
  datatype Payload = Payload(
    plmn: string, snssai: SnssaiModel, dnns: map<string, DnnConfig>, uplink: string, downlink: string, gpsi: string)

  function Hex(n: nat): string {
    if n < 16 then [HexDigit(n)] else Hex(n / 16) + [HexDigit(n % 16)]
  }

  function HexDigit(d: int): char
    requires 0 <= d < 16
  {
    if d < 10 then ('0' as int + d) as char else ('a' as int + d - 10) as char
  }

  /** SnssaiModelsToHex: the SST as %02x, then the SD. */
  function SnssaiHex(x: SnssaiModel): string {
    var n: int := x.sst;
    (if n < 0 then "-" + Hex(-n) else if n < 16 then "0" + Hex(n) else Hex(n)) + x.sd
  }

  /** strconv.ParseUint(sst, 10, 32) followed by int32(x). */
  function ParseSst(sst: string): Option<int32> {
    if !Views.AllDigits(sst) || Bitrate.ParseUint(sst) >= TWO_TO_32 then None
    else Some(Views.Truncate32(Bitrate.ParseUint(sst)))
  }

  /** The slice path's DNN map: every DNN has an entry, with or without profiles. */
  function QosByDnn(domains: seq<IpDomain>): map<string, seq<Qos>> {
    if domains == [] then map[]
    else
      var m := QosByDnn(domains[..|domains| - 1]);
      var d := domains[|domains| - 1];
      var before := if d.dnn in m then m[d.dnn] else [];
      m[d.dnn := before + if d.qos.Some? then [d.qos.value] else []]
  }

  /** The group path's DNN map: a domain without QoS leaves no trace. */
  function PostedQosByDnn(domains: seq<IpDomain>): map<string, seq<Qos>> {
    if domains == [] then map[]
    else
      var m := PostedQosByDnn(domains[..|domains| - 1]);
      var d := domains[|domains| - 1];
      if d.qos.None? then m
      else m[d.dnn := (if d.dnn in m then m[d.dnn] else []) + [d.qos.value]]
  }

  /** All profiles of a group. */
  function Profiles(domains: seq<IpDomain>): seq<Qos> {
    if domains == [] then []
    else
      var d := domains[|domains| - 1];
      Profiles(domains[..|domains| - 1]) + if d.qos.Some? then [d.qos.value] else []
  }

  /** The profiles of a DNN map, read in the order in which a loop happens to visit its keys. */
  function Flatten(m: map<string, seq<Qos>>, order: seq<string>): seq<Qos>
    requires forall dnn :: dnn in order ==> dnn in m
  {
    if order == [] then []
    else
      var front, last := order[..|order| - 1], order[|order| - 1];
      assert order == front + [last];
      Flatten(m, front) + m[last]
  }

  lemma {:induction false} FlattenSame(m: map<string, seq<Qos>>, w: map<string, seq<Qos>>, order: seq<string>)
    requires forall dnn :: dnn in order ==> dnn in m && dnn in w && m[dnn] == w[dnn]
    ensures Flatten(m, order) == Flatten(w, order)
  {
    if order != [] {
      assert order == order[..|order| - 1] + [order[|order| - 1]];
      FlattenSame(m, w, order[..|order| - 1]);
    }
  }

  lemma FlattenSnoc(m: map<string, seq<Qos>>, order: seq<string>, dnn: string)
    requires dnn in m && forall d :: d in order ==> d in m
    ensures Flatten(m, order + [dnn]) == Flatten(m, order) + m[dnn]
  {
    assert (order + [dnn])[..|order|] == order;
  }

  lemma {:induction false} FlattenWithout(m: map<string, seq<Qos>>, a: seq<string>, dnn: string, b: seq<string>)
    requires dnn in m && (forall d :: d in a ==> d in m) && (forall d :: d in b ==> d in m)
    ensures multiset(Flatten(m, (a + [dnn]) + b)) == multiset(Flatten(m, a + b)) + multiset(m[dnn])
  {
    hide Flatten;
    if b == [] {
      assert (a + [dnn]) + b == a + [dnn] && a + b == a;
      FlattenSnoc(m, a, dnn);
    } else {
      var front, last := b[..|b| - 1], b[|b| - 1];
      assert b == front + [last];
      assert (a + [dnn]) + b == ((a + [dnn]) + front) + [last] && a + b == (a + front) + [last];
      FlattenWithout(m, a, dnn, front);
      FlattenSnoc(m, (a + [dnn]) + front, last);
      FlattenSnoc(m, a + front, last);
    }
  }

  lemma Around(order: seq<string>, dnns: set<string>, dnn: string) returns (a: seq<string>, b: seq<string>)
    requires Enumerates(order, dnns) && dnn in dnns
    ensures order == (a + [dnn]) + b && Enumerates(a + b, dnns - {dnn})
  {
    var i :| 0 <= i < |order| && order[i] == dnn;
    a, b := order[..i], order[i + 1..];
    var rest := a + b;
    assert forall k :: 0 <= k < |rest| ==> rest[k] == order[if k < i then k else k + 1];
    forall k | k in dnns - {dnn} ensures k in rest {
      var j :| 0 <= j < |order| && order[j] == k;
      assert rest[if j < i then j else j - 1] == k;
    }
  }

  /** Visiting the DNNs in any order collects the group's profiles: one more domain adds its own. */
  lemma FlattenExtended(m: map<string, seq<Qos>>, w: map<string, seq<Qos>>, dnn: string, extra: seq<Qos>, order: seq<string>)
    returns (before: seq<string>)
    requires w == m[dnn := (if dnn in m then m[dnn] else []) + extra] && Enumerates(order, w.Keys)
    ensures Enumerates(before, m.Keys)
    ensures multiset(Flatten(w, order)) == multiset(Flatten(m, before)) + multiset(extra)
  {
    assert w.Keys == m.Keys + {dnn};
    var a, b := Around(order, w.Keys, dnn);
    FlattenWithout(w, a, dnn, b);
    FlattenSame(w, m, a + b);
    if dnn in m {
      before := order;
      assert w.Keys == m.Keys;
      FlattenWithout(m, a, dnn, b);
    } else {
      before := a + b;
      assert w.Keys - {dnn} == m.Keys;
    }
  }

  lemma {:induction false} FlattenedProfiles(domains: seq<IpDomain>, order: seq<string>)
    requires Enumerates(order, QosByDnn(domains).Keys)
    ensures multiset(Flatten(QosByDnn(domains), order)) == multiset(Profiles(domains))
  {
    if domains != [] {
      var d := domains[|domains| - 1];
      var before := FlattenExtended(QosByDnn(domains[..|domains| - 1]), QosByDnn(domains), d.dnn,
                                    if d.qos.Some? then [d.qos.value] else [], order);
      FlattenedProfiles(domains[..|domains| - 1], before);
    } else {
      EnumerationMultiset(order, {});
      assert |order| == |multiset(order)| == 0;
    }
  }

  lemma {:induction false} FlattenedPostedProfiles(domains: seq<IpDomain>, order: seq<string>)
    requires Enumerates(order, PostedQosByDnn(domains).Keys)
    ensures multiset(Flatten(PostedQosByDnn(domains), order)) == multiset(Profiles(domains))
  {
    if domains != [] {
      var front, d := domains[..|domains| - 1], domains[|domains| - 1];
      if d.qos.Some? {
        var before := FlattenExtended(PostedQosByDnn(front), PostedQosByDnn(domains), d.dnn, [d.qos.value], order);
        FlattenedPostedProfiles(front, before);
      } else {
        FlattenedPostedProfiles(front, order);
      }
    } else {
      EnumerationMultiset(order, {});
      assert |order| == |multiset(order)| == 0;
    }
  }

  predicate Classed(q: Qos) { q.trafficClass.Some? }

  /** Every DNN aggregates to a profile with a traffic class; otherwise SM data cannot be built. */
  predicate AllClassed(m: map<string, seq<Qos>>) {
    forall dnn :: dnn in m ==> Classed(Bitrate.Aggregate(m[dnn]))
  }

  function DnnConfigOf(q: Qos): DnnConfig
    requires Classed(q)
  {
    DnnConfig(Bitrate.ConvertToString(Bitrate.ToUint64(q.uplink)), Bitrate.ConvertToString(Bitrate.ToUint64(q.downlink)),
              q.trafficClass.value.qci)
  }

  function DnnConfigs(m: map<string, seq<Qos>>): map<string, DnnConfig> {
    map dnn | dnn in m && Classed(Bitrate.Aggregate(m[dnn])) :: DnnConfigOf(Bitrate.Aggregate(m[dnn]))
  }

  /** The slice and PLMN a provisioning request works for. */
  datatype Target = Target(snssai: SnssaiModel, plmn: string)

  function PayloadOf(m: map<string, seq<Qos>>, total: Qos, t: Target, gpsi: string): Payload {
    Payload(t.plmn, t.snssai, DnnConfigs(m), Bitrate.ConvertToString(Bitrate.ToUint64(total.uplink)),
            Bitrate.ConvertToString(Bitrate.ToUint64(total.downlink)), gpsi)
  }

  // ---------- events ----------

  datatype Event =
    | Provide(ue: string, payload: Payload)
    | Remove(ue: string, plmn: string)

  /** updateAmProvisionedData: reuse the document of this PLMN or the one without a PLMN; the
      GPSIs stay unless a new one is given. */
  function AmPosted(am: map<Option<string>, Option<AmData>>, x: Payload): map<Option<string>, Option<AmData>> {
    var reused := if None in am then am[None] else if Some(x.plmn) in am then am[Some(x.plmn)] else None;
    var gpsis := if x.gpsi != "" then [x.gpsi] else if reused.Some? then reused.value.gpsis else [];
    (am - {None})[Some(x.plmn) := Some(AmData(gpsis, x.snssai, x.uplink, x.downlink))]
  }

  /** updatePolicyAndProvisionedData: the five upserts. */
  ghost function Provided(ue: Ue, x: Payload): Ue {
    Ue(true, Some(SmPolicy(SnssaiHex(x.snssai), x.dnns.Keys)), AmPosted(ue.am, x),
       ue.sm[x.plmn := SmData(x.snssai, x.dnns)],
       ue.smf[x.plmn := SmfSelection(SnssaiHex(x.snssai), SortedSet(x.dnns.Keys))])
  }

  /** removeSubscriberEntriesRelatedToDeviceGroups: the five delete-ones. */
  function Removed(ue: Ue, plmn: string): Ue {
    Ue(false, None, ue.am - {Some(plmn)}, ue.sm - {plmn}, ue.smf - {plmn})
  }

  ghost function Act(ue: Ue, e: Event): Ue {
    match e
    case Provide(_, x) => Provided(ue, x)
    case Remove(_, plmn) => Removed(ue, plmn)
  }

  ghost function Play(p: Prov, es: seq<Event>): Prov {
    if es == [] then p
    else
      var q := Play(p, es[..|es| - 1]);
      var e := es[|es| - 1];
      q[e.ue := Act(Get(q, e.ue), e)]
  }

  ghost function PlayUe(ue: Ue, es: seq<Event>): Ue {
    if es == [] then ue else Act(PlayUe(ue, es[..|es| - 1]), es[|es| - 1])
  }

  /** The events of one subscriber. */
  function Mine(es: seq<Event>, u: string): seq<Event> {
    if es == [] then []
    else Mine(es[..|es| - 1], u) + if es[|es| - 1].ue == u then [es[|es| - 1]] else []
  }

  lemma {:induction false} PlayConcat(p: Prov, a: seq<Event>, b: seq<Event>)
    ensures Play(p, a + b) == Play(Play(p, a), b)
  {
    if b == [] {
      assert a + b == a;
    } else {
      assert (a + b)[..|a + b| - 1] == a + b[..|b| - 1];
      PlayConcat(p, a, b[..|b| - 1]);
    }
  }

  lemma {:induction false} PlayUeConcat(ue: Ue, a: seq<Event>, b: seq<Event>)
    ensures PlayUe(ue, a + b) == PlayUe(PlayUe(ue, a), b)
  {
    if b == [] {
      assert a + b == a;
    } else {
      assert (a + b)[..|a + b| - 1] == a + b[..|b| - 1];
      PlayUeConcat(ue, a, b[..|b| - 1]);
    }
  }

  lemma {:induction false} MineConcat(a: seq<Event>, b: seq<Event>, u: string)
    ensures Mine(a + b, u) == Mine(a, u) + Mine(b, u)
  {
    if b == [] {
      assert a + b == a;
    } else {
      assert (a + b)[..|a + b| - 1] == a + b[..|b| - 1];
      MineConcat(a, b[..|b| - 1], u);
    }
  }

  lemma {:induction false} MineMembers(es: seq<Event>, u: string, e: Event)
    ensures e in Mine(es, u) <==> e in es && e.ue == u
  {
    if es != [] {
      assert es == es[..|es| - 1] + [es[|es| - 1]];
      MineMembers(es[..|es| - 1], u, e);
    }
  }

  /** A subscriber's records after any events are the fold of its own events alone. */
  lemma {:induction false} EachUeByItself(p: Prov, es: seq<Event>, u: string)
    ensures Get(Play(p, es), u) == PlayUe(Get(p, u), Mine(es, u))
  {
    if es != [] {
      var front, e := es[..|es| - 1], es[|es| - 1];
      EachUeByItself(p, front, u);
      assert es == front + [e];
      PlayStep(p, front, e, u);
      MineSnoc(front, e, u);
      if e.ue == u { PlayUeSnoc(Get(p, u), Mine(front, u), e); }
    }
  }

  lemma MineSnoc(es: seq<Event>, e: Event, u: string)
    ensures Mine(es + [e], u) == if e.ue == u then Mine(es, u) + [e] else Mine(es, u)
  {
    assert (es + [e])[..|es|] == es;
  }

  lemma PlayStep(p: Prov, es: seq<Event>, e: Event, u: string)
    ensures Get(Play(p, es + [e]), u) == if e.ue == u then Act(Get(Play(p, es), u), e) else Get(Play(p, es), u)
  {
    assert (es + [e])[..|es|] == es;
  }

  lemma PlayUeSnoc(ue: Ue, es: seq<Event>, e: Event)
    ensures PlayUe(ue, es + [e]) == Act(PlayUe(ue, es), e)
  {
    assert (es + [e])[..|es|] == es;
  }

  /** Events of other subscribers leave a subscriber alone. */
  lemma OthersUntouched(p: Prov, es: seq<Event>, u: string)
    requires forall e :: e in es ==> e.ue != u
    ensures Get(Play(p, es), u) == Get(p, u)
  {
    EachUeByItself(p, es, u);
    if Mine(es, u) != [] { MineMembers(es, u, Mine(es, u)[0]); }
  }

  // ---------- what a group, a slice and a cleanup ask for ----------

  /** What a request can read: the ueIds whose authentication record it finds, the stored groups,
      and the group names whose read fails without being reported. */
  datatype Env = Env(auth: set<string>, groups: seq<Group>, unread: set<string>)

  const NoGroup := Group("", [], [], "", "", [])

  function FindGroup(groups: seq<Group>, name: string): Option<Group> {
    if groups == [] then None
    else if groups[0].name == name then Some(groups[0])
    else FindGroup(groups[1..], name)
  }

  /** getDeviceGroupByName: nil on a read error, an empty record when nothing is stored. */
  function ReadGroup(env: Env, name: string): Option<Group> {
    if name in env.unread then None
    else
      var g := FindGroup(env.groups, name);
      if g.Some? then g else Some(NoGroup)
  }

  function GpsiAt(g: Group, i: nat): string {
    if i < |g.msisdns| then g.msisdns[i] else ""
  }

  /** Provisioning of the first n IMSIs of a group. */
  function GroupEvents(auth: set<string>, g: Group, m: map<string, seq<Qos>>, t: Target, n: nat): seq<Event>
    requires n <= |g.imsis|
  {
    if n == 0 then []
    else GroupEvents(auth, g, m, t, n - 1) + ImsiEvents(auth, g, m, t, n - 1)
  }

  /** An IMSI without an authentication record is passed over. */
  function ImsiEvents(auth: set<string>, g: Group, m: map<string, seq<Qos>>, t: Target, i: nat): seq<Event>
    requires i < |g.imsis|
  {
    if UeId(g.imsis[i]) in auth then [GroupEvent(g, m, t, i)] else []
  }

  /** Provisioning of the i-th IMSI of a group. */
  function GroupEvent(g: Group, m: map<string, seq<Qos>>, t: Target, i: nat): Event
    requires i < |g.imsis|
  {
    Provide(UeId(g.imsis[i]), PayloadOf(m, Bitrate.Aggregate(Profiles(g.domains)), t, GpsiAt(g, i)))
  }

  /** processDeviceGroup, or nothing when the group is unread, unknown or has no IP domain. */
  function NameEvents(env: Env, name: string, t: Target): seq<Event> {
    var g := ReadGroup(env, name);
    if g.None? || g.value.domains == [] then []
    else GroupEvents(env.auth, g.value, QosByDnn(g.value.domains), t, |g.value.imsis|)
  }

  function NamesEvents(env: Env, names: seq<string>, t: Target): seq<Event> {
    if names == [] then []
    else NamesEvents(env, names[..|names| - 1], t) + NameEvents(env, names[|names| - 1], t)
  }

  /** processDeviceGroup reports no error: nothing to do, or every DNN has a traffic class. */
  predicate NameOk(env: Env, name: string, t: Target) {
    var g := ReadGroup(env, name);
    NameEvents(env, name, t) != [] ==> g.Some? && AllClassed(QosByDnn(g.value.domains))
  }

  /** getDeletedDeviceGroupsList. */
  function RemovedNames(slice: Slice, prev: Slice): seq<string> {
    if prev.groups == [] then []
    else if slice.groups == [] then prev.groups
    else NotIn(prev.groups, slice.groups)
  }

  function NotIn(names: seq<string>, kept: seq<string>): seq<string> {
    if names == [] then []
    else
      var last := names[|names| - 1];
      NotIn(names[..|names| - 1], kept) + if last in kept then [] else [last]
  }

  function RemoveEvents(imsis: seq<string>, plmn: string): seq<Event> {
    if imsis == [] then []
    else RemoveEvents(imsis[..|imsis| - 1], plmn) + [Remove(UeId(imsis[|imsis| - 1]), plmn)]
  }

  function CleanupEvents(env: Env, names: seq<string>, plmn: string): seq<Event> {
    if names == [] then []
    else
      var g := ReadGroup(env, names[|names| - 1]);
      CleanupEvents(env, names[..|names| - 1], plmn) + if g.Some? then RemoveEvents(g.value.imsis, plmn) else []
  }

  function TargetOf(slice: Slice): Option<Target> {
    var sst := ParseSst(slice.id.sst);
    if sst.None? then None else Some(Target(SnssaiModel(sst.value, slice.id.sd), PlmnText(slice.plmn)))
  }

  /** All events of storing a slice: provisioning of its groups, then cleanup of the removed ones. */
  function SliceEvents(env: Env, slice: Slice, prev: Slice): seq<Event>
    requires TargetOf(slice).Some?
  {
    NamesEvents(env, slice.groups, TargetOf(slice).value)
      + CleanupEvents(env, RemovedNames(slice, prev), PlmnText(prev.plmn))
  }

  /** Storing a slice reports success if no write fails. */
  predicate SliceOk(env: Env, slice: Slice) {
    TargetOf(slice).Some? && forall name :: name in slice.groups ==> NameOk(env, name, TargetOf(slice).value)
  }

  /** getDeletedImsisList. */
  function RemovedImsis(g: Group, prev: Option<Group>): seq<string> {
    if prev.None? then [] else NotIn(prev.value.imsis, g.imsis)
  }

  /** All events of storing a group that a slice lists: provisioning, then removal of the IMSIs
      the group no longer has. Here an empty domain list is not an exception. */
  function PostedGroupEvents(auth: set<string>, g: Group, prev: Option<Group>, t: Target): seq<Event> {
    GroupEvents(auth, g, PostedQosByDnn(g.domains), t, |g.imsis|) + RemoveEvents(RemovedImsis(g, prev), t.plmn)
  }

  // ---------- facts about events ----------

  lemma {:induction false} GroupEventsAre(auth: set<string>, g: Group, m: map<string, seq<Qos>>, t: Target, n: nat, e: Event)
    requires n <= |g.imsis|
    ensures e in GroupEvents(auth, g, m, t, n) <==>
            exists i :: 0 <= i < n && UeId(g.imsis[i]) in auth && e == GroupEvent(g, m, t, i)
  {
    hide GroupEvent;
    if n > 0 { GroupEventsAre(auth, g, m, t, n - 1, e); }
  }

  lemma {:induction false} RemoveEventsAre(imsis: seq<string>, plmn: string, e: Event)
    ensures e in RemoveEvents(imsis, plmn) <==> exists imsi :: imsi in imsis && e == Remove(UeId(imsi), plmn)
  {
    if imsis != [] {
      assert imsis == imsis[..|imsis| - 1] + [imsis[|imsis| - 1]];
      RemoveEventsAre(imsis[..|imsis| - 1], plmn, e);
    }
  }

  lemma {:induction false} CleanupEventsAre(env: Env, names: seq<string>, plmn: string, e: Event)
    ensures e in CleanupEvents(env, names, plmn) <==>
            exists name, imsi :: name in names && ReadGroup(env, name).Some? && imsi in ReadGroup(env, name).value.imsis
              && e == Remove(UeId(imsi), plmn)
  {
    if names != [] {
      var front, last := names[..|names| - 1], names[|names| - 1];
      assert names == front + [last];
      CleanupEventsAre(env, front, plmn, e);
      if ReadGroup(env, last).Some? { RemoveEventsAre(ReadGroup(env, last).value.imsis, plmn, e); }
    }
  }

  lemma {:induction false} NamesEventsAre(env: Env, names: seq<string>, t: Target, e: Event)
    ensures e in NamesEvents(env, names, t) <==> exists name :: name in names && e in NameEvents(env, name, t)
  {
    if names != [] {
      var front, last := names[..|names| - 1], names[|names| - 1];
      assert names == front + [last];
      NamesEventsAre(env, front, t, e);
    }
  }

  lemma {:induction false} NamesEventsConcat(env: Env, a: seq<string>, b: seq<string>, t: Target)
    ensures NamesEvents(env, a + b, t) == NamesEvents(env, a, t) + NamesEvents(env, b, t)
  {
    if b == [] {
      assert a + b == a;
    } else {
      var front, last := b[..|b| - 1], b[|b| - 1];
      assert a + b == (a + front) + [last] && b == front + [last];
      NamesEventsConcat(env, a, front, t);
      NamesEventsSnoc(env, a + front, last, t);
      NamesEventsSnoc(env, front, last, t);
      ConcatAssociative(NamesEvents(env, a, t), NamesEvents(env, front, t), NameEvents(env, last, t));
    }
  }

  lemma ConcatAssociative(a: seq<Event>, b: seq<Event>, c: seq<Event>)
    ensures (a + b) + c == a + (b + c)
  {
  }

  lemma NamesEventsSnoc(env: Env, names: seq<string>, name: string, t: Target)
    ensures NamesEvents(env, names + [name], t) == NamesEvents(env, names, t) + NameEvents(env, name, t)
  {
    assert (names + [name])[..|names|] == names;
  }

  lemma {:induction false} NotInMembers(names: seq<string>, kept: seq<string>, name: string)
    ensures name in NotIn(names, kept) <==> name in names && name !in kept
  {
    if names != [] {
      assert names == names[..|names| - 1] + [names[|names| - 1]];
      NotInMembers(names[..|names| - 1], kept, name);
    }
  }

  lemma RemovedNamesMembers(slice: Slice, prev: Slice, name: string)
    ensures name in RemovedNames(slice, prev) <==> name in prev.groups && name !in slice.groups
  {
    NotInMembers(prev.groups, slice.groups, name);
  }

  /** Provisioning events all provide under the target PLMN. */
  lemma ProvisioningEventShape(env: Env, names: seq<string>, t: Target, e: Event)
    requires e in NamesEvents(env, names, t)
    ensures e.Provide? && e.payload.plmn == t.plmn && e.ue in env.auth
  {
    NamesEventsAre(env, names, t, e);
    var name :| name in names && e in NameEvents(env, name, t);
    var g := ReadGroup(env, name).value;
    GroupEventsAre(env.auth, g, QosByDnn(g.domains), t, |g.imsis|, e);
  }

  /** The two DNN maps agree as soon as every DNN of the slice path has a traffic class. */
  lemma {:induction false} DnnMapsAgree(domains: seq<IpDomain>)
    ensures forall dnn :: dnn in PostedQosByDnn(domains) ==> dnn in QosByDnn(domains) && PostedQosByDnn(domains)[dnn] == QosByDnn(domains)[dnn]
    ensures forall dnn :: dnn in QosByDnn(domains) && QosByDnn(domains)[dnn] != [] ==> dnn in PostedQosByDnn(domains)
    ensures forall dnn :: dnn in PostedQosByDnn(domains) ==> PostedQosByDnn(domains)[dnn] != []
  {
    if domains != [] { DnnMapsAgree(domains[..|domains| - 1]); }
  }

  lemma TwoPathsOneMap(domains: seq<IpDomain>)
    requires AllClassed(QosByDnn(domains))
    ensures PostedQosByDnn(domains) == QosByDnn(domains)
  {
    DnnMapsAgree(domains);
    forall dnn | dnn in QosByDnn(domains) ensures dnn in PostedQosByDnn(domains) {
      assert Bitrate.Aggregate([]) == Bitrate.NoQos;
    }
  }

  // ---------- changing stored slices one after the other ----------

  /** slices.DeleteFunc on the group names of a slice. */
  function WithoutGroup(name: string): Slice -> Slice {
    (s: Slice) => s.(groups := NotIn(s.groups, [name]))
  }

  /** The events of storing the changed version of each of these slices in turn. */
  function ChangeEvents(env: Env, order: seq<Slice>, change: Slice -> Slice): seq<Event>
    requires forall s :: s in order ==> TargetOf(change(s)).Some?
  {
    if order == [] then []
    else
      var front, last := order[..|order| - 1], order[|order| - 1];
      assert order == front + [last];
      ChangeEvents(env, front, change) + SliceEvents(env, change(last), last)
  }

  // ---------- stored groups and slices, and the two write requests ----------

  /** A top-level $set of a group: name and IMSIs always, the rest only when not empty. */
  function MergeGroup(stored: Group, g: Group): Group {
    g.(msisdns := if g.msisdns != [] then g.msisdns else stored.msisdns,
       siteInfo := if g.siteInfo != "" then g.siteInfo else stored.siteInfo,
       ipDomainName := if g.ipDomainName != "" then g.ipDomainName else stored.ipDomainName,
       domains := if g.domains != [] then g.domains else stored.domains)
  }

  /** A top-level $set of a slice: everything but an empty rule list. */
  function MergeSlice(stored: Slice, s: Slice): Slice {
    s.(rules := if s.rules != [] then s.rules else stored.rules)
  }

  function PutGroup(groups: seq<Group>, g: Group): seq<Group> {
    if groups == [] then [g]
    else if groups[0].name == g.name then [MergeGroup(groups[0], g)] + groups[1..]
    else [groups[0]] + PutGroup(groups[1..], g)
  }

  function PutSlice(slices: seq<Slice>, s: Slice): seq<Slice> {
    if slices == [] then [s]
    else if slices[0].name == s.name then [MergeSlice(slices[0], s)] + slices[1..]
    else [slices[0]] + PutSlice(slices[1..], s)
  }

  const NoSlice := Slice("", SliceId("", ""), [], "", Plmn("", ""), [], None, [])

  function FindSlice(slices: seq<Slice>, name: string): Option<Slice> {
    if slices == [] then None
    else if slices[0].name == name then Some(slices[0])
    else FindSlice(slices[1..], name)
  }

  datatype Stored = Stored(auth: set<string>, prov: Prov, groups: seq<Group>, slices: seq<Slice>)

  /** Reads that fail without failing the request: of authentication records, of groups by name,
      of the previous version of what is being stored, and of the list of slices. */
  datatype Unread = Unread(auth: set<string>, groups: set<string>, previous: bool, slices: bool)

  const AllRead := Unread({}, {}, false, false)

  function EnvOf(st: Stored, f: Unread): Env { Env(st.auth - f.auth, st.groups, f.groups) }

  function PreviousSlice(slices: seq<Slice>, name: string, f: Unread): Slice {
    if f.previous then NoSlice
    else
      var s := FindSlice(slices, name);
      if s.Some? then s.value else NoSlice
  }

  /** What a request that stores a (validated, normalized) slice leaves if it reports success. */
  ghost function PostSlice(st: Stored, s: Slice, f: Unread): Option<Stored> {
    var env := EnvOf(st, f);
    if !SliceOk(env, s) then None
    else Some(st.(slices := PutSlice(st.slices, s),
                  prov := Play(st.prov, SliceEvents(env, s, PreviousSlice(st.slices, s.name, f)))))
  }

  function PreviousGroup(groups: seq<Group>, name: string, f: Unread): Option<Group> {
    if f.previous then None
    else
      var g := FindGroup(groups, name);
      if g.Some? then g else Some(NoGroup)
  }

  /** findSliceByDeviceGroup returns some slice that lists the group, or none if there is none or
      the slices cannot be read. */
  predicate MayChoose(slices: seq<Slice>, name: string, f: Unread, chosen: Option<Slice>) {
    match chosen
    case Some(c) => !f.slices && c in slices && name in c.groups
    case None => f.slices || forall c :: c in slices ==> name !in c.groups
  }

  /** What a request that stores a (normalized, named) group leaves if it reports success. */
  ghost function PostGroup(st: Stored, g: Group, f: Unread, chosen: Option<Slice>): Option<Stored> {
    var stored := st.(groups := PutGroup(st.groups, g));
    if chosen.None? then Some(stored)
    else
      var t := TargetOf(chosen.value);
      var auth := st.auth - f.auth;
      var m := PostedQosByDnn(g.domains);
      if t.None? || (GroupEvents(auth, g, m, t.value, |g.imsis|) != [] && !AllClassed(m)) then None
      else Some(stored.(prov := Play(st.prov, PostedGroupEvents(auth, g, PreviousGroup(st.groups, g.name, f), t.value))))
  }
}
