/** What the provisioning requests achieve: the records left by storing a slice, by deleting a
    group, and by storing a group and a slice in either order. */
module ProvisioningTheorems {
  import opened Prelude
  import opened Models
  import opened Provisioning
  import Bitrate

  lemma UeIdInjective(a: string, b: string)
    requires UeId(a) == UeId(b)
    ensures a == b
  {
    assert UeId(a)[5..] == a && UeId(b)[5..] == b;
  }

  // ---------- storing a slice ----------

  /** ue holds the documents of payload x, all five of them; only the GPSIs may be older. */
  ghost predicate HoldsPayload(ue: Ue, x: Payload) {
    && ue.amPolicy
    && ue.smPolicy == Some(SmPolicy(SnssaiHex(x.snssai), x.dnns.Keys))
    && Some(x.plmn) in ue.am && ue.am[Some(x.plmn)].Some?
    && ue.am[Some(x.plmn)].value == AmData(ue.am[Some(x.plmn)].value.gpsis, x.snssai, x.uplink, x.downlink)
    && (x.gpsi != "" ==> ue.am[Some(x.plmn)].value.gpsis == [x.gpsi])
    && x.plmn in ue.sm && ue.sm[x.plmn] == SmData(x.snssai, x.dnns)
    && x.plmn in ue.smf && ue.smf[x.plmn] == SmfSelection(SnssaiHex(x.snssai), SortedSet(x.dnns.Keys))
  }

  lemma ProvidedHolds(ue: Ue, x: Payload)
    ensures HoldsPayload(Provided(ue, x), x)
  {
  }

  /** The group provisions this IMSI when it is processed. */
  ghost predicate Provisions(env: Env, name: string, imsi: string) {
    var g := ReadGroup(env, name);
    g.Some? && g.value.domains != [] && imsi in g.value.imsis
  }

  lemma NameEventsMine(env: Env, name: string, t: Target, imsi: string)
    ensures !Provisions(env, name, imsi) ==> Mine(NameEvents(env, name, t), UeId(imsi)) == []
    ensures Provisions(env, name, imsi) && UeId(imsi) in env.auth ==> Mine(NameEvents(env, name, t), UeId(imsi)) != []
  {
    var es := NameEvents(env, name, t);
    var mine := Mine(es, UeId(imsi));
    if mine != [] {
      assert mine[0] in mine;
      MineMembers(es, UeId(imsi), mine[0]);
      var g := ReadGroup(env, name).value;
      var i := GroupEventOwner(env.auth, g, QosByDnn(g.domains), t, imsi, mine[0]);
    }
    if Provisions(env, name, imsi) && UeId(imsi) in env.auth {
      var g := ReadGroup(env, name).value;
      var i :| 0 <= i < |g.imsis| && g.imsis[i] == imsi;
      var e := GroupEvent(g, QosByDnn(g.domains), t, i);
      GroupEventsAre(env.auth, g, QosByDnn(g.domains), t, |g.imsis|, e);
      MineMembers(es, UeId(imsi), e);
    }
  }

  lemma {:induction false} NamesEventsMineEmpty(env: Env, names: seq<string>, t: Target, imsi: string)
    requires forall name :: name in names ==> !Provisions(env, name, imsi)
    ensures Mine(NamesEvents(env, names, t), UeId(imsi)) == []
  {
    if names != [] {
      var front, last := names[..|names| - 1], names[|names| - 1];
      NamesEventsMineEmpty(env, front, t, imsi);
      NameEventsMine(env, last, t, imsi);
      MineConcat(NamesEvents(env, front, t), NameEvents(env, last, t), UeId(imsi));
    }
  }

  /** The IMSI is listed by a stored group whose name is among these. */
  ghost predicate ListedBy(env: Env, names: seq<string>, imsi: string) {
    exists name :: name in names && ReadGroup(env, name).Some? && imsi in ReadGroup(env, name).value.imsis
  }

  lemma CleanupMine(env: Env, names: seq<string>, plmn: string, imsi: string)
    ensures Mine(CleanupEvents(env, names, plmn), UeId(imsi)) == [] <==> !ListedBy(env, names, imsi)
  {
    var es := CleanupEvents(env, names, plmn);
    var mine := Mine(es, UeId(imsi));
    if mine != [] {
      assert mine[0] in mine;
      MineMembers(es, UeId(imsi), mine[0]);
      CleanupEventsAre(env, names, plmn, mine[0]);
      var name, other :| name in names && ReadGroup(env, name).Some? && other in ReadGroup(env, name).value.imsis
                         && mine[0] == Remove(UeId(other), plmn);
      UeIdInjective(other, imsi);
    }
    if ListedBy(env, names, imsi) {
      var name :| name in names && ReadGroup(env, name).Some? && imsi in ReadGroup(env, name).value.imsis;
      CleanupEventsAre(env, names, plmn, Remove(UeId(imsi), plmn));
      MineMembers(es, UeId(imsi), Remove(UeId(imsi), plmn));
    }
  }

  /** The events of an IMSI that no removed group lists end with those of the last listed group
      that provisions it. */
  lemma SliceEventsMine(env: Env, slice: Slice, prev: Slice, j: nat, imsi: string)
    requires TargetOf(slice).Some? && j < |slice.groups|
    requires forall k :: j < k < |slice.groups| ==> !Provisions(env, slice.groups[k], imsi)
    requires !ListedBy(env, RemovedNames(slice, prev), imsi)
    ensures var t := TargetOf(slice).value; var u := UeId(imsi);
      Mine(SliceEvents(env, slice, prev), u)
        == Mine(NamesEvents(env, slice.groups[..j], t), u) + Mine(NameEvents(env, slice.groups[j], t), u)
  {
    var t, u := TargetOf(slice).value, UeId(imsi);
    var before, name, after := slice.groups[..j], slice.groups[j], slice.groups[j + 1..];
    var cleanup := CleanupEvents(env, RemovedNames(slice, prev), PlmnText(prev.plmn));
    assert slice.groups == (before + [name]) + after;
    NamesEventsConcat(env, before + [name], after, t);
    NamesEventsSnoc(env, before, name, t);
    NamesEventsMineEmpty(env, after, t, imsi);
    CleanupMine(env, RemovedNames(slice, prev), PlmnText(prev.plmn), imsi);
    MineConcat(NamesEvents(env, slice.groups, t), cleanup, u);
    MineConcat(NamesEvents(env, before + [name], t), NamesEvents(env, after, t), u);
    MineConcat(NamesEvents(env, before, t), NameEvents(env, name, t), u);
  }

  /** Storing a slice leaves every IMSI with an authentication record that a listed group with an
      IP domain holds, and no removed group lists, with all five documents under the new PLMN,
      taken from the last such group. */
  lemma StoredSliceProvisions(p: Prov, env: Env, slice: Slice, prev: Slice, j: nat, imsi: string)
    requires SliceOk(env, slice) && j < |slice.groups|
    requires Provisions(env, slice.groups[j], imsi) && UeId(imsi) in env.auth
    requires forall k :: j < k < |slice.groups| ==> !Provisions(env, slice.groups[k], imsi)
    requires !ListedBy(env, RemovedNames(slice, prev), imsi)
    ensures var g := ReadGroup(env, slice.groups[j]).value;
      exists i :: 0 <= i < |g.imsis| && g.imsis[i] == imsi
        && HoldsPayload(Get(Play(p, SliceEvents(env, slice, prev)), UeId(imsi)),
                        GroupEvent(g, QosByDnn(g.domains), TargetOf(slice).value, i).payload)
  {
    hide NamesEvents, NameEvents, CleanupEvents, QosByDnn, PayloadOf, Mine, Play, PlayUe, HoldsPayload, NameOk, RemovedNames;
    var t, u := TargetOf(slice).value, UeId(imsi);
    var g := ReadGroup(env, slice.groups[j]).value;
    var last := Mine(NameEvents(env, slice.groups[j], t), u);
    SliceEventsMine(env, slice, prev, j, imsi);
    NameEventsMine(env, slice.groups[j], t, imsi);
    var i := LastMember(env, slice.groups[j], t, imsi);
    EachUeByItself(p, SliceEvents(env, slice, prev), u);
    var mine := Mine(SliceEvents(env, slice, prev), u);
    assert mine[|mine| - 1] == last[|last| - 1];
    LastEventHolds(Get(p, u), mine);
  }

  /** An event of a group that concerns an IMSI is that of one of its positions in the group. */
  lemma GroupEventOwner(auth: set<string>, g: Group, m: map<string, seq<Qos>>, t: Target, imsi: string, e: Event) returns (i: nat)
    requires e in GroupEvents(auth, g, m, t, |g.imsis|) && e.ue == UeId(imsi)
    ensures i < |g.imsis| && g.imsis[i] == imsi && e == GroupEvent(g, m, t, i)
  {
    hide PayloadOf, GroupEvents;
    GroupEventsAre(auth, g, m, t, |g.imsis|, e);
    i :| 0 <= i < |g.imsis| && UeId(g.imsis[i]) in auth && e == GroupEvent(g, m, t, i);
    UeIdInjective(g.imsis[i], imsi);
  }

  lemma LastMember(env: Env, name: string, t: Target, imsi: string) returns (i: nat)
    requires Provisions(env, name, imsi) && UeId(imsi) in env.auth
    ensures var g := ReadGroup(env, name).value; var last := Mine(NameEvents(env, name, t), UeId(imsi));
      i < |g.imsis| && g.imsis[i] == imsi && last != [] && last[|last| - 1] == GroupEvent(g, QosByDnn(g.domains), t, i)
  {
    hide QosByDnn, GroupEvent, GroupEvents, Mine;
    var g := ReadGroup(env, name).value;
    var last := Mine(NameEvents(env, name, t), UeId(imsi));
    NameEventsMine(env, name, t, imsi);
    var e := last[|last| - 1];
    assert e in last;
    MineMembers(NameEvents(env, name, t), UeId(imsi), e);
    i := GroupEventOwner(env.auth, g, QosByDnn(g.domains), t, imsi, e);
  }

  lemma LastEventHolds(ue: Ue, es: seq<Event>)
    requires es != [] && es[|es| - 1].Provide?
    ensures HoldsPayload(PlayUe(ue, es), es[|es| - 1].payload)
  {
    ProvidedHolds(PlayUe(ue, es[..|es| - 1]), es[|es| - 1].payload);
  }

  lemma {:induction false} QosByDnnIs(domains: seq<IpDomain>, dnn: string)
    ensures dnn in QosByDnn(domains) <==> exists d :: d in domains && d.dnn == dnn
    ensures dnn in QosByDnn(domains) ==>
              forall q :: q in QosByDnn(domains)[dnn] <==> exists d :: d in domains && d.dnn == dnn && d.qos == Some(q)
  {
    if domains != [] {
      var front, last := domains[..|domains| - 1], domains[|domains| - 1];
      assert domains == front + [last];
      QosByDnnIs(front, dnn);
    }
  }

  predicate HasClass(d: IpDomain, dnn: string) { d.dnn == dnn && d.qos.Some? && d.qos.value.trafficClass.Some? }

  /** In the documents of a payload the DNNs are those of the group's IP domains, the SMF list is
      those DNNs in increasing order, and each DNN's 5QI is the least QCI of its profiles. */
  lemma PayloadMeaning(g: Group, t: Target, i: nat, dnn: string)
    requires i < |g.imsis| && AllClassed(QosByDnn(g.domains))
    ensures var x := GroupEvent(g, QosByDnn(g.domains), t, i).payload;
      && (dnn in x.dnns <==> exists d :: d in g.domains && d.dnn == dnn)
      && (dnn in x.dnns ==>
            && (exists d :: d in g.domains && HasClass(d, dnn) && d.qos.value.trafficClass.value.qci == x.dnns[dnn].qci)
            && (forall d :: d in g.domains && HasClass(d, dnn) ==> x.dnns[dnn].qci <= d.qos.value.trafficClass.value.qci))
  {
    var m := QosByDnn(g.domains);
    QosByDnnIs(g.domains, dnn);
    if dnn in m {
      var qs := m[dnn];
      Bitrate.AggregateKeepsFirstLeastQci(qs);
      var tc := Bitrate.Aggregate(qs).trafficClass.value;
      var k :| 0 <= k < |qs| && qs[k].trafficClass == Some(tc);
      assert qs[k] in qs;
      var d :| d in g.domains && d.dnn == dnn && d.qos == Some(qs[k]);
      assert HasClass(d, dnn);
      forall d | d in g.domains && HasClass(d, dnn) ensures tc.qci <= d.qos.value.trafficClass.value.qci {
        assert d.qos.value in qs;
      }
    }
  }

  // ---------- deleting a group ----------

  predicate NoPolicies(ue: Ue) { !ue.amPolicy && ue.smPolicy.None? }

  predicate NothingUnder(ue: Ue, plmn: string) {
    Some(plmn) !in ue.am && plmn !in ue.sm && plmn !in ue.smf
  }

  predicate ProvidesUnder(es: seq<Event>, plmn: string) {
    forall e :: e in es ==> e.Provide? && e.payload.plmn == plmn
  }

  predicate RemovesUnder(es: seq<Event>, plmn: string) {
    forall e :: e in es ==> e.Remove? && e.plmn == plmn
  }

  lemma {:induction false} ProvidingKeepsOthersAway(ue: Ue, es: seq<Event>, plmn: string, other: string)
    requires ProvidesUnder(es, plmn) && other != plmn && NothingUnder(ue, other)
    ensures NothingUnder(PlayUe(ue, es), other)
  {
    if es != [] {
      ProvidingKeepsOthersAway(ue, es[..|es| - 1], plmn, other);
      assert es[|es| - 1] in es;
    }
  }

  lemma {:induction false} RemovingKeepsAway(ue: Ue, es: seq<Event>, plmn: string, other: string)
    requires RemovesUnder(es, plmn) && NothingUnder(ue, other)
    ensures NothingUnder(PlayUe(ue, es), other)
  {
    if es != [] {
      RemovingKeepsAway(ue, es[..|es| - 1], plmn, other);
      assert es[|es| - 1] in es;
    }
  }

  lemma RemovingClears(ue: Ue, es: seq<Event>, plmn: string)
    requires RemovesUnder(es, plmn) && es != []
    ensures NoPolicies(PlayUe(ue, es)) && NothingUnder(PlayUe(ue, es), plmn)
  {
    assert es[|es| - 1] in es;
  }

  /** One slice loses a group: its members of the group end without policies and without
      documents under the slice's PLMN, and nothing appears under another PLMN. */
  lemma SliceLosesGroup(ue: Ue, env: Env, slice: Slice, prev: Slice, imsi: string)
    requires TargetOf(slice).Some? && slice.plmn == prev.plmn
    requires ListedBy(env, RemovedNames(slice, prev), imsi)
    ensures var r := PlayUe(ue, Mine(SliceEvents(env, slice, prev), UeId(imsi)));
      && NoPolicies(r) && NothingUnder(r, PlmnText(prev.plmn))
      && forall other :: NothingUnder(ue, other) ==> NothingUnder(r, other)
  {
    var t, u, plmn := TargetOf(slice).value, UeId(imsi), PlmnText(prev.plmn);
    var provide := NamesEvents(env, slice.groups, t);
    var cleanup := CleanupEvents(env, RemovedNames(slice, prev), plmn);
    var a, b := Mine(provide, u), Mine(cleanup, u);
    MineConcat(provide, cleanup, u);
    PlayUeConcat(ue, a, b);
    CleanupMine(env, RemovedNames(slice, prev), plmn, imsi);
    forall e | e in a ensures e.Provide? && e.payload.plmn == plmn {
      MineMembers(provide, u, e);
      ProvisioningEventShape(env, slice.groups, t, e);
    }
    forall e | e in b ensures e.Remove? && e.plmn == plmn {
      MineMembers(cleanup, u, e);
      CleanupEventsAre(env, RemovedNames(slice, prev), plmn, e);
    }
    RemovingClears(PlayUe(ue, a), b, plmn);
    forall other | NothingUnder(ue, other) ensures NothingUnder(PlayUe(PlayUe(ue, a), b), other) {
      if other != plmn {
        ProvidingKeepsOthersAway(ue, a, plmn, other);
        RemovingKeepsAway(PlayUe(ue, a), b, plmn, other);
      }
    }
  }

  /** After a group is taken out of all slices that list it, in whatever order, each IMSI of the
      group is left with no policy and with no document under the PLMN of any of these slices. */
  lemma {:induction false} GroupRemovalClears(p: Prov, env: Env, order: seq<Slice>, name: string, imsi: string)
    requires forall s :: s in order ==> TargetOf(WithoutGroup(name)(s)).Some? && name in s.groups
    requires order != [] && ReadGroup(env, name).Some? && imsi in ReadGroup(env, name).value.imsis
    ensures var r := Get(Play(p, ChangeEvents(env, order, WithoutGroup(name))), UeId(imsi));
      NoPolicies(r) && forall s :: s in order ==> NothingUnder(r, PlmnText(s.plmn))
  {
    var front, last := order[..|order| - 1], order[|order| - 1];
    assert order == front + [last];
    var q := Play(p, ChangeEvents(env, front, WithoutGroup(name)));
    PlayConcat(p, ChangeEvents(env, front, WithoutGroup(name)), SliceEvents(env, WithoutGroup(name)(last), last));
    LastRemovalClears(q, env, last, name, imsi);
    if front != [] { GroupRemovalClears(p, env, front, name, imsi); }
  }

  lemma LastRemovalClears(q: Prov, env: Env, s: Slice, name: string, imsi: string)
    requires TargetOf(s).Some? && name in s.groups
    requires ReadGroup(env, name).Some? && imsi in ReadGroup(env, name).value.imsis
    ensures TargetOf(WithoutGroup(name)(s)).Some?
    ensures var before := Get(q, UeId(imsi));
      var r := Get(Play(q, SliceEvents(env, WithoutGroup(name)(s), s)), UeId(imsi));
      && NoPolicies(r) && NothingUnder(r, PlmnText(s.plmn))
      && forall other :: NothingUnder(before, other) ==> NothingUnder(r, other)
  {
    var slice := WithoutGroup(name)(s);
    EachUeByItself(q, SliceEvents(env, slice, s), UeId(imsi));
    NotInMembers(s.groups, [name], name);
    RemovedNamesMembers(slice, s, name);
    assert ListedBy(env, RemovedNames(slice, s), imsi);
    SliceLosesGroup(Get(q, UeId(imsi)), env, slice, s, imsi);
  }

  // ---------- an IMSI leaving a group ----------

  /** Storing a group without one of its IMSIs leaves that IMSI without policies and without
      documents under the listing slice's PLMN, and adds nothing under any other. */
  lemma GroupLosesImsi(p: Prov, auth: set<string>, g: Group, t: Target, imsi: string)
    requires imsi in g.imsis
    ensures var without := g.(imsis := NotIn(g.imsis, [imsi]));
      var r := Get(Play(p, PostedGroupEvents(auth, without, Some(g), t)), UeId(imsi));
      && NoPolicies(r) && NothingUnder(r, t.plmn)
      && forall other :: NothingUnder(Get(p, UeId(imsi)), other) ==> NothingUnder(r, other)
  {
    var u := UeId(imsi);
    var without := g.(imsis := NotIn(g.imsis, [imsi]));
    var es := PostedGroupEvents(auth, without, Some(g), t);
    EachUeByItself(p, es, u);
    OnlyRemovals(auth, g, t, imsi);
    RemovingClears(Get(p, u), Mine(es, u), t.plmn);
    forall other | NothingUnder(Get(p, u), other) ensures NothingUnder(PlayUe(Get(p, u), Mine(es, u)), other) {
      RemovingKeepsAway(Get(p, u), Mine(es, u), t.plmn, other);
    }
  }

  lemma OnlyRemovals(auth: set<string>, g: Group, t: Target, imsi: string)
    requires imsi in g.imsis
    ensures var without := g.(imsis := NotIn(g.imsis, [imsi]));
      var mine := Mine(PostedGroupEvents(auth, without, Some(g), t), UeId(imsi));
      RemovesUnder(mine, t.plmn) && mine != []
  {
    var u := UeId(imsi);
    var without := g.(imsis := NotIn(g.imsis, [imsi]));
    var m := PostedQosByDnn(without.domains);
    var provide, gone := GroupEvents(auth, without, m, t, |without.imsis|), RemovedImsis(without, Some(g));
    var es := PostedGroupEvents(auth, without, Some(g), t);
    forall e | e in Mine(es, u) ensures e.Remove? && e.plmn == t.plmn {
      MineMembers(es, u, e);
      GroupEventsAre(auth, without, m, t, |without.imsis|, e);
      RemoveEventsAre(gone, t.plmn, e);
      if i :| 0 <= i < |without.imsis| && UeId(without.imsis[i]) in auth && e == GroupEvent(without, m, t, i) {
        UeIdInjective(without.imsis[i], imsi);
        NotInMembers(g.imsis, [imsi], without.imsis[i]);
      }
    }
    NotInMembers(g.imsis, [imsi], imsi);
    NotInMembers(g.imsis, without.imsis, imsi);
    RemoveEventsAre(gone, t.plmn, Remove(u, t.plmn));
    MineMembers(es, u, Remove(u, t.plmn));
  }

  // ---------- a group and a slice, in either order ----------

  function Payloads(es: seq<Event>): seq<Payload> {
    if es == [] then []
    else Payloads(es[..|es| - 1]) + if es[|es| - 1].Provide? then [es[|es| - 1].payload] else []
  }

  /** The last GPSI given, "" for none. */
  function LastGpsi(es: seq<Event>): string {
    if es == [] then ""
    else
      var e := es[|es| - 1];
      if e.Provide? && e.payload.gpsi != "" then e.payload.gpsi else LastGpsi(es[..|es| - 1])
  }

  function OldGpsis(ue: Ue, plmn: string): seq<string> {
    var d := if None in ue.am then ue.am[None] else if Some(plmn) in ue.am then ue.am[Some(plmn)] else None;
    if d.Some? then d.value.gpsis else []
  }

  /** A run of provisioning under one PLMN: everything from the last payload, the GPSI from the
      last payload that has one. */
  lemma {:induction false} ProvidingResult(ue: Ue, es: seq<Event>, plmn: string)
    requires ProvidesUnder(es, plmn) && es != []
    ensures PlayUe(ue, es) == Result(ue, es[|es| - 1].payload, GpsisOf(ue, es, plmn))
  {
    var front, e := es[..|es| - 1], es[|es| - 1];
    assert e in es;
    if front == [] {
      ProvidedFirst(ue, e.payload);
      assert PlayUe(ue, es) == Provided(ue, e.payload);
      assert LastGpsi(es) == e.payload.gpsi;
    } else {
      assert forall f :: f in front ==> f in es;
      assert front[|front| - 1] in es;
      ProvidingResult(ue, front, plmn);
      ProvidedAgain(ue, front[|front| - 1].payload, GpsisOf(ue, front, plmn), e.payload);
      assert GpsisOf(ue, es, plmn) == if e.payload.gpsi != "" then [e.payload.gpsi] else GpsisOf(ue, front, plmn);
    }
  }

  lemma ProvidedFirst(ue: Ue, x: Payload)
    ensures Provided(ue, x) == Result(ue, x, if x.gpsi != "" then [x.gpsi] else OldGpsis(ue, x.plmn))
  {
  }

  lemma ProvidedAgain(ue: Ue, x: Payload, gpsis: seq<string>, y: Payload)
    requires x.plmn == y.plmn
    ensures Provided(Result(ue, x, gpsis), y) == Result(ue, y, if y.gpsi != "" then [y.gpsi] else gpsis)
  {
    hide SortedSet, SnssaiHex;
    var r := Result(ue, x, gpsis);
    var k := Some(x.plmn);
    var data := Some(AmData(if y.gpsi != "" then [y.gpsi] else gpsis, y.snssai, y.uplink, y.downlink));
    assert None !in r.am && k in r.am;
    assert (r.am - {None})[k := data] == (ue.am - {None})[k := data];
  }

  ghost function Result(ue: Ue, x: Payload, gpsis: seq<string>): Ue {
    Ue(true, Some(SmPolicy(SnssaiHex(x.snssai), x.dnns.Keys)),
       (ue.am - {None})[Some(x.plmn) := Some(AmData(gpsis, x.snssai, x.uplink, x.downlink))],
       ue.sm[x.plmn := SmData(x.snssai, x.dnns)],
       ue.smf[x.plmn := SmfSelection(SnssaiHex(x.snssai), SortedSet(x.dnns.Keys))])
  }

  /** One subscriber's view of the choice of order: its events from the new group, from the
      groups the slice lists after it, and from the cleanup. */
  predicate OrderIsIrrelevant(group: seq<Event>, later: seq<Event>, cleanup: seq<Event>) {
    group == [] ||
    (cleanup == [] &&
     (later == [] ||
      (later[|later| - 1].Provide? && group[|group| - 1].Provide?
       && later[|later| - 1].payload.(gpsi := "") == group[|group| - 1].payload.(gpsi := "")
       && LastGpsi(group + later) == LastGpsi(later + group))))
  }

  lemma {:induction false} OrderIrrelevantIff(ue: Ue, group: seq<Event>, later: seq<Event>, cleanup: seq<Event>, plmn: string, oldPlmn: string)
    requires ProvidesUnder(group, plmn) && ProvidesUnder(later, plmn) && RemovesUnder(cleanup, oldPlmn)
    ensures PlayUe(ue, group + later + cleanup) == PlayUe(ue, later + cleanup + group)
       <==> OrderIsIrrelevant(group, later, cleanup)
  {
    if group == [] {
      assert group + later + cleanup == later + cleanup + group;
    } else if cleanup != [] {
      PlayUeConcat(ue, group + later, cleanup);
      RemovingClears(PlayUe(ue, group + later), cleanup, oldPlmn);
      PlayUeConcat(ue, later + cleanup, group);
      ProvidingResult(PlayUe(ue, later + cleanup), group, plmn);
    } else if later == [] {
      assert group + later + cleanup == later + cleanup + group;
    } else {
      assert group + later + cleanup == group + later && later + cleanup + group == later + group;
      ProvidingResult(ue, group + later, plmn);
      ProvidingResult(ue, later + group, plmn);
      var x, y := (group + later)[|group + later| - 1], (later + group)[|later + group| - 1];
      assert x == later[|later| - 1] && y == group[|group| - 1] && x in later && y in group;
      LastGpsiNonEmpty(group, later);
      ResultsEqual(ue, x.payload, y.payload, GpsisOf(ue, group + later, plmn), GpsisOf(ue, later + group, plmn));
    }
  }

  function GpsisOf(ue: Ue, es: seq<Event>, plmn: string): seq<string> {
    if LastGpsi(es) != "" then [LastGpsi(es)] else OldGpsis(ue, plmn)
  }

  lemma {:induction false} LastGpsiEmpty(es: seq<Event>)
    ensures LastGpsi(es) == "" <==> forall e :: e in es ==> e.Remove? || e.payload.gpsi == ""
  {
    if es != [] {
      assert es == es[..|es| - 1] + [es[|es| - 1]];
      LastGpsiEmpty(es[..|es| - 1]);
    }
  }

  lemma LastGpsiNonEmpty(a: seq<Event>, b: seq<Event>)
    ensures LastGpsi(a + b) == "" <==> LastGpsi(b + a) == ""
  {
    LastGpsiEmpty(a + b);
    LastGpsiEmpty(b + a);
  }

  lemma ResultsEqual(ue: Ue, x: Payload, y: Payload, g: seq<string>, h: seq<string>)
    requires x.plmn == y.plmn
    ensures Result(ue, x, g) == Result(ue, y, h) <==> x.(gpsi := "") == y.(gpsi := "") && g == h
  {
    var r, s := Result(ue, x, g), Result(ue, y, h);
    if r == s {
      assert r.sm[x.plmn] == s.sm[x.plmn];
      assert r.am[Some(x.plmn)] == s.am[Some(x.plmn)];
    }
  }

  lemma {:induction false} PutNewGroup(groups: seq<Group>, g: Group)
    requires FindGroup(groups, g.name) == None
    ensures PutGroup(groups, g) == groups + [g]
  {
    if groups != [] {
      PutNewGroup(groups[1..], g);
      assert groups == [groups[0]] + groups[1..];
    }
  }

  lemma {:induction false} FindInExtended(groups: seq<Group>, g: Group, name: string)
    requires FindGroup(groups, g.name) == None
    ensures FindGroup(groups + [g], name) == if name == g.name then Some(g) else FindGroup(groups, name)
  {
    if groups != [] {
      assert (groups + [g])[1..] == groups[1..] + [g];
      FindInExtended(groups[1..], g, name);
    }
  }

  lemma {:induction false} FindSliceIs(slices: seq<Slice>, name: string)
    ensures FindSlice(slices, name).Some? ==> FindSlice(slices, name).value in slices
  {
    if slices != [] { FindSliceIs(slices[1..], name); }
  }

  /** Members of the slices after one is stored: the stored one, perhaps with the old rules, and
      old ones. */
  lemma {:induction false} PutSliceMembers(slices: seq<Slice>, s: Slice, c: Slice)
    requires c in PutSlice(slices, s)
    ensures c in slices || c == s || exists stored :: stored in slices && c == MergeSlice(stored, s)
  {
    if slices != [] && slices[0].name != s.name && c != slices[0] {
      PutSliceMembers(slices[1..], s, c);
    }
  }

  /** Names other than the new group's mean the same before and after it is stored. */
  lemma {:induction false} OtherNamesSame(auth: set<string>, groups: seq<Group>, g: Group, names: seq<string>, t: Target)
    requires FindGroup(groups, g.name) == None && g.name !in names
    ensures NamesEvents(Env(auth, groups + [g], {}), names, t) == NamesEvents(Env(auth, groups, {}), names, t)
    ensures CleanupEvents(Env(auth, groups + [g], {}), names, t.plmn) == CleanupEvents(Env(auth, groups, {}), names, t.plmn)
  {
    if names != [] {
      FindInExtended(groups, g, names[|names| - 1]);
      OtherNamesSame(auth, groups, g, names[..|names| - 1], t);
    }
  }

  /** The groups a slice lists before and after the j-th, and the ones its new version drops. */
  datatype Parts = Parts(before: seq<Event>, group: seq<Event>, later: seq<Event>, cleanup: seq<Event>)

  function PartsOf(st: Stored, g: Group, s: Slice, j: nat): Parts
    requires j < |s.groups| && TargetOf(s).Some?
  {
    var t := TargetOf(s).value;
    var env := Env(st.auth, st.groups, {});
    var prev := PreviousSlice(st.slices, s.name, AllRead);
    Parts(NamesEvents(env, s.groups[..j], t), GroupEvents(st.auth, g, QosByDnn(g.domains), t, |g.imsis|),
          NamesEvents(env, s.groups[j + 1..], t), CleanupEvents(env, RemovedNames(s, prev), PlmnText(prev.plmn)))
  }

  /** OrderIsIrrelevant for one subscriber. */
  predicate IrrelevantFor(p: Parts, u: string) {
    OrderIsIrrelevant(Mine(p.group, u), Mine(p.later, u), Mine(p.cleanup, u))
  }

  /** The situation of the commutation result: a new group with IP domains, listed once by the
      slice about to be stored and by no stored slice. */
  ghost predicate NewGroupForSlice(st: Stored, g: Group, s: Slice, j: nat) {
    && FindGroup(st.groups, g.name) == None && g.domains != []
    && (forall c :: c in st.slices ==> g.name !in c.groups)
    && j < |s.groups| && s.groups[j] == g.name
    && g.name !in s.groups[..j] && g.name !in s.groups[j + 1..]
  }

  lemma GroupFirst(st: Stored, g: Group, s: Slice, j: nat)
    requires NewGroupForSlice(st, g, s, j)
    requires PostSlice(st.(groups := PutGroup(st.groups, g)), s, AllRead).Some?
    ensures TargetOf(s).Some?
    ensures var p := PartsOf(st, g, s, j);
      && PostSlice(st.(groups := PutGroup(st.groups, g)), s, AllRead).value
          == Stored(st.auth, Play(st.prov, p.before + p.group + p.later + p.cleanup), PutGroup(st.groups, g), PutSlice(st.slices, s))
      && (p.group != [] ==> AllClassed(QosByDnn(g.domains)))
  {
    var t := TargetOf(s).value;
    var env := EnvOf(st.(groups := PutGroup(st.groups, g)), AllRead);
    var prev := PreviousSlice(st.slices, s.name, AllRead);
    var a, b := s.groups[..j], s.groups[j + 1..];
    PutNewGroup(st.groups, g);
    assert st.auth - {} == st.auth;
    FindSliceIs(st.slices, s.name);
    RemovedNamesMembers(s, prev, g.name);
    OtherNamesSame(st.auth, st.groups, g, a, t);
    OtherNamesSame(st.auth, st.groups, g, b, t);
    OtherNamesSame(st.auth, st.groups, g, RemovedNames(s, prev), Target(t.snssai, PlmnText(prev.plmn)));
    FindInExtended(st.groups, g, g.name);
    EventsAroundName(env, s.groups, j, t);
    assert g.name in s.groups;
    assert NameOk(env, g.name, t);
  }

  lemma EventsAroundName(env: Env, names: seq<string>, j: nat, t: Target)
    requires j < |names|
    ensures NamesEvents(env, names, t)
         == NamesEvents(env, names[..j], t) + NameEvents(env, names[j], t) + NamesEvents(env, names[j + 1..], t)
  {
    var a, b := names[..j], names[j + 1..];
    assert names == (a + [names[j]]) + b;
    NamesEventsConcat(env, a + [names[j]], b, t);
    NamesEventsSnoc(env, a, names[j], t);
  }

  lemma SliceFirst(st: Stored, g: Group, s: Slice, j: nat)
    requires NewGroupForSlice(st, g, s, j) && PostSlice(st, s, AllRead).Some?
    ensures TargetOf(s).Some?
    ensures var p := PartsOf(st, g, s, j);
      PostSlice(st, s, AllRead).value == Stored(st.auth, Play(st.prov, p.before + p.later + p.cleanup), st.groups, PutSlice(st.slices, s))
  {
    EventsWithoutGroup(st, g, s, j);
  }

  lemma EventsWithoutGroup(st: Stored, g: Group, s: Slice, j: nat)
    requires NewGroupForSlice(st, g, s, j) && TargetOf(s).Some?
    ensures EnvOf(st, AllRead) == Env(st.auth, st.groups, {})
    ensures var p := PartsOf(st, g, s, j);
      SliceEvents(EnvOf(st, AllRead), s, PreviousSlice(st.slices, s.name, AllRead)) == p.before + p.later + p.cleanup
  {
    hide NamesEvents, NameEvents, CleanupEvents, GroupEvents, RemovedNames, QosByDnn, FindGroup, FindSlice;
    var t := TargetOf(s).value;
    var env := Env(st.auth, st.groups, {});
    assert st.auth - {} == st.auth;
    EventsAroundName(env, s.groups, j, t);
    UnknownName(env, g.name, t);
    var p := PartsOf(st, g, s, j);
    assert p.before + [] + p.later == p.before + p.later;
  }

  lemma UnknownName(env: Env, name: string, t: Target)
    requires FindGroup(env.groups, name) == None
    ensures NameEvents(env, name, t) == []
  {
  }

  lemma {:induction false} NobodyAuthorised(auth: set<string>, g: Group, m: map<string, seq<Qos>>, w: map<string, seq<Qos>>, t: Target, n: nat)
    requires n <= |g.imsis|
    ensures GroupEvents(auth, g, m, t, n) == [] <==> GroupEvents(auth, g, w, t, n) == []
  {
    if n > 0 { NobodyAuthorised(auth, g, m, w, t, n - 1); }
  }

  lemma ThenGroup(st: Stored, g: Group, s: Slice, j: nat, c: Slice)
    requires NewGroupForSlice(st, g, s, j) && PostSlice(st, s, AllRead).Some?
    requires MayChoose(PutSlice(st.slices, s), g.name, AllRead, Some(c))
    requires PostGroup(PostSlice(st, s, AllRead).value, g, AllRead, Some(c)).Some?
    requires TargetOf(s).Some? && (PartsOf(st, g, s, j).group != [] ==> AllClassed(QosByDnn(g.domains)))
    ensures var p := PartsOf(st, g, s, j);
      PostGroup(PostSlice(st, s, AllRead).value, g, AllRead, Some(c)).value
        == Stored(st.auth, Play(Play(st.prov, p.before + p.later + p.cleanup), p.group), PutGroup(st.groups, g), PutSlice(st.slices, s))
  {
    var t := TargetOf(s).value;
    SliceFirst(st, g, s, j);
    PutSliceMembers(st.slices, s, c);
    assert TargetOf(c) == TargetOf(s);
    assert st.auth - {} == st.auth;
    PostedLikeListed(st.auth, g, t);
  }

  /** For a new group the group path plays the events of the slice path. */
  lemma PostedLikeListed(auth: set<string>, g: Group, t: Target)
    requires GroupEvents(auth, g, QosByDnn(g.domains), t, |g.imsis|) != [] ==> AllClassed(QosByDnn(g.domains))
    ensures PostedGroupEvents(auth, g, Some(NoGroup), t) == GroupEvents(auth, g, QosByDnn(g.domains), t, |g.imsis|)
  {
    NobodyAuthorised(auth, g, QosByDnn(g.domains), PostedQosByDnn(g.domains), t, |g.imsis|);
    if GroupEvents(auth, g, QosByDnn(g.domains), t, |g.imsis|) != [] { TwoPathsOneMap(g.domains); }
    assert RemoveEvents(RemovedImsis(g, Some(NoGroup)), t.plmn) == [];
  }

  /** Storing a new group and then the slice that lists it, or the slice and then the group,
      stores the same groups and slices; and the five provisioned collections are the same in
      both orders if and only if, for every IMSI the group provisions, no removed group lists it
      and the groups the slice lists later leave it with the payload this group gives. */
  lemma GroupAndSliceCommuteIff(st: Stored, g: Group, s: Slice, j: nat, c: Slice, x: Stored, y: Stored)
    requires NewGroupForSlice(st, g, s, j)
    requires PostGroup(st, g, AllRead, None).Some?
    requires PostSlice(PostGroup(st, g, AllRead, None).value, s, AllRead) == Some(x)
    requires PostSlice(st, s, AllRead).Some? && MayChoose(PostSlice(st, s, AllRead).value.slices, g.name, AllRead, Some(c))
    requires PostGroup(PostSlice(st, s, AllRead).value, g, AllRead, Some(c)) == Some(y)
    ensures MayChoose(st.slices, g.name, AllRead, None) && TargetOf(s).Some?
    ensures x.auth == y.auth && x.groups == y.groups && x.slices == y.slices
    ensures var p := PartsOf(st, g, s, j);
      SameProv(x.prov, y.prov) <==> forall u :: IrrelevantFor(p, u)
  {
    GroupFirst(st, g, s, j);
    ThenGroup(st, g, s, j, c);
    AllSubscribersOrder(st, g, s, j);
  }

  lemma AllSubscribersOrder(st: Stored, g: Group, s: Slice, j: nat)
    requires j < |s.groups| && TargetOf(s).Some?
    ensures var p := PartsOf(st, g, s, j);
      SameProv(Play(st.prov, p.before + p.group + p.later + p.cleanup), Play(Play(st.prov, p.before + p.later + p.cleanup), p.group))
      <==> forall u :: IrrelevantFor(p, u)
  {
    var p := PartsOf(st, g, s, j);
    var x, y := Play(st.prov, p.before + p.group + p.later + p.cleanup), Play(Play(st.prov, p.before + p.later + p.cleanup), p.group);
    forall u ensures Get(x, u) == Get(y, u) <==> IrrelevantFor(p, u) {
      SubscriberOrder(st, g, s, j, u);
    }
    Pointwise(x, y, p);
  }

  lemma Pointwise(x: Prov, y: Prov, p: Parts)
    requires forall u :: Get(x, u) == Get(y, u) <==> IrrelevantFor(p, u)
    ensures SameProv(x, y) <==> forall u :: IrrelevantFor(p, u)
  {
    if SameProv(x, y) {
      forall u ensures IrrelevantFor(p, u) { assert Get(x, u) == Get(y, u); }
    }
  }

  lemma SubscriberOrder(st: Stored, g: Group, s: Slice, j: nat, u: string)
    requires j < |s.groups| && TargetOf(s).Some?
    ensures var p := PartsOf(st, g, s, j);
      Get(Play(st.prov, p.before + p.group + p.later + p.cleanup), u) == Get(Play(Play(st.prov, p.before + p.later + p.cleanup), p.group), u)
      <==> IrrelevantFor(p, u)
  {
    var p := PartsOf(st, g, s, j);
    var t := TargetOf(s).value;
    var prev := PreviousSlice(st.slices, s.name, AllRead);
    var ue := Get(Play(st.prov, p.before), u);
    GroupMiddle(st.prov, p, u);
    GroupLast(st.prov, p, u);
    MineShapes(p, t, st, g, s, j, u);
    OrderIrrelevantIff(ue, Mine(p.group, u), Mine(p.later, u), Mine(p.cleanup, u), t.plmn, PlmnText(prev.plmn));
  }

  lemma GroupMiddle(prov: Prov, p: Parts, u: string)
    ensures Get(Play(prov, p.before + p.group + p.later + p.cleanup), u)
         == PlayUe(Get(Play(prov, p.before), u), Mine(p.group, u) + Mine(p.later, u) + Mine(p.cleanup, u))
  {
    var rest := p.group + p.later + p.cleanup;
    assert p.before + p.group + p.later + p.cleanup == p.before + rest;
    PlayConcat(prov, p.before, rest);
    EachUeByItself(Play(prov, p.before), rest, u);
    MineConcat(p.group + p.later, p.cleanup, u);
    MineConcat(p.group, p.later, u);
  }

  lemma GroupLast(prov: Prov, p: Parts, u: string)
    ensures Get(Play(Play(prov, p.before + p.later + p.cleanup), p.group), u)
         == PlayUe(Get(Play(prov, p.before), u), Mine(p.later, u) + Mine(p.cleanup, u) + Mine(p.group, u))
  {
    var rest := p.later + p.cleanup;
    assert p.before + p.later + p.cleanup == p.before + rest;
    PlayConcat(prov, p.before, rest);
    PlayConcat(Play(prov, p.before), rest, p.group);
    EachUeByItself(Play(prov, p.before), rest + p.group, u);
    MineConcat(rest, p.group, u);
    MineConcat(p.later, p.cleanup, u);
  }

  lemma MineShapes(p: Parts, t: Target, st: Stored, g: Group, s: Slice, j: nat, u: string)
    requires j < |s.groups| && TargetOf(s) == Some(t) && p == PartsOf(st, g, s, j)
    ensures ProvidesUnder(Mine(p.group, u), t.plmn) && ProvidesUnder(Mine(p.later, u), t.plmn)
    ensures RemovesUnder(Mine(p.cleanup, u), PlmnText(PreviousSlice(st.slices, s.name, AllRead).plmn))
  {
    var env := Env(st.auth, st.groups, {});
    var prev := PreviousSlice(st.slices, s.name, AllRead);
    forall e | e in Mine(p.group, u) ensures e.Provide? && e.payload.plmn == t.plmn {
      MineMembers(p.group, u, e);
      GroupEventsAre(st.auth, g, QosByDnn(g.domains), t, |g.imsis|, e);
    }
    forall e | e in Mine(p.later, u) ensures e.Provide? && e.payload.plmn == t.plmn {
      MineMembers(p.later, u, e);
      ProvisioningEventShape(env, s.groups[j + 1..], t, e);
    }
    forall e | e in Mine(p.cleanup, u) ensures e.Remove? && e.plmn == PlmnText(prev.plmn) {
      MineMembers(p.cleanup, u, e);
      CleanupEventsAre(env, RemovedNames(s, prev), PlmnText(prev.plmn), e);
    }
  }

  /** No IMSI the group provisions is provisioned by a group the slice lists later, or listed by a
      group the slice drops. */
  ghost predicate Disjoint(st: Stored, g: Group, s: Slice, j: nat) {
    var env := Env(st.auth, st.groups, {});
    forall imsi :: imsi in g.imsis && UeId(imsi) in st.auth ==>
      && !ListedBy(env, RemovedNames(s, PreviousSlice(st.slices, s.name, AllRead)), imsi)
      && forall k :: j < k < |s.groups| ==> !Provisions(env, s.groups[k], imsi)
  }

  lemma DisjointIsIrrelevant(st: Stored, g: Group, s: Slice, j: nat, u: string)
    requires j < |s.groups| && TargetOf(s).Some? && Disjoint(st, g, s, j)
    ensures IrrelevantFor(PartsOf(st, g, s, j), u)
  {
    var env := Env(st.auth, st.groups, {});
    var prev := PreviousSlice(st.slices, s.name, AllRead);
    var p := PartsOf(st, g, s, j);
    var t := TargetOf(s).value;
    if Mine(p.group, u) != [] {
      var e := Mine(p.group, u)[0];
      assert e in Mine(p.group, u);
      MineMembers(p.group, u, e);
      GroupEventsAre(st.auth, g, QosByDnn(g.domains), t, |g.imsis|, e);
      var i :| 0 <= i < |g.imsis| && UeId(g.imsis[i]) in st.auth && e == GroupEvent(g, QosByDnn(g.domains), t, i);
      CleanupMine(env, RemovedNames(s, prev), PlmnText(prev.plmn), g.imsis[i]);
      NamesEventsMineEmpty(env, s.groups[j + 1..], t, g.imsis[i]);
    }
  }

  /** In particular both orders leave the same groups, slices and five collections when no
      provisioned IMSI of the group is provisioned by a later listed group or listed by a removed
      one. */
  lemma DisjointGroupsCommute(st: Stored, g: Group, s: Slice, j: nat, c: Slice, x: Stored, y: Stored)
    requires NewGroupForSlice(st, g, s, j) && Disjoint(st, g, s, j)
    requires PostGroup(st, g, AllRead, None).Some?
    requires PostSlice(PostGroup(st, g, AllRead, None).value, s, AllRead) == Some(x)
    requires PostSlice(st, s, AllRead).Some? && MayChoose(PostSlice(st, s, AllRead).value.slices, g.name, AllRead, Some(c))
    requires PostGroup(PostSlice(st, s, AllRead).value, g, AllRead, Some(c)) == Some(y)
    ensures SameProv(x.prov, y.prov) && x.auth == y.auth && x.groups == y.groups && x.slices == y.slices
  {
    hide PostSlice, PostGroup, MayChoose, Disjoint, IrrelevantFor, PartsOf, SameProv;
    GroupAndSliceCommuteIff(st, g, s, j, c, x, y);
    forall u ensures IrrelevantFor(PartsOf(st, g, s, j), u) { DisjointIsIrrelevant(st, g, s, j, u); }
  }

  // ---------- the orders can differ ----------

  const COUNTER_DOMAIN := IpDomain("internet", "", "", "", "", 0, Some(Qos(1, 1, "bps", Some(TrafficClass("", 9, 1, 0, 0)))))
  const NEW_GROUP := Group("new", ["1"], [], "", "", [COUNTER_DOMAIN])
  const OLD_GROUP := Group("old", ["1"], [], "", "", [COUNTER_DOMAIN])
  const OLD_SLICE := Slice("s", SliceId("1", ""), ["old"], "", Plmn("1", "1"), [], None, [])
  const NEW_SLICE := OLD_SLICE.(groups := ["new"])
  const COUNTER_STORE := Stored({UeId("1")}, map[], [OLD_GROUP], [OLD_SLICE])

  lemma CounterTarget(s: Slice)
    requires s.id == SliceId("1", "") && s.plmn == Plmn("1", "1")
    ensures TargetOf(s) == Some(Target(SnssaiModel(1, ""), "11"))
  {
    assert "1"[..0] == "";
    assert Bitrate.ParseUint("") == 0 && Bitrate.ParseUint("1") == 1;
    assert "1" + "1" == "11";
  }

  lemma AggregateOne(q: Qos)
    ensures Bitrate.Aggregate([q]).trafficClass == q.trafficClass
  {
    assert [q][..0] == [];
  }

  lemma OneDomain(d: IpDomain)
    requires d.qos.Some?
    ensures QosByDnn([d]) == map[d.dnn := [d.qos.value]] && PostedQosByDnn([d]) == map[d.dnn := [d.qos.value]]
  {
    assert [d][..0] == [] && [] + [d.qos.value] == [d.qos.value];
    assert QosByDnn([]) == map[] && PostedQosByDnn([]) == map[];
  }

  lemma CounterClassed(g: Group)
    requires g.domains == [COUNTER_DOMAIN]
    ensures AllClassed(QosByDnn(g.domains)) && AllClassed(PostedQosByDnn(g.domains))
  {
    hide QosByDnn, PostedQosByDnn, Bitrate.Aggregate;
    OneDomain(COUNTER_DOMAIN);
    AggregateOne(COUNTER_DOMAIN.qos.value);
  }

  lemma CounterGroups()
    ensures FindGroup([OLD_GROUP], "new") == None && FindGroup([OLD_GROUP], "old") == Some(OLD_GROUP)
    ensures PutGroup([OLD_GROUP], NEW_GROUP) == [OLD_GROUP, NEW_GROUP]
    ensures FindGroup([OLD_GROUP, NEW_GROUP], "new") == Some(NEW_GROUP)
    ensures PutSlice([OLD_SLICE], NEW_SLICE) == [NEW_SLICE]
  {
    assert FindGroup([], "new") == None;
    assert [OLD_GROUP][1..] == [] && [OLD_GROUP, NEW_GROUP][1..] == [NEW_GROUP] && [NEW_GROUP][1..] == [];
    assert FindGroup([NEW_GROUP], "new") == Some(NEW_GROUP);
    assert PutGroup([], NEW_GROUP) == [NEW_GROUP];
  }

  /** A slice that lists the new group alone can be stored, whether the group is stored or not. */
  lemma CounterSliceOk(groups: seq<Group>)
    requires groups == [OLD_GROUP] || groups == [OLD_GROUP, NEW_GROUP]
    ensures SliceOk(Env({UeId("1")}, groups, {}), NEW_SLICE)
  {
    hide FindGroup, QosByDnn, AllClassed, GroupEvents, TargetOf;
    CounterTarget(NEW_SLICE);
    CounterClassed(NEW_GROUP);
    CounterGroups();
  }

  /** A concrete case in which both orders succeed and the records differ: slice "s" replaces
      group "old" by the new group "new", and IMSI 1 is in both. Stored before the slice, the new
      group loses IMSI 1 to the cleanup of the old one; stored after it, it does not. */
  lemma OrdersCanDiffer() returns (x: Stored, y: Stored)
    ensures NewGroupForSlice(COUNTER_STORE, NEW_GROUP, NEW_SLICE, 0)
    ensures PostGroup(COUNTER_STORE, NEW_GROUP, AllRead, None).Some?
    ensures PostSlice(PostGroup(COUNTER_STORE, NEW_GROUP, AllRead, None).value, NEW_SLICE, AllRead) == Some(x)
    ensures PostSlice(COUNTER_STORE, NEW_SLICE, AllRead).Some?
    ensures MayChoose(PostSlice(COUNTER_STORE, NEW_SLICE, AllRead).value.slices, NEW_GROUP.name, AllRead, Some(NEW_SLICE))
    ensures PostGroup(PostSlice(COUNTER_STORE, NEW_SLICE, AllRead).value, NEW_GROUP, AllRead, Some(NEW_SLICE)) == Some(y)
    ensures !SameProv(x.prov, y.prov)
  {
    hide FindGroup, FindSlice, PutGroup, PutSlice, QosByDnn, PostedQosByDnn, AllClassed, GroupEvents,
         TargetOf, SliceOk, Play, SliceEvents, PostedGroupEvents, PartsOf, IrrelevantFor, SameProv;
    var st, g, s := COUNTER_STORE, NEW_GROUP, NEW_SLICE;
    CounterTarget(s);
    CounterClassed(g);
    CounterGroups();
    CounterSliceOk([OLD_GROUP]);
    CounterSliceOk([OLD_GROUP, NEW_GROUP]);
    assert st.auth - {} == st.auth;
    x := PostSlice(PostGroup(st, g, AllRead, None).value, s, AllRead).value;
    y := PostGroup(PostSlice(st, s, AllRead).value, g, AllRead, Some(s)).value;
    GroupAndSliceCommuteIff(st, g, s, 0, s, x, y);
    NewGroupLosesItsSubscriber(st, g, s);
  }

  lemma NewGroupLosesItsSubscriber(st: Stored, g: Group, s: Slice)
    requires st == COUNTER_STORE && g == NEW_GROUP && s == NEW_SLICE && TargetOf(s).Some?
    ensures !IrrelevantFor(PartsOf(st, g, s, 0), UeId("1"))
  {
    var t := TargetOf(s).value;
    var env := Env(st.auth, st.groups, {});
    var prev := PreviousSlice(st.slices, s.name, AllRead);
    var p := PartsOf(st, g, s, 0);
    var e := GroupEvent(g, QosByDnn(g.domains), t, 0);
    GroupEventsAre(st.auth, g, QosByDnn(g.domains), t, |g.imsis|, e);
    MineMembers(p.group, UeId("1"), e);
    RemovedNamesMembers(s, prev, "old");
    assert ReadGroup(env, "old") == Some(OLD_GROUP);
    assert ListedBy(env, RemovedNames(s, prev), "1");
    CleanupMine(env, RemovedNames(s, prev), PlmnText(prev.plmn), "1");
  }
}
