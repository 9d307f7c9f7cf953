/** What the handlers leave in the collections: the documents of a provisioned subscriber, the
    removal of its entries, and the deletion of a device group. */
module StoreTheorems {
  import opened Prelude
  import opened Models
  import opened DbAdapter
  import opened Documents
  import opened Provisioning
  import opened ProvisioningTheorems
  import opened NamedRecords
  import opened RequestSteps
  import opened PartialUpdates
  import Bitrate

  // ---------- records and documents ----------

  lemma HeldDocument<D, K(!new), V>(docs: seq<D>, key: D -> K, val: D -> V, look: K -> Option<V>, k: K) returns (i: nat)
    requires Holds(docs, key, val, look) && look(k).Some?
    ensures i < |docs| && key(docs[i]) == k && val(docs[i]) == look(k).value
    ensures forall j :: 0 <= j < |docs| && key(docs[j]) == k ==> j == i
  {
    assert HasKey(docs, key, k);
    i :| 0 <= i < |docs| && key(docs[i]) == k;
  }

  /** Exactly one document of the collection passes the filter, and it is d. */
  ghost predicate OnlyMatch<D(!new)>(docs: seq<D>, filter: D -> bool, d: D) {
    d in docs && filter(d) && forall i, j :: 0 <= i < |docs| && 0 <= j < |docs| && filter(docs[i]) && filter(docs[j]) ==> i == j
  }

  /** A subscriber that holds a payload has one document in each of the five collections, and
      the DNNs of its SM policy, SM data and SMF selection are the same. */
  lemma HeldPayloadIsStored(t: Tables, p: Prov, u: string, x: Payload)
    requires Represents(t, p) && HoldsPayload(Get(p, u), x)
    ensures OnlyMatch(t.amPolicy, Named(u), u)
    ensures OnlyMatch(t.smPolicy, OfUe(u), UeDoc(u, SmPolicy(SnssaiHex(x.snssai), x.dnns.Keys)))
    ensures OnlyMatch(t.am, AmOfUePlmn(u, x.plmn), AmDoc(u, Some(x.plmn), Get(p, u).am[Some(x.plmn)]))
    ensures OnlyMatch(t.sm, OfUePlmn(u, x.plmn), PlmnDoc(u, x.plmn, SmData(x.snssai, x.dnns)))
    ensures OnlyMatch(t.smf, OfUePlmn(u, x.plmn), PlmnDoc(u, x.plmn, SmfSelection(SnssaiHex(x.snssai), SortedSet(x.dnns.Keys))))
  {
    hide SortedSet, SnssaiHex;
    AmPolicyStored(t, p, u);
    SmPolicyStored(t, p, u);
    AmStored(t, p, u, x.plmn);
    SmStored(t, p, u, x.plmn);
    SmfStored(t, p, u, x.plmn);
  }

  lemma AmPolicyStored(t: Tables, p: Prov, u: string)
    requires Represents(t, p) && Get(p, u).amPolicy
    ensures OnlyMatch(t.amPolicy, Named(u), u)
  {
    var i := HeldDocument(t.amPolicy, Same<string>, Same<string>, AmPolicyLook(p), u);
  }

  lemma SmPolicyStored(t: Tables, p: Prov, u: string)
    requires Represents(t, p) && Get(p, u).smPolicy.Some?
    ensures OnlyMatch(t.smPolicy, OfUe(u), UeDoc(u, Get(p, u).smPolicy.value))
  {
    var i := HeldDocument(t.smPolicy, UeKey<SmPolicy>, UeVal<SmPolicy>, SmPolicyLook(p), u);
    assert t.smPolicy[i] == UeDoc(u, Get(p, u).smPolicy.value);
  }

  lemma AmStored(t: Tables, p: Prov, u: string, plmn: string)
    requires Represents(t, p) && Some(plmn) in Get(p, u).am
    ensures OnlyMatch(t.am, AmOfUePlmn(u, plmn), AmDoc(u, Some(plmn), Get(p, u).am[Some(plmn)]))
  {
    var i := HeldDocument(t.am, AmKey, AmVal, AmLook(p), (u, Some(plmn)));
    assert t.am[i] == AmDoc(u, Some(plmn), Get(p, u).am[Some(plmn)]);
  }

  lemma SmStored(t: Tables, p: Prov, u: string, plmn: string)
    requires Represents(t, p) && plmn in Get(p, u).sm
    ensures OnlyMatch(t.sm, OfUePlmn(u, plmn), PlmnDoc(u, plmn, Get(p, u).sm[plmn]))
  {
    var i := HeldDocument(t.sm, PlmnKey<SmData>, PlmnVal<SmData>, SmLook(p), (u, plmn));
    assert t.sm[i] == PlmnDoc(u, plmn, Get(p, u).sm[plmn]);
  }

  lemma SmfStored(t: Tables, p: Prov, u: string, plmn: string)
    requires Represents(t, p) && plmn in Get(p, u).smf
    ensures OnlyMatch(t.smf, OfUePlmn(u, plmn), PlmnDoc(u, plmn, Get(p, u).smf[plmn]))
  {
    var i := HeldDocument(t.smf, PlmnKey<SmfSelection>, PlmnVal<SmfSelection>, SmfLook(p), (u, plmn));
    assert t.smf[i] == PlmnDoc(u, plmn, Get(p, u).smf[plmn]);
  }

  // ---------- removing a subscriber's entries ----------

  /** Five delete-ones leave nothing of the subscriber under the PLMN, no policy of it, and every
      other document: those of other subscribers, and its own under other PLMNs. */
  lemma RemovalIsCompleteAndFramed(t: Tables, u: string, plmn: string)
    ensures var r := WithoutEntries(t, u, plmn);
      && (forall d :: d in r.amPolicy <==> d in t.amPolicy && d != u)
      && (forall d :: d in r.smPolicy <==> d in t.smPolicy && d.ueId != u)
      && (forall d :: d in r.am <==> d in t.am && (d.ueId != u || d.plmn != Some(plmn)))
      && (forall d :: d in r.sm <==> d in t.sm && (d.ueId != u || d.plmn != plmn))
      && (forall d :: d in r.smf <==> d in t.smf && (d.ueId != u || d.plmn != plmn))
  {
    SelectMembers(t.amPolicy, Not(Named(u)));
    SelectMembers(t.smPolicy, Not(OfUe(u)));
    SelectMembers(t.am, Not(AmOfUePlmn(u, plmn)));
    SelectMembers(t.sm, Not(OfUePlmn(u, plmn)));
    SelectMembers(t.smf, Not(OfUePlmn(u, plmn)));
  }

  // ---------- deleting a slice ----------

  /** A successful DELETE of a slice that could be read leaves each IMSI of a readable group of it
      without policies and without documents under its PLMN, and adds nothing elsewhere. */
  lemma DeletedSliceLeavesNothing(st: Stored, s: Slice, f: Unread, slices: seq<Slice>, prov: Prov, imsi: string)
    requires FindSlice(st.slices, s.name) == Some(s) && SliceTakenOut(st, s.name, f, slices, prov)
    requires !f.previous && ListedBy(EnvOf(st, f), s.groups, imsi)
    ensures forall c :: c in slices <==> c in st.slices && c.name != s.name
    ensures var before, r := Get(st.prov, UeId(imsi)), Get(prov, UeId(imsi));
      && NoPolicies(r) && NothingUnder(r, PlmnText(s.plmn))
      && forall other :: NothingUnder(before, other) ==> NothingUnder(r, other)
  {
    hide CleanupEvents, Play, PlayUe, Mine, NoPolicies, NothingUnder, FindSlice;
    var u, plmn := UeId(imsi), PlmnText(s.plmn);
    var es := CleanupEvents(EnvOf(st, f), s.groups, plmn);
    SelectMembers(st.slices, Not(SliceNamed(s.name)));
    EachUeByItself(st.prov, es, u);
    CleanupMine(EnvOf(st, f), s.groups, plmn, imsi);
    CleanupOnlyRemoves(EnvOf(st, f), s.groups, plmn, u);
    RemovingClears(Get(st.prov, u), Mine(es, u), plmn);
    forall other | NothingUnder(Get(st.prov, u), other) ensures NothingUnder(Get(prov, u), other) {
      RemovingKeepsAway(Get(st.prov, u), Mine(es, u), plmn, other);
    }
  }

  lemma CleanupOnlyRemoves(env: Env, names: seq<string>, plmn: string, u: string)
    ensures RemovesUnder(Mine(CleanupEvents(env, names, plmn), u), plmn)
  {
    var es := CleanupEvents(env, names, plmn);
    forall e | e in Mine(es, u) ensures e.Remove? && e.plmn == plmn {
      MineMembers(es, u, e);
      CleanupEventsAre(env, names, plmn, e);
    }
  }

  /** The IMSI is in a stored group that the slice lists. */
  ghost predicate HeldBy(st: Stored, s: Slice, imsi: string) {
    exists n :: n in s.groups && FindGroup(st.groups, n).Some? && imsi in FindGroup(st.groups, n).value.imsis
  }

  ghost predicate NothingOfSlice(st: Stored, s: Slice, prov: Prov) {
    forall imsi :: HeldBy(st, s, imsi) ==>
      NoPolicies(Get(prov, UeId(imsi))) && NothingUnder(Get(prov, UeId(imsi)), PlmnText(s.plmn))
  }

  /** Every successful DELETE of a stored slice leaves nothing of the subscribers of its groups,
      whatever was recorded for them, if and only if each of them is in a group of the slice whose
      record could be read, and so could the slice. */
  lemma SliceDeletionClearsIff(st: Stored, s: Slice, f: Unread)
    requires FindSlice(st.slices, s.name) == Some(s)
    ensures (forall p, slices, prov :: SliceTakenOut(st.(prov := p), s.name, f, slices, prov) ==> NothingOfSlice(st, s, prov))
       <==> forall imsi :: HeldBy(st, s, imsi) ==> !f.previous && ListedBy(EnvOf(st, f), s.groups, imsi)
  {
    if forall imsi :: HeldBy(st, s, imsi) ==> !f.previous && ListedBy(EnvOf(st, f), s.groups, imsi) {
      forall p, slices, prov | SliceTakenOut(st.(prov := p), s.name, f, slices, prov) ensures NothingOfSlice(st, s, prov) {
        SliceDeletionClears(st, s, f, p, slices, prov);
      }
    } else {
      var imsi :| HeldBy(st, s, imsi) && (f.previous || !ListedBy(EnvOf(st, f), s.groups, imsi));
      var p, slices, prov := SliceDeletionLeavesPolicies(st, s, f, imsi);
    }
  }

  lemma SliceDeletionClears(st: Stored, s: Slice, f: Unread, p: Prov, slices: seq<Slice>, prov: Prov)
    requires FindSlice(st.slices, s.name) == Some(s) && SliceTakenOut(st.(prov := p), s.name, f, slices, prov)
    requires forall imsi :: HeldBy(st, s, imsi) ==> !f.previous && ListedBy(EnvOf(st, f), s.groups, imsi)
    ensures NothingOfSlice(st, s, prov)
  {
    hide SliceTakenOut, HeldBy, ListedBy, FindSlice, NoPolicies, NothingUnder;
    assert EnvOf(st.(prov := p), f) == EnvOf(st, f);
    forall imsi | HeldBy(st, s, imsi) ensures NoPolicies(Get(prov, UeId(imsi))) && NothingUnder(Get(prov, UeId(imsi)), PlmnText(s.plmn)) {
      DeletedSliceLeavesNothing(st.(prov := p), s, f, slices, prov, imsi);
    }
  }

  lemma SliceDeletionLeavesPolicies(st: Stored, s: Slice, f: Unread, imsi: string) returns (p: Prov, slices: seq<Slice>, prov: Prov)
    requires FindSlice(st.slices, s.name) == Some(s) && HeldBy(st, s, imsi)
    requires f.previous || !ListedBy(EnvOf(st, f), s.groups, imsi)
    ensures SliceTakenOut(st.(prov := p), s.name, f, slices, prov) && !NothingOfSlice(st, s, prov)
  {
    hide CleanupEvents, Play, Mine, NothingUnder, HeldBy, ListedBy, FindSlice;
    var u := UeId(imsi);
    p := map[u := EmptyUe.(amPolicy := true)];
    var before, prev := st.(prov := p), PreviousSlice(st.slices, s.name, f);
    assert EnvOf(before, f) == EnvOf(st, f);
    var es := CleanupEvents(EnvOf(before, f), prev.groups, PlmnText(prev.plmn));
    slices, prov := Select(st.slices, Not(SliceNamed(s.name))), Play(p, es);
    NotListedByNone(EnvOf(st, f), imsi);
    CleanupMine(EnvOf(st, f), prev.groups, PlmnText(prev.plmn), imsi);
    EachUeByItself(p, es, u);
    assert !NoPolicies(Get(prov, u));
  }

  lemma NotListedByNone(env: Env, imsi: string)
    ensures !ListedBy(env, [], imsi)
  {
  }

  /** A concrete case: the group of slice "s" cannot be read, and deleting the slice leaves its
      subscriber as it was. */
  lemma DeletedSliceKeepsItsSubscriber() returns (st: Stored, f: Unread)
    ensures st == COUNTER_STORE.(prov := st.prov) && f == AllRead.(groups := {"old"})
    ensures SliceTakenOut(st, "s", f, [], st.prov)
    ensures UeId("1") in st.prov && !NoPolicies(Get(st.prov, UeId("1"))) && !NothingUnder(Get(st.prov, UeId("1")), PlmnText(OLD_SLICE.plmn))
  {
    hide Provided, Play;
    var x := Payload(PlmnText(OLD_SLICE.plmn), SnssaiModel(1, ""), map[], "1 bps", "1 bps", "");
    var ue := Provided(EmptyUe, x);
    ProvidedHolds(EmptyUe, x);
    st, f := COUNTER_STORE.(prov := map[UeId("1") := ue]), AllRead.(groups := {"old"});
    CleanupOfUnread(EnvOf(st, f), OLD_SLICE.groups, PlmnText(OLD_SLICE.plmn));
    OnlySlice(f);
    PlayNothing(st.prov);
  }

  lemma OnlySlice(f: Unread)
    requires !f.previous
    ensures PreviousSlice([OLD_SLICE], "s", f) == OLD_SLICE && Select([OLD_SLICE], Not(SliceNamed("s"))) == []
  {
    assert [OLD_SLICE][..0] == [];
  }

  // ---------- deleting a device group ----------

  function Outside(names: seq<string>): string -> bool { (n: string) => n !in names }

  lemma {:induction false} NotInIsSelect(names: seq<string>, kept: seq<string>)
    ensures NotIn(names, kept) == Select(names, Outside(kept))
  {
    if names != [] { NotInIsSelect(names[..|names| - 1], kept); }
  }

  lemma {:induction false} FindGroupIs(groups: seq<Group>, name: string)
    ensures FindGroup(groups, name).None? <==> forall g :: g in groups ==> g.name != name
  {
    if groups != [] { FindGroupIs(groups[1..], name); }
  }

  /** The record is gone, no slice lists the group, and each slice keeps its other fields and the
      order of its other groups. */
  lemma DeletedGroupIsListedNowhere(st: Stored, name: string, f: Unread, order: seq<Slice>, after: Stored, i: nat) returns (at: seq<nat>)
    requires GroupTakenOut(st, name, f, order, after.slices, after.prov) && after.groups == Select(st.groups, Not(GroupNamed(name)))
    requires i < |st.slices|
    ensures FindGroup(after.groups, name).None? && forall g :: g in st.groups && g.name != name ==> g in after.groups
    ensures |after.slices| == |st.slices| && name !in after.slices[i].groups
    ensures after.slices[i] == st.slices[i].(groups := after.slices[i].groups)
    ensures KeptAt(st.slices[i].groups, Outside([name]), after.slices[i].groups, at)
  {
    SelectMembers(st.groups, Not(GroupNamed(name)));
    FindGroupIs(after.groups, name);
    var names := st.slices[i].groups;
    NotInIsSelect(names, [name]);
    NotInMembers(names, [name], name);
    at := SelectPositions(names, Outside([name]));
    if name !in names { NothingTakenOut(names, name); }
  }

  lemma {:induction false} NothingTakenOut(names: seq<string>, name: string)
    requires name !in names
    ensures NotIn(names, [name]) == names
  {
    if names != [] {
      assert names == names[..|names| - 1] + [names[|names| - 1]];
      NothingTakenOut(names[..|names| - 1], name);
    }
  }

  /** After a subscriber left its groups no group has the IMSI, and each group keeps its other fields
      and the order of its other IMSIs. */
  lemma SubscriberIsInNoGroup(before: seq<Group>, after: seq<Group>, imsi: string, i: nat) returns (at: seq<nat>)
    requires after == Map(Changed(HasImsi(imsi), WithoutImsi(imsi)), before) && i < |before|
    ensures |after| == |before| && imsi !in after[i].imsis && after[i] == before[i].(imsis := after[i].imsis)
    ensures KeptAt(before[i].imsis, Outside([imsi]), after[i].imsis, at)
  {
    var imsis := before[i].imsis;
    NotInIsSelect(imsis, [imsi]);
    NotInMembers(imsis, [imsi], imsi);
    at := SelectPositions(imsis, Outside([imsi]));
    if imsi !in imsis { NothingTakenOut(imsis, imsi); }
  }

  /** Each IMSI the group held has no policies left, and no AM, SM or SMF selection document under
      the PLMN of any slice that listed the group. The cleanup must come before the record goes
      and after the provisioning of the remaining groups in each slice. */
  lemma DeletedGroupLeavesNothing(st: Stored, name: string, f: Unread, order: seq<Slice>, after: Stored, imsi: string, s: Slice)
    requires GroupTakenOut(st, name, f, order, after.slices, after.prov)
    requires name !in f.groups && FindGroup(st.groups, name).Some? && imsi in FindGroup(st.groups, name).value.imsis
    requires s in st.slices && name in s.groups
    ensures var r := Get(after.prov, UeId(imsi)); NoPolicies(r) && NothingUnder(r, PlmnText(s.plmn))
  {
    var selected := Select(st.slices, Lists(name));
    SelectMembers(st.slices, Lists(name));
    forall x ensures x in order <==> x in selected {
      assert x in order <==> x in multiset(order);
      assert x in selected <==> x in multiset(selected);
    }
    assert s in order;
    GroupRemovalClears(st.prov, EnvOf(st, f), order, name, imsi);
  }

  lemma {:induction false} CleanupOfUnread(env: Env, names: seq<string>, plmn: string)
    requires forall name :: name in names ==> name in env.unread
    ensures CleanupEvents(env, names, plmn) == []
  {
    if names != [] {
      var front, last := names[..|names| - 1], names[|names| - 1];
      assert names == front + [last];
      CleanupOfUnread(env, front, plmn);
    }
  }

  /** The events of providing for the groups that remain, slice after slice. */
  function RemainingEvents(env: Env, order: seq<Slice>, name: string): seq<Event>
    requires AllTargets(order, WithoutGroup(name))
  {
    if order == [] then []
    else
      var front, last := order[..|order| - 1], WithoutGroup(name)(order[|order| - 1]);
      assert order == front + [order[|order| - 1]];
      RemainingEvents(env, front, name) + NamesEvents(env, last.groups, TargetOf(last).value)
  }

  /** Taking a group out that cannot be read produces no cleanup event at all. */
  lemma {:induction false} UnreadGroupIsNotCleanedUp(env: Env, order: seq<Slice>, name: string)
    requires name in env.unread && AllTargets(order, WithoutGroup(name))
    ensures ChangeEvents(env, order, WithoutGroup(name)) == RemainingEvents(env, order, name)
    ensures forall e :: e in RemainingEvents(env, order, name) ==> e.Provide?
  {
    hide NamesEvents, CleanupEvents, RemovedNames, TargetOf;
    if order != [] {
      var front, s := order[..|order| - 1], order[|order| - 1];
      var changed := WithoutGroup(name)(s);
      assert order == front + [s];
      UnreadGroupIsNotCleanedUp(env, front, name);
      forall n | n in RemovedNames(changed, s) ensures n in env.unread {
        RemovedNamesMembers(changed, s, n);
        NotInMembers(s.groups, [name], n);
      }
      CleanupOfUnread(env, RemovedNames(changed, s), PlmnText(s.plmn));
      forall e | e in NamesEvents(env, changed.groups, TargetOf(changed).value) ensures e.Provide? {
        ProvisioningEventShape(env, changed.groups, TargetOf(changed).value, e);
      }
    }
  }

  /** A successful DELETE of a group whose record could not be read leaves each subscriber with the
      fold of the provisioning events of the groups that remain. */
  lemma UnreadGroupKeepsItsRecords(st: Stored, name: string, f: Unread, order: seq<Slice>, slices: seq<Slice>, prov: Prov, u: string)
    requires GroupTakenOut(st, name, f, order, slices, prov) && name in f.groups
    ensures Get(prov, u) == PlayUe(Get(st.prov, u), Mine(RemainingEvents(EnvOf(st, f), order, name), u))
    ensures Get(st.prov, u).amPolicy ==> Get(prov, u).amPolicy
  {
    hide Play, PlayUe, Mine, ChangeEvents, RemainingEvents, AllOk, Map;
    var es := RemainingEvents(EnvOf(st, f), order, name);
    UnreadGroupIsNotCleanedUp(EnvOf(st, f), order, name);
    EachUeByItself(st.prov, es, u);
    forall e | e in Mine(es, u) ensures e.Provide? { MineMembers(es, u, e); }
    ProvidingKeepsPolicy(Get(st.prov, u), Mine(es, u));
  }

  lemma {:induction false} ProvidingKeepsPolicy(ue: Ue, es: seq<Event>)
    requires forall e :: e in es ==> e.Provide?
    ensures ue.amPolicy ==> PlayUe(ue, es).amPolicy
  {
    if es != [] {
      assert es[|es| - 1] in es;
      ProvidingKeepsPolicy(ue, es[..|es| - 1]);
    }
  }

  /** Every IMSI of the group is without policies and without documents under the PLMN of every
      slice that listed the group. */
  ghost predicate NothingRemains(slices: seq<Slice>, g: Group, prov: Prov) {
    forall imsi, s :: imsi in g.imsis && s in slices && g.name in s.groups ==>
      NoPolicies(Get(prov, UeId(imsi))) && NothingUnder(Get(prov, UeId(imsi)), PlmnText(s.plmn))
  }

  /** Every slice that lists the group can be stored without it. */
  ghost predicate CanBeTakenOut(st: Stored, name: string, f: Unread) {
    !f.previous && AllOk(EnvOf(st, f), st.slices, Lists(name), WithoutGroup(name))
  }

  ghost predicate IsListed(slices: seq<Slice>, name: string) { exists s :: s in slices && name in s.groups }

  /** Every successful DELETE of a stored group leaves nothing of its subscribers, whatever was
      recorded for them, if and only if the group's record could be read, or no slice lists it, or
      it has no IMSIs, or no DELETE of it can succeed. */
  lemma DeletionClearsIff(st: Stored, g: Group, f: Unread)
    requires FindGroup(st.groups, g.name) == Some(g)
    ensures (forall p, order, slices, prov :: GroupTakenOut(st.(prov := p), g.name, f, order, slices, prov) ==> NothingRemains(st.slices, g, prov))
       <==> g.name !in f.groups || !IsListed(st.slices, g.name) || g.imsis == [] || !CanBeTakenOut(st, g.name, f)
  {
    if g.name !in f.groups || !IsListed(st.slices, g.name) || g.imsis == [] || !CanBeTakenOut(st, g.name, f) {
      forall p, order, slices, prov | GroupTakenOut(st.(prov := p), g.name, f, order, slices, prov)
        ensures NothingRemains(st.slices, g, prov)
      {
        DeletionClears(st, g, f, p, order, slices, prov);
      }
    } else {
      var p, order, slices, prov := DeletionLeavesPolicies(st, g, f);
    }
  }

  lemma DeletionClears(st: Stored, g: Group, f: Unread, p: Prov, order: seq<Slice>, slices: seq<Slice>, prov: Prov)
    requires FindGroup(st.groups, g.name) == Some(g) && GroupTakenOut(st.(prov := p), g.name, f, order, slices, prov)
    requires g.name !in f.groups || !IsListed(st.slices, g.name) || g.imsis == [] || !CanBeTakenOut(st, g.name, f)
    ensures NothingRemains(st.slices, g, prov)
  {
    hide SliceOk, NoPolicies, NothingUnder;
    SelectMembers(st.slices, Lists(g.name));
    assert f.previous ==> !IsListed(st.slices, g.name) by {
      if f.previous {
        assert |Select(st.slices, Lists(g.name))| == |multiset(order)| == 0;
      }
    }
    forall imsi, s | imsi in g.imsis && s in st.slices && g.name in s.groups
      ensures NoPolicies(Get(prov, UeId(imsi))) && NothingUnder(Get(prov, UeId(imsi)), PlmnText(s.plmn))
    {
      var before := st.(prov := p);
      DeletedGroupLeavesNothing(before, g.name, f, order, before.(prov := prov, slices := slices), imsi, s);
    }
  }

  lemma DeletionLeavesPolicies(st: Stored, g: Group, f: Unread)
    returns (p: Prov, order: seq<Slice>, slices: seq<Slice>, prov: Prov)
    requires g.name in f.groups && IsListed(st.slices, g.name) && g.imsis != [] && CanBeTakenOut(st, g.name, f)
    ensures GroupTakenOut(st.(prov := p), g.name, f, order, slices, prov) && !NothingRemains(st.slices, g, prov)
  {
    hide Play, ChangeEvents, NothingUnder, NameOk;
    var u := UeId(g.imsis[0]);
    p := map[u := EmptyUe.(amPolicy := true)];
    var before := st.(prov := p);
    order := Select(st.slices, Lists(g.name));
    SelectMembers(st.slices, Lists(g.name));
    assert AllTargets(order, WithoutGroup(g.name));
    slices := Map(Changed(Lists(g.name), WithoutGroup(g.name)), st.slices);
    assert EnvOf(before, f) == EnvOf(st, f);
    prov := Play(p, ChangeEvents(EnvOf(before, f), order, WithoutGroup(g.name)));
    assert GroupTakenOut(before, g.name, f, order, slices, prov);
    UnreadGroupKeepsItsRecords(before, g.name, f, order, slices, prov, u);
    var s :| s in st.slices && g.name in s.groups;
    assert !NoPolicies(Get(prov, UeId(g.imsis[0])));
  }

  /** A concrete case: group "old" is listed by one slice and provisioned, its record cannot be
      read, and the DELETE leaves its subscriber as it was. */
  lemma DeletedGroupKeepsItsSubscriber() returns (st: Stored, f: Unread)
    ensures st == COUNTER_STORE.(prov := st.prov) && f == AllRead.(groups := {"old"})
    ensures GroupTakenOut(st, "old", f, [OLD_SLICE], [OLD_SLICE.(groups := [])], st.prov)
    ensures UeId("1") in st.prov && !NoPolicies(Get(st.prov, UeId("1"))) && !NothingUnder(Get(st.prov, UeId("1")), PlmnText(OLD_SLICE.plmn))
  {
    hide Provided, Play;
    var x := Payload(PlmnText(OLD_SLICE.plmn), SnssaiModel(1, ""), map[], "1 bps", "1 bps", "");
    var ue := Provided(EmptyUe, x);
    ProvidedHolds(EmptyUe, x);
    st, f := COUNTER_STORE.(prov := map[UeId("1") := ue]), AllRead.(groups := {"old"});
    OnlyOldGroup(st, f);
  }

  lemma OnlyOldGroup(st: Stored, f: Unread)
    requires st == COUNTER_STORE.(prov := st.prov) && f == AllRead.(groups := {"old"})
    ensures GroupTakenOut(st, "old", f, [OLD_SLICE], [OLD_SLICE.(groups := [])], st.prov)
  {
    var s := OLD_SLICE;
    assert s.groups[..0] == [] && NotIn(s.groups, ["old"]) == [];
    var changed := WithoutGroup("old")(s);
    assert changed == s.(groups := []);
    CounterTarget(changed);
    assert st.slices[..0] == [] && [s][..0] == [];
    assert Select(st.slices, Lists("old")) == [s];
    var es := ChangeEvents(EnvOf(st, f), [s], WithoutGroup("old"));
    UnreadGroupIsNotCleanedUp(EnvOf(st, f), [s], "old");
    assert es == [];
    assert Map(Changed(Lists("old"), WithoutGroup("old")), st.slices) == [changed];
  }

  /** The two paths part on a group without IP domains: a slice passes it over, while storing the
      group itself provisions its authorised IMSIs, with no DNN at all. */
  lemma EmptyGroupsAreTreatedDifferently(env: Env, g: Group, t: Target, i: nat)
    requires ReadGroup(env, g.name) == Some(g) && g.domains == [] && i < |g.imsis| && UeId(g.imsis[i]) in env.auth
    ensures NameEvents(env, g.name, t) == []
    ensures PostedOk(env.auth, g, t)
    ensures exists e :: e in PostedGroupEvents(env.auth, g, None, t) && e.Provide? && e.ue == UeId(g.imsis[i]) && e.payload.dnns == map[]
  {
    var m := PostedQosByDnn(g.domains);
    var e := GroupEvent(g, m, t, i);
    GroupEventsAre(env.auth, g, m, t, |g.imsis|, e);
    assert DnnConfigs(m) == map[];
    assert e in PostedGroupEvents(env.auth, g, None, t);
  }

  predicate AnyAuthorised(auth: set<string>, g: Group) {
    exists i :: 0 <= i < |g.imsis| && UeId(g.imsis[i]) in auth
  }

  lemma EventsIffAuthorised(auth: set<string>, g: Group, m: map<string, seq<Qos>>, t: Target)
    ensures GroupEvents(auth, g, m, t, |g.imsis|) != [] <==> AnyAuthorised(auth, g)
  {
    hide GroupEvents, GroupEvent;
    var es := GroupEvents(auth, g, m, t, |g.imsis|);
    if es != [] {
      assert es[0] in es;
      GroupEventsAre(auth, g, m, t, |g.imsis|, es[0]);
    }
    if i :| 0 <= i < |g.imsis| && UeId(g.imsis[i]) in auth {
      GroupEventsAre(auth, g, m, t, |g.imsis|, GroupEvent(g, m, t, i));
    }
  }

  lemma SameConfigs(domains: seq<IpDomain>)
    ensures DnnConfigs(QosByDnn(domains)) == DnnConfigs(PostedQosByDnn(domains))
  {
    hide QosByDnn, PostedQosByDnn;
    DnnMapsAgree(domains);
    assert !Classed(Bitrate.Aggregate([]));
  }

  lemma {:induction false} SameGroupEvents(auth: set<string>, g: Group, m: map<string, seq<Qos>>, w: map<string, seq<Qos>>, t: Target, n: nat)
    requires n <= |g.imsis| && DnnConfigs(m) == DnnConfigs(w)
    ensures GroupEvents(auth, g, m, t, n) == GroupEvents(auth, g, w, t, n)
  {
    hide DnnConfigs;
    if n > 0 { SameGroupEvents(auth, g, m, w, t, n - 1); }
  }

  lemma AllClassedIff(domains: seq<IpDomain>)
    ensures AllClassed(QosByDnn(domains)) <==> AllClassed(PostedQosByDnn(domains)) && EveryDnnHasQos(domains)
  {
    hide QosByDnn, PostedQosByDnn, EveryDnnHasQos, Bitrate.Aggregate;
    var m, w := QosByDnn(domains), PostedQosByDnn(domains);
    forall dnn ensures dnn in m <==> dnn in DnnSet(domains) { QosByDnnIs(domains, dnn); }
    assert m.Keys == DnnSet(domains);
    PostedDnnsAreAllIff(domains);
    DnnMapsAgree(domains);
    if AllClassed(m) { TwoPathsOneMap(domains); }
  }

  /** When storing a slice and storing the group itself provision a stored group alike: the events
      are the same if and only if the group has an IP domain or no authorised IMSI; and with an IP
      domain the slice path goes through if and only if the group path does and, unless there is
      no authorised IMSI, every DNN has a domain with QoS. */
  lemma TwoPathsAgreeIff(env: Env, g: Group, t: Target)
    requires ReadGroup(env, g.name) == Some(g)
    ensures NameEvents(env, g.name, t) == GroupEvents(env.auth, g, PostedQosByDnn(g.domains), t, |g.imsis|)
       <==> g.domains != [] || !AnyAuthorised(env.auth, g)
    ensures g.domains != [] ==>
              (NameOk(env, g.name, t) <==> PostedOk(env.auth, g, t) && (!AnyAuthorised(env.auth, g) || EveryDnnHasQos(g.domains)))
  {
    hide QosByDnn, PostedQosByDnn, GroupEvents, AllClassed, EveryDnnHasQos;
    var m, w := QosByDnn(g.domains), PostedQosByDnn(g.domains);
    SameConfigs(g.domains);
    SameGroupEvents(env.auth, g, m, w, t, |g.imsis|);
    EventsIffAuthorised(env.auth, g, w, t);
    AllClassedIff(g.domains);
  }

  const SILENT_DOMAIN := COUNTER_DOMAIN.(dnn := "ims", qos := None)
  const SILENT_GROUP := OLD_GROUP.(domains := [COUNTER_DOMAIN, SILENT_DOMAIN])

  /** A concrete store whose group, listed by slice "s", has DNN "internet" with QoS and DNN "ims"
      without: posting that slice again is refused, posting that group again succeeds. */
  lemma SilentDnnStopsTheSliceOnly() returns (st: Stored)
    ensures st == COUNTER_STORE.(groups := [SILENT_GROUP]) && MayChoose(st.slices, "old", AllRead, Some(OLD_SLICE))
    ensures PostSlice(st, OLD_SLICE, AllRead) == None
    ensures PostGroup(st, SILENT_GROUP, AllRead, Some(OLD_SLICE)).Some?
  {
    hide QosByDnn, PostedQosByDnn, GroupEvents, NameEvents, AllClassed, TargetOf, Play;
    var g := SILENT_GROUP;
    st := COUNTER_STORE.(groups := [g]);
    var env := EnvOf(st, AllRead);
    CounterTarget(OLD_SLICE);
    var t := TargetOf(OLD_SLICE).value;
    assert UeId(g.imsis[0]) in env.auth && ReadGroup(env, "old") == Some(g);
    assert !EveryDnnHasQos(g.domains) by { assert g.domains[1] == SILENT_DOMAIN; }
    TwoPathsAgreeIff(env, g, t);
    assert "old" in OLD_SLICE.groups && !NameOk(env, "old", t);
    SilentClassed(g.domains);
  }

  lemma SilentClassed(domains: seq<IpDomain>)
    requires domains == [COUNTER_DOMAIN, SILENT_DOMAIN]
    ensures AllClassed(PostedQosByDnn(domains))
  {
    hide QosByDnn, Bitrate.Aggregate;
    assert domains[..1] == [COUNTER_DOMAIN];
    assert PostedQosByDnn(domains) == PostedQosByDnn(domains[..1]);
    OneDomain(COUNTER_DOMAIN);
    AggregateOne(COUNTER_DOMAIN.qos.value);
  }

  /** A subscriber can be created twice: once provisioned and cleaned up it still has its
      authentication record, and the second POST of it succeeds like the first. Before the
      cleanup it is refused. */
  lemma SubscriberIsCreatedTwice(u: string, x: Payload) returns (created: Stored, provided: Stored, cleaned: Stored, again: Stored)
    ensures PostSubscriber(Stored({}, map[], [], []), u, true) == (Ok, created)
    ensures provided == created.(prov := Play(created.prov, [Provide(u, x)]))
    ensures PostSubscriber(provided, u, true).0 == Conflict
    ensures cleaned == created.(prov := Play(created.prov, [Provide(u, x), Remove(u, x.plmn)]))
    ensures u in cleaned.auth && PostSubscriber(cleaned, u, true) == (Ok, again) && again.auth == cleaned.auth
  {
    created := PostSubscriber(Stored({}, map[], [], []), u, true).1;
    var p := created.prov;
    assert p[u] == EmptyUe.(am := map[None := None]);
    var a, b := Provide(u, x), Remove(u, x.plmn);
    assert [a, b][..1] == [a] && [a][..0] == [];
    assert Play(p, [a]) == p[u := Provided(p[u], x)];
    provided, cleaned := created.(prov := Play(p, [a])), created.(prov := Play(p, [a, b]));
    assert Get(cleaned.prov, u) == Removed(Provided(p[u], x), x.plmn);
    again := PostSubscriber(cleaned, u, true).1;
    assert again.auth == cleaned.auth;
  }
}
