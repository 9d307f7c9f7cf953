/** Facts the request handlers rest on: records stored under unique names, how the events of a
    request grow with each step of a loop, and which subscribers a request can touch. */
module RequestSteps {
  import opened Prelude
  import opened Models
  import opened DbAdapter
  import opened Provisioning
  import opened Documents
  import opened NamedRecords
  import ProvisioningTheorems
  import Bitrate

  // ---------- groups and slices by name ----------

  function GroupName(g: Group): string { g.name }
  function SliceName(s: Slice): string { s.name }

  ghost predicate UniqueGroups(groups: seq<Group>) { UniqueNames(groups, GroupName) }
  ghost predicate UniqueSlices(slices: seq<Slice>) { UniqueNames(slices, SliceName) }
  ghost predicate Distinct<T>(s: seq<T>) { forall i, j :: 0 <= i < j < |s| ==> s[i] != s[j] }

  function GroupNamed(name: string): Group -> bool { (g: Group) => g.name == name }
  function SliceNamed(name: string): Slice -> bool { (s: Slice) => s.name == name }
  function Lists(name: string): Slice -> bool { (s: Slice) => name in s.groups }
  function GroupPatch(g: Group): Group -> Group { (stored: Group) => MergeGroup(stored, g) }
  function SlicePatch(s: Slice): Slice -> Slice { (stored: Slice) => MergeSlice(stored, s) }

  lemma {:induction false} PutGroupAt(groups: seq<Group>, g: Group, i: nat)
    requires UniqueGroups(groups) && i < |groups| && groups[i].name == g.name
    ensures PutGroup(groups, g) == groups[i := MergeGroup(groups[i], g)]
    ensures FindGroup(groups, g.name) == Some(groups[i])
  {
    if i > 0 { PutGroupAt(groups[1..], g, i - 1); }
  }

  lemma {:induction false} PutGroupAbsent(groups: seq<Group>, g: Group)
    requires !Matches(groups, GroupNamed(g.name))
    ensures PutGroup(groups, g) == groups + [g] && FindGroup(groups, g.name).None?
  {
    if groups != [] {
      assert !GroupNamed(g.name)(groups[0]);
      forall i | 0 <= i < |groups| - 1 ensures !GroupNamed(g.name)(groups[1..][i]) {
        assert groups[1..][i] == groups[i + 1];
      }
      PutGroupAbsent(groups[1..], g);
      assert groups == [groups[0]] + groups[1..];
    }
  }

  lemma GroupPosted(groups: seq<Group>, g: Group, after: seq<Group>)
    requires UniqueGroups(groups) && PostResult(groups, GroupNamed(g.name), GroupPatch(g), g, after)
    ensures after == PutGroup(groups, g) && UniqueGroups(after)
  {
    if Matches(groups, GroupNamed(g.name)) {
      var i :| 0 <= i < |groups| && GroupNamed(g.name)(groups[i]) && after == groups[i := GroupPatch(g)(groups[i])];
      PutGroupAt(groups, g, i);
    } else {
      PutGroupAbsent(groups, g);
      assert forall i :: 0 <= i < |groups| ==> !GroupNamed(g.name)(groups[i]);
    }
  }

  /** What a successful DELETE of a slice leaves: the slices without it, and the removal of the
      entries of every group that its stored version, if it could be read, listed. */
  ghost predicate SliceTakenOut(st: Stored, name: string, f: Unread, slices: seq<Slice>, prov: Prov) {
    var prev := PreviousSlice(st.slices, name, f);
    && slices == Select(st.slices, Not(SliceNamed(name)))
    && prov == Play(st.prov, CleanupEvents(EnvOf(st, f), prev.groups, PlmnText(prev.plmn)))
  }

  lemma {:induction false} PutSliceAt(slices: seq<Slice>, s: Slice, i: nat)
    requires UniqueSlices(slices) && i < |slices| && slices[i].name == s.name
    ensures PutSlice(slices, s) == slices[i := MergeSlice(slices[i], s)]
    ensures FindSlice(slices, s.name) == Some(slices[i])
  {
    if i > 0 { PutSliceAt(slices[1..], s, i - 1); }
  }

  lemma {:induction false} PutSliceAbsent(slices: seq<Slice>, s: Slice)
    requires !Matches(slices, SliceNamed(s.name))
    ensures PutSlice(slices, s) == slices + [s] && FindSlice(slices, s.name).None?
  {
    if slices != [] {
      assert !SliceNamed(s.name)(slices[0]);
      forall i | 0 <= i < |slices| - 1 ensures !SliceNamed(s.name)(slices[1..][i]) {
        assert slices[1..][i] == slices[i + 1];
      }
      PutSliceAbsent(slices[1..], s);
      assert slices == [slices[0]] + slices[1..];
    }
  }

  lemma SlicePosted(slices: seq<Slice>, s: Slice, after: seq<Slice>)
    requires UniqueSlices(slices) && PostResult(slices, SliceNamed(s.name), SlicePatch(s), s, after)
    ensures after == PutSlice(slices, s) && UniqueSlices(after)
  {
    if Matches(slices, SliceNamed(s.name)) {
      var i :| 0 <= i < |slices| && SliceNamed(s.name)(slices[i]) && after == slices[i := SlicePatch(s)(slices[i])];
      PutSliceAt(slices, s, i);
    } else {
      PutSliceAbsent(slices, s);
      assert forall i :: 0 <= i < |slices| ==> !SliceNamed(s.name)(slices[i]);
    }
  }

  lemma SliceDeleted(slices: seq<Slice>, name: string, after: seq<Slice>)
    requires UniqueSlices(slices) && DeleteResult(slices, SliceNamed(name), after)
    ensures after == Select(slices, Not(SliceNamed(name))) && UniqueSlices(after)
  {
    RecordDeleted(slices, SliceName, SliceNamed(name), name, after);
  }

  lemma GroupDeleted(groups: seq<Group>, name: string, after: seq<Group>)
    requires UniqueGroups(groups) && DeleteResult(groups, GroupNamed(name), after)
    ensures after == Select(groups, Not(GroupNamed(name))) && UniqueGroups(after)
  {
    RecordDeleted(groups, GroupName, GroupNamed(name), name, after);
  }

  // ---------- POST of a subscriber ----------

  datatype Status = Ok | BadRequest | NotFound | Conflict | ServerError

  /** What POST of a subscriber answers and leaves when the store does not fail. */
  ghost function PostSubscriber(st: Stored, u: string, keysGiven: bool): (Status, Stored) {
    if Get(st.prov, u).am != map[] then (Conflict, st)
    else if !keysGiven then (BadRequest, st)
    else (Ok, st.(auth := st.auth + {u}, prov := st.prov[u := Touched(Get(st.prov, u))]))
  }

  // ---------- which subscribers a request can touch ----------

  /** Only these subscribers' records may differ. */
  ghost predicate OnlyTouches(p: Prov, q: Prov, us: set<string>) {
    forall v :: v !in us ==> Get(q, v) == Get(p, v)
  }

  lemma TouchesMore(p: Prov, q: Prov, r: Prov, us: set<string>, vs: set<string>)
    requires OnlyTouches(p, q, us) && OnlyTouches(q, r, vs) && vs <= us
    ensures OnlyTouches(p, r, us)
  {
  }

  function UeIds(imsis: seq<string>): set<string> { set imsi | imsi in imsis :: UeId(imsi) }

  /** The subscribers that the groups with these names list. */
  ghost function Involved(env: Env, names: seq<string>): set<string> {
    set name, imsi | name in names && ReadGroup(env, name).Some? && imsi in ReadGroup(env, name).value.imsis :: UeId(imsi)
  }

  lemma InvolvedMembers(env: Env, names: seq<string>, name: string)
    requires name in names && ReadGroup(env, name).Some?
    ensures UeIds(ReadGroup(env, name).value.imsis) <= Involved(env, names)
  {
  }

  ghost function Reached(env: Env, slices: seq<Slice>, filter: Slice -> bool, change: Slice -> Slice): set<string> {
    set s, u | s in slices && filter(s) && u in Involved(env, change(s).groups) + Involved(env, s.groups) :: u
  }

  lemma ReachedBy(env: Env, slices: seq<Slice>, filter: Slice -> bool, change: Slice -> Slice, s: Slice)
    requires s in slices && filter(s)
    ensures Involved(env, change(s).groups) + Involved(env, s.groups) <= Reached(env, slices, filter, change)
  {
  }

  // ---------- the records of one subscriber ----------

  lemma Overwritten(p: Prov, u: string, a: Ue, b: Ue)
    ensures Get(p[u := a], u) == a && p[u := a][u := b] == p[u := b]
  {
  }

  lemma PayloadParts(m: map<string, seq<Qos>>, aggregated: Qos, t: Target, gpsi: string)
    ensures PayloadOf(m, aggregated, t, gpsi) == PayloadOf(map[], aggregated, t, gpsi).(dnns := DnnConfigs(m))
    ensures PayloadOf(m, aggregated, t, gpsi).snssai == t.snssai && PayloadOf(m, aggregated, t, gpsi).plmn == t.plmn
  {
  }

  lemma FiveUpserts(ue: Ue, x: Payload, y: Payload)
    requires x == y.(dnns := x.dnns)
    ensures Provided(ue, x)
         == Ue(true, Some(SmPolicy(SnssaiHex(x.snssai), x.dnns.Keys)), AmPosted(ue.am, y), ue.sm[x.plmn := SmData(x.snssai, x.dnns)],
               ue.smf[x.plmn := SmfSelection(SnssaiHex(x.snssai), SortedSet(x.dnns.Keys))])
  {
  }

  lemma ConfigKeys(m: map<string, seq<Qos>>)
    requires AllClassed(m)
    ensures DnnConfigs(m).Keys == m.Keys
  {
  }

  /** The rates provisioning uses are the totals of the group's profiles. */
  predicate PayloadRates(aggregated: Qos, g: Group) {
    aggregated.uplink == Bitrate.Aggregate(Profiles(g.domains)).uplink
    && aggregated.downlink == Bitrate.Aggregate(Profiles(g.domains)).downlink
  }

  lemma SameRates(profiles: seq<Qos>, g: Group)
    requires multiset(profiles) == multiset(Profiles(g.domains))
    ensures PayloadRates(Bitrate.Aggregate(profiles), g)
  {
    Bitrate.AggregatePermutation(profiles, Profiles(g.domains));
  }

  /** The documents left when everything of the subscriber under the PLMN is gone: other
      subscribers keep theirs, and so does this one under other PLMNs. */
  function WithoutEntries(t: Tables, u: string, plmn: string): Tables {
    Tables(Select(t.amPolicy, Not(Named(u))), Select(t.smPolicy, Not(OfUe(u))), Select(t.am, Not(AmOfUePlmn(u, plmn))),
           Select(t.sm, Not(OfUePlmn(u, plmn))), Select(t.smf, Not(OfUePlmn(u, plmn))))
  }

  // ---------- one more step of a request ----------

  lemma PlayNothing(p: Prov)
    ensures Play(p, []) == p
  {
  }

  lemma PlayOne(p: Prov, e: Event)
    ensures Play(p, [e]) == p[e.ue := Act(Get(p, e.ue), e)] && Play(p, []) == p
  {
    assert [e][..0] == [];
  }

  /** One more IMSI plays its own events, if it has a record. */
  lemma GroupEventsStep(p: Prov, auth: set<string>, g: Group, m: map<string, seq<Qos>>, t: Target)
    ensures Play(p, GroupEvents(auth, g, m, t, 0)) == p && GroupEvents(auth, g, m, t, 0) == []
    ensures forall i :: 0 <= i < |g.imsis| ==>
                          Play(p, GroupEvents(auth, g, m, t, i + 1)) == Play(Play(p, GroupEvents(auth, g, m, t, i)), ImsiEvents(auth, g, m, t, i))
    ensures forall i :: 0 <= i < |g.imsis| && UeId(g.imsis[i]) in auth ==> GroupEvents(auth, g, m, t, |g.imsis|) != []
    ensures forall i :: 0 <= i < |g.imsis| && UeId(g.imsis[i]) !in auth ==> GroupEvents(auth, g, m, t, i + 1) == GroupEvents(auth, g, m, t, i)
  {
    forall i | 0 <= i < |g.imsis|
      ensures Play(p, GroupEvents(auth, g, m, t, i + 1)) == Play(Play(p, GroupEvents(auth, g, m, t, i)), ImsiEvents(auth, g, m, t, i))
    {
      PlayConcat(p, GroupEvents(auth, g, m, t, i), ImsiEvents(auth, g, m, t, i));
    }
    forall i | 0 <= i < |g.imsis| && UeId(g.imsis[i]) in auth ensures GroupEvents(auth, g, m, t, |g.imsis|) != [] {
      GroupEventsAre(auth, g, m, t, |g.imsis|, GroupEvent(g, m, t, i));
    }
  }

  lemma RemoveEventsStep(p: Prov, imsis: seq<string>, plmn: string)
    ensures Play(p, RemoveEvents(imsis[..0], plmn)) == p
    ensures forall i :: 0 <= i < |imsis| ==>
                          Play(p, RemoveEvents(imsis[..i + 1], plmn)) == Play(Play(p, RemoveEvents(imsis[..i], plmn)), [Remove(UeId(imsis[i]), plmn)])
  {
    forall i | 0 <= i < |imsis|
      ensures Play(p, RemoveEvents(imsis[..i + 1], plmn)) == Play(Play(p, RemoveEvents(imsis[..i], plmn)), [Remove(UeId(imsis[i]), plmn)])
    {
      assert imsis[..i + 1][..i] == imsis[..i];
      PlayConcat(p, RemoveEvents(imsis[..i], plmn), [Remove(UeId(imsis[i]), plmn)]);
    }
  }

  lemma CleanupEventsStep(p: Prov, env: Env, names: seq<string>, plmn: string)
    ensures Play(p, CleanupEvents(env, names[..0], plmn)) == p
    ensures forall i :: 0 <= i < |names| ==>
                          var g := ReadGroup(env, names[i]);
                          Play(p, CleanupEvents(env, names[..i + 1], plmn))
                          == if g.Some? then Play(Play(p, CleanupEvents(env, names[..i], plmn)), RemoveEvents(g.value.imsis, plmn))
                             else Play(p, CleanupEvents(env, names[..i], plmn))
  {
    forall i | 0 <= i < |names|
      ensures var g := ReadGroup(env, names[i]);
        Play(p, CleanupEvents(env, names[..i + 1], plmn))
        == if g.Some? then Play(Play(p, CleanupEvents(env, names[..i], plmn)), RemoveEvents(g.value.imsis, plmn))
           else Play(p, CleanupEvents(env, names[..i], plmn))
    {
      var g := ReadGroup(env, names[i]);
      assert names[..i + 1][..i] == names[..i];
      var es := if g.Some? then RemoveEvents(g.value.imsis, plmn) else [];
      assert CleanupEvents(env, names[..i + 1], plmn) == CleanupEvents(env, names[..i], plmn) + es;
      PlayConcat(p, CleanupEvents(env, names[..i], plmn), es);
    }
  }

  lemma NamesEventsStep(p: Prov, env: Env, names: seq<string>, t: Target)
    ensures Play(p, NamesEvents(env, names[..0], t)) == p
    ensures forall i :: 0 <= i < |names| ==>
                          Play(p, NamesEvents(env, names[..i + 1], t)) == Play(Play(p, NamesEvents(env, names[..i], t)), NameEvents(env, names[i], t))
  {
    forall i | 0 <= i < |names|
      ensures Play(p, NamesEvents(env, names[..i + 1], t)) == Play(Play(p, NamesEvents(env, names[..i], t)), NameEvents(env, names[i], t))
    {
      assert names[..i + 1][..i] == names[..i];
      PlayConcat(p, NamesEvents(env, names[..i], t), NameEvents(env, names[i], t));
    }
  }

  /** What processing one listed name amounts to. */
  lemma NameProcessed(env: Env, name: string, t: Target)
    ensures var g := ReadGroup(env, name);
      if g.Some? && |g.value.domains| != 0
      then NameEvents(env, name, t) == GroupEvents(env.auth, g.value, QosByDnn(g.value.domains), t, |g.value.imsis|)
      else NameEvents(env, name, t) == [] && forall p :: Play(p, NameEvents(env, name, t)) == p
  {
  }

  // ---------- storing a group ----------

  /** No provisioning of the group's IMSIs is refused. */
  predicate PostedOk(auth: set<string>, g: Group, t: Target) {
    GroupEvents(auth, g, PostedQosByDnn(g.domains), t, |g.imsis|) == [] || AllClassed(PostedQosByDnn(g.domains))
  }

  /** The records after a group is stored, given the slice that was found to list it. */
  ghost function PostedProv(p: Prov, auth: set<string>, g: Group, prev: Option<Group>, chosen: Option<Slice>): Option<Prov> {
    if chosen.None? then Some(p)
    else if TargetOf(chosen.value).Some? && PostedOk(auth, g, TargetOf(chosen.value).value)
    then Some(Play(p, PostedGroupEvents(auth, g, prev, TargetOf(chosen.value).value)))
    else None
  }

  lemma PostGroupIs(st: Stored, g: Group, f: Unread)
    ensures forall chosen ::
              PostGroup(st, g, f, chosen)
              == match PostedProv(st.prov, EnvOf(st, f).auth, g, PreviousGroup(st.groups, g.name, f), chosen)
                 case Some(p) => Some(st.(groups := PutGroup(st.groups, g), prov := p))
                 case None => None
  {
  }

  ghost function SomeChoice(slices: seq<Slice>, name: string, f: Unread): (chosen: Option<Slice>)
    ensures MayChoose(slices, name, f, chosen)
  {
    if c :| !f.slices && c in slices && name in c.groups then Some(c) else None
  }

  // ---------- changing slices one after the other ----------

  ghost predicate KeepsNameAndRules(change: Slice -> Slice) {
    forall s :: change(s).name == s.name && change(s).rules == s.rules
  }

  ghost predicate AllOk(env: Env, slices: seq<Slice>, filter: Slice -> bool, change: Slice -> Slice) {
    forall s :: s in slices && filter(s) ==> SliceOk(env, change(s))
  }

  ghost predicate AllTargets(order: seq<Slice>, change: Slice -> Slice) {
    forall s :: s in order ==> TargetOf(change(s)).Some?
  }

  /** What taking a group out of all slices leaves: the slices without the name, and the events
      of storing them one after the other. */
  ghost predicate GroupTakenOut(st: Stored, name: string, f: Unread, order: seq<Slice>, slices: seq<Slice>, prov: Prov) {
    && slices == Map(Changed(Lists(name), WithoutGroup(name)), st.slices)
    && multiset(order) == multiset(Select(st.slices, Lists(name)))
    && AllTargets(order, WithoutGroup(name))
    && AllOk(EnvOf(st, f), st.slices, Lists(name), WithoutGroup(name)) && (f.previous ==> order == [])
    && prov == Play(st.prov, ChangeEvents(EnvOf(st, f), order, WithoutGroup(name)))
  }

  /** What a run over the matching slices leaves that stops at its first failure: the first n in
      the order found are stored in their changed version and no others, and all of these but
      perhaps the last were provisioned. On a reliable store it is the provisioning of the last
      one that failed. */
  ghost predicate StoppedAfter(st: Stored, f: Unread, reliable: bool, filter: Slice -> bool, change: Slice -> Slice,
                               order: seq<Slice>, n: nat, slices: seq<Slice>) {
    && multiset(order) == multiset(Select(st.slices, filter)) && n <= |order|
    && Progress(st.slices, slices, order[..n], change, true)
    && (forall k :: 0 <= k < n - 1 ==> SliceOk(EnvOf(st, f), change(order[k])))
    && (f.previous ==> n == 0)
    && (reliable && !f.previous ==> n > 0 && !SliceOk(EnvOf(st, f), change(order[n - 1])))
  }

  lemma NothingStored(before: seq<Slice>, change: Slice -> Slice)
    ensures Progress(before, before, [], change, true)
  {
  }

  lemma AllFoundOk(env: Env, slices: seq<Slice>, filter: Slice -> bool, found: seq<Slice>, change: Slice -> Slice)
    requires forall s :: s in slices && filter(s) ==> s in found
    requires forall k :: 0 <= k < |found| ==> SliceOk(env, change(found[k]))
    ensures AllOk(env, slices, filter, change)
  {
    hide SliceOk;
  }

  /** The found slices are the matching ones, each once. */
  lemma FoundSlices(slices: seq<Slice>, filter: Slice -> bool, found: seq<Slice>)
    requires UniqueSlices(slices) && multiset(found) == multiset(Select(slices, filter))
    ensures UniqueSlices(found) && forall s :: s in found <==> s in slices && filter(s)
  {
    FoundRecords(slices, SliceName, filter, found);
  }

  /** The next found slice is still as it was found, and storing its changed version, or
      failing to, is progress. */
  lemma ChangeStep(before: seq<Slice>, now: seq<Slice>, found: seq<Slice>, i: nat, change: Slice -> Slice, complete: bool)
    requires UniqueSlices(before) && UniqueSlices(found) && KeepsNameAndRules(change)
    requires i < |found| && found[i] in before && Progress(before, now, found[..i], change, complete)
    ensures FindSlice(now, found[i].name) == Some(found[i])
    ensures Progress(before, now, found[..i + 1], change, false)
    ensures Progress(before, PutSlice(now, change(found[i])), found[..i + 1], change, false)
    ensures Progress(before, PutSlice(now, change(found[i])), found[..i + 1], change, complete)
  {
    var k := ProgressStep(before, now, SliceName, found, i, change, complete);
    PutSliceAt(now, change(found[i]), k);
    assert MergeSlice(now[k], change(found[i])) == change(found[i]);
  }

  lemma ChangeEventsStart(before: seq<Slice>, p: Prov, env: Env, change: Slice -> Slice)
    ensures Progress(before, before, [], change, true) && Play(p, ChangeEvents(env, [], change)) == p
  {
  }

  lemma ChangeEventsStep(p: Prov, env: Env, order: seq<Slice>, i: nat, change: Slice -> Slice)
    requires i < |order| && AllTargets(order[..i], change) && SliceOk(env, change(order[i]))
    ensures AllTargets(order[..i + 1], change)
    ensures Play(p, ChangeEvents(env, order[..i + 1], change))
         == Play(Play(p, ChangeEvents(env, order[..i], change)), SliceEvents(env, change(order[i]), order[i]))
  {
    hide Play, SliceEvents, NameOk;
    assert order[..i + 1] == order[..i] + [order[i]] && order[..i + 1][..i] == order[..i];
    PlayConcat(p, ChangeEvents(env, order[..i], change), SliceEvents(env, change(order[i]), order[i]));
  }

  // ---------- taking an IMSI out of its groups ----------

  function HasImsi(imsi: string): Group -> bool { (g: Group) => imsi in g.imsis }

  function WithoutImsi(imsi: string): Group -> Group { (g: Group) => g.(imsis := NotIn(g.imsis, [imsi])) }

  lemma FoundGroups(groups: seq<Group>, filter: Group -> bool, found: seq<Group>)
    requires UniqueGroups(groups) && multiset(found) == multiset(Select(groups, filter))
    ensures UniqueGroups(found) && forall g :: g in found <==> g in groups && filter(g)
  {
    FoundRecords(groups, GroupName, filter, found);
  }

  lemma GroupChangeStep(before: seq<Group>, now: seq<Group>, found: seq<Group>, i: nat, imsi: string, complete: bool)
    requires UniqueGroups(before) && UniqueGroups(found)
    requires i < |found| && found[i] in before && Progress(before, now, found[..i], WithoutImsi(imsi), complete)
    ensures FindGroup(now, found[i].name) == Some(found[i])
    ensures Progress(before, now, found[..i + 1], WithoutImsi(imsi), false)
    ensures Progress(before, PutGroup(now, WithoutImsi(imsi)(found[i])), found[..i + 1], WithoutImsi(imsi), false)
    ensures Progress(before, PutGroup(now, WithoutImsi(imsi)(found[i])), found[..i + 1], WithoutImsi(imsi), complete)
  {
    var g := WithoutImsi(imsi)(found[i]);
    var k := ProgressStep(before, now, GroupName, found, i, WithoutImsi(imsi), complete);
    PutGroupAt(now, g, k);
    assert MergeGroup(now[k], g) == g;
  }

  /** No policies, and nothing under the PLMN of any of the chosen slices. */
  ghost predicate ClearedUnder(ue: Ue, chosen: seq<Option<Slice>>) {
    forall c :: Some(c) in chosen ==> ProvisioningTheorems.NoPolicies(ue) && ProvisioningTheorems.NothingUnder(ue, PlmnText(c.plmn))
  }

  /** A group that lost the IMSI clears it under the slice that lists the group, and brings
      nothing back that earlier groups cleared. */
  lemma ImsiStaysCleared(p: Prov, q: Prov, auth: set<string>, g: Group, imsi: string, chosen: seq<Option<Slice>>, c: Option<Slice>)
    requires imsi in g.imsis && ClearedUnder(Get(p, UeId(imsi)), chosen)
    requires PostedProv(p, auth, WithoutImsi(imsi)(g), Some(g), c) == Some(q)
    ensures ClearedUnder(Get(q, UeId(imsi)), chosen + [c])
  {
    if c.Some? {
      ProvisioningTheorems.GroupLosesImsi(p, auth, g, TargetOf(c.value).value, imsi);
    }
  }

  ghost predicate ChosenTargets(chosen: seq<Option<Slice>>) {
    forall c :: Some(c) in chosen ==> TargetOf(c).Some?
  }

  /** The events of storing the found groups without the IMSI one after the other, each under the
      slice that was chosen for it, if any. */
  function LeavingEvents(auth: set<string>, found: seq<Group>, chosen: seq<Option<Slice>>, imsi: string, readable: bool): seq<Event>
    requires |chosen| == |found| && ChosenTargets(chosen)
  {
    if found == [] then []
    else
      var n := |found| - 1;
      assert chosen == chosen[..n] + [chosen[n]];
      LeavingEvents(auth, found[..n], chosen[..n], imsi, readable)
        + if chosen[n].None? then []
          else PostedGroupEvents(auth, WithoutImsi(imsi)(found[n]), if readable then Some(found[n]) else None, TargetOf(chosen[n].value).value)
  }

  lemma LeavingStart(p: Prov, auth: set<string>, imsi: string, readable: bool, us: set<string>)
    ensures ChosenTargets([]) && Play(p, LeavingEvents(auth, [], [], imsi, readable)) == p && OnlyTouches(p, p, us)
  {
  }

  /** One more group that is stored without the IMSI. */
  lemma LeavingStep(p: Prov, q: Prov, auth: set<string>, found: seq<Group>, chosen: seq<Option<Slice>>, imsi: string, readable: bool,
                    g: Group, c: Option<Slice>)
    requires |chosen| == |found| && ChosenTargets(chosen)
    requires PostedProv(Play(p, LeavingEvents(auth, found, chosen, imsi, readable)), auth, WithoutImsi(imsi)(g),
                        if readable then Some(g) else None, c) == Some(q)
    ensures ChosenTargets(chosen + [c])
    ensures q == Play(p, LeavingEvents(auth, found + [g], chosen + [c], imsi, readable))
  {
    hide PostedGroupEvents, Play, TargetOf, PostedOk;
    var before := LeavingEvents(auth, found, chosen, imsi, readable);
    assert (found + [g])[..|found|] == found && (chosen + [c])[..|found|] == chosen;
    if c.Some? {
      PlayConcat(p, before, PostedGroupEvents(auth, WithoutImsi(imsi)(g), if readable then Some(g) else None, TargetOf(c.value).value));
    } else {
      assert before + [] == before;
    }
  }

  /** The subscribers that share a group with the IMSI, itself included. */
  ghost function Housemates(groups: seq<Group>, imsi: string): set<string> {
    set g, m | g in groups && imsi in g.imsis && m in g.imsis :: UeId(m)
  }

  lemma HousematesOf(groups: seq<Group>, g: Group, prev: Option<Group>, imsi: string)
    requires g in groups && imsi in g.imsis && (prev.None? || prev == Some(g))
    ensures UeIds(WithoutImsi(imsi)(g).imsis) + UeIds(RemovedImsis(WithoutImsi(imsi)(g), prev)) <= Housemates(groups, imsi)
  {
    var without := WithoutImsi(imsi)(g);
    forall m | m in without.imsis ensures m in g.imsis { NotInMembers(g.imsis, [imsi], m); }
    forall m | m in RemovedImsis(without, prev) ensures m in g.imsis { NotInMembers(g.imsis, without.imsis, m); }
  }

  lemma StillCleared(ue: Ue, lost: set<Option<string>>, chosen: seq<Option<Slice>>)
    ensures ClearedUnder(ue, chosen) ==> ClearedUnder(WithoutAm(ue, lost), chosen)
  {
  }

  // ---------- authentication records ----------

  lemma AuthUpserted(auth: seq<string>, u: string, after: seq<string>)
    requires Distinct(auth) && PostResult(auth, Named(u), Same, u, after)
    ensures Distinct(after) && (set v | v in after) == (set v | v in auth) + {u}
  {
    if Matches(auth, Named(u)) {
      var i :| 0 <= i < |auth| && Named(u)(auth[i]) && after == auth[i := Same(auth[i])];
      assert after == auth;
    } else {
      assert forall i :: 0 <= i < |auth| ==> !Named(u)(auth[i]);
    }
  }

  lemma AuthDeleted(auth: seq<string>, u: string, after: seq<string>)
    requires Distinct(auth) && DeleteResult(auth, Named(u), after)
    ensures Distinct(after) && (set v | v in after) == (set v | v in auth) - {u}
  {
    var i := DeleteOnly(auth, after, Named(u));
    SelectMembers(auth, Not(Named(u)));
    if i < |auth| { WithoutAtApart(auth, i, Same); }
  }
}
