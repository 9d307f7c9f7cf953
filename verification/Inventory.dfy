/** The gNB and UPF inventory and its propagation into the stored slices. */
module Inventory {
  import opened Prelude
  import opened Models
  import opened DbAdapter
  import opened Provisioning
  import opened Documents
  import opened NamedRecords
  import opened RequestSteps
  import opened ConfigStore
  import ProvisioningTheorems
  import Views

  datatype InventoryGnb = InventoryGnb(name: string, tac: int32)
  datatype InventoryUpf = InventoryUpf(hostname: string, port: string)

  /** PUT stores a value under the name, DELETE removes the name. */
  datatype Operation<V> = Put(value: V) | Delete

  function GnbName(g: InventoryGnb): string { g.name }
  function Hostname(u: InventoryUpf): string { u.hostname }
  function GnbRecord(name: string): InventoryGnb -> bool { (g: InventoryGnb) => g.name == name }
  function UpfRecord(hostname: string): InventoryUpf -> bool { (u: InventoryUpf) => u.hostname == hostname }

  // ---------- what a slice becomes ----------

  function GnbNamed(name: string): Gnb -> bool { (g: Gnb) => g.name == name }
  function SetTac(tac: int32): Gnb -> Gnb { (g: Gnb) => g.(tac := tac) }

  function HasGnb(name: string): Slice -> bool { (s: Slice) => Matches(s.gnbs, GnbNamed(name)) }

  function GnbChange(name: string, op: Operation<int32>): Slice -> Slice {
    match op
    case Put(tac) => (s: Slice) => s.(gnbs := Map(Changed(GnbNamed(name), SetTac(tac)), s.gnbs))
    case Delete => (s: Slice) => s.(gnbs := Select(s.gnbs, Not(GnbNamed(name))))
  }

  const UPF_NAME := "upf-name"
  const UPF_PORT := "upf-port"

  function HasUpf(hostname: string): Slice -> bool {
    (s: Slice) => s.upf.Some? && UPF_NAME in s.upf.value && s.upf.value[UPF_NAME] == Text(hostname)
  }

  function UpfChange(hostname: string, op: Operation<string>): Slice -> Slice {
    match op
    case Put(port) => (s: Slice) => s.(upf := Some(map[UPF_NAME := Text(hostname), UPF_PORT := Text(port)]))
    case Delete => (s: Slice) => s.(upf := None)
  }

  /** The matching slices are changed and stored again one after the other, which provisions
      their subscribers again. */
  ghost predicate Propagated(st: Stored, f: Unread, filter: Slice -> bool, change: Slice -> Slice, order: seq<Slice>,
                             slices: seq<Slice>, prov: Prov) {
    && slices == Map(Changed(filter, change), st.slices)
    && multiset(order) == multiset(Select(st.slices, filter))
    && AllTargets(order, change) && AllOk(EnvOf(st, f), st.slices, filter, change)
    && prov == Play(st.prov, ChangeEvents(EnvOf(st, f), order, change))
  }

  class Inventory {
    const db: Database
    var gnbs: seq<InventoryGnb>
    var upfs: seq<InventoryUpf>

    constructor (db: Database)
      requires db.Valid()
      ensures Valid() && this.db == db && gnbs == [] && upfs == []
    {
      this.db := db;
      gnbs, upfs := [], [];
    }

    ghost predicate Valid()
      reads this, db
    {
      db.Valid() && UniqueNames(gnbs, GnbName) && UniqueNames(upfs, Hostname)
    }

    method UpdateInventoryInNetworkSlices(filter: Slice -> bool, change: Slice -> Slice, f: Unread)
      returns (err: bool, ghost order: seq<Slice>, ghost n: nat)
      requires db.Valid() && KeepsNameAndRules(change)
      modifies db`slices, db`amPolicy, db`smPolicy, db`am, db`sm, db`smf, db`prov
      ensures db.Valid() && Between(old(db.slices), db.slices, filter, change)
      ensures db.reliable && !f.previous && AllOk(old(db.EnvNow(f)), old(db.slices), filter, change) ==> !err
      ensures !err ==> Propagated(old(db.State()), f, filter, change, order, db.slices, db.prov)
      ensures !err ==> n == |order| && StoppedAfter(old(db.State()), f, false, filter, change, order, n, db.slices)
      ensures err ==> StoppedAfter(old(db.State()), f, db.reliable, filter, change, order, n, db.slices)
    {
      hide Database.Valid, Progress, Between, Play, SliceOk, Select, ChangeEvents, KeepsNameAndRules;
      ghost var slices := db.slices;
      err, order, n := db.ChangeSlices(filter, change, false, f);
      assert order[..|order|] == order;
      if !err { ListedAreOk(db.EnvNow(f), slices, filter, change, order); }
    }

    method GnbOperation(name: string, op: Operation<int32>) returns (err: bool)
      requires UniqueNames(gnbs, GnbName)
      modifies this`gnbs
      ensures UniqueNames(gnbs, GnbName) && (db.reliable ==> !err)
      ensures if err then gnbs == old(gnbs) else GnbStored(old(gnbs), name, op, gnbs)
    {
      var after;
      match op
      case Put(tac) =>
        after, err := PostOne(gnbs, GnbRecord(name), Becomes(InventoryGnb(name, tac)), InventoryGnb(name, tac), db.reliable);
        if !err {
          RecordPosted(gnbs, GnbName, GnbRecord(name), InventoryGnb(name, tac), after);
          gnbs := after;
        }
      case Delete =>
        after, err := DeleteOne(gnbs, GnbRecord(name), db.reliable);
        if !err {
          RecordDeleted(gnbs, GnbName, GnbRecord(name), name, after);
          gnbs := after;
        }
    }

    /** Inventory record first, slices second and outside the session: when something fails a
        session takes back the record but not the slices already changed. */
    method ExecuteGnbTransaction(name: string, op: Operation<int32>, f: Unread)
      returns (err: bool, ghost order: seq<Slice>, ghost n: nat)
      requires Valid()
      modifies this`gnbs, db`slices, db`amPolicy, db`smPolicy, db`am, db`sm, db`smf, db`prov
      ensures Valid() && Between(old(db.slices), db.slices, HasGnb(name), GnbChange(name, op))
      ensures db.reliable && !f.previous && AllOk(old(db.EnvNow(f)), old(db.slices), HasGnb(name), GnbChange(name, op)) ==> !err
      ensures !err ==> GnbStored(old(gnbs), name, op, gnbs)
      ensures !err ==> Propagated(old(db.State()), f, HasGnb(name), GnbChange(name, op), order, db.slices, db.prov)
      ensures err && db.transactions ==> gnbs == old(gnbs)
      ensures err ==> StoppedAfter(old(db.State()), f, db.reliable, HasGnb(name), GnbChange(name, op), order, n, db.slices)
    {
      hide Database.Valid, UniqueNames, Propagated, AllOk, GnbStored, Between, StoppedAfter, Select;
      Unchanged(db.slices, HasGnb(name), GnbChange(name, op));
      NothingStopped(db.State(), f, HasGnb(name), GnbChange(name, op));
      order, n := Select(db.slices, HasGnb(name)), 0;
      var started, committed := *, *;
      if !db.reliable && !started { return true, order, n; }
      var before := gnbs;
      err := GnbOperation(name, op);
      if !err {
        err, order, n := UpdateInventoryInNetworkSlices(HasGnb(name), GnbChange(name, op), f);
      }
      if db.transactions && (err || (!db.reliable && !committed)) {
        gnbs := before;
        err := true;
      }
    }

    method UpfOperation(hostname: string, op: Operation<string>) returns (err: bool)
      requires UniqueNames(upfs, Hostname)
      modifies this`upfs
      ensures UniqueNames(upfs, Hostname) && (db.reliable ==> !err)
      ensures if err then upfs == old(upfs) else UpfStored(old(upfs), hostname, op, upfs)
    {
      var after;
      match op
      case Put(port) =>
        after, err := PostOne(upfs, UpfRecord(hostname), Becomes(InventoryUpf(hostname, port)), InventoryUpf(hostname, port), db.reliable);
        if !err {
          RecordPosted(upfs, Hostname, UpfRecord(hostname), InventoryUpf(hostname, port), after);
          upfs := after;
        }
      case Delete =>
        after, err := DeleteOne(upfs, UpfRecord(hostname), db.reliable);
        if !err {
          RecordDeleted(upfs, Hostname, UpfRecord(hostname), hostname, after);
          upfs := after;
        }
    }

    method ExecuteUpfTransaction(hostname: string, op: Operation<string>, f: Unread)
      returns (err: bool, ghost order: seq<Slice>, ghost n: nat)
      requires Valid()
      modifies this`upfs, db`slices, db`amPolicy, db`smPolicy, db`am, db`sm, db`smf, db`prov
      ensures Valid() && Between(old(db.slices), db.slices, HasUpf(hostname), UpfChange(hostname, op))
      ensures db.reliable && !f.previous && AllOk(old(db.EnvNow(f)), old(db.slices), HasUpf(hostname), UpfChange(hostname, op)) ==> !err
      ensures !err ==> UpfStored(old(upfs), hostname, op, upfs)
      ensures !err ==> Propagated(old(db.State()), f, HasUpf(hostname), UpfChange(hostname, op), order, db.slices, db.prov)
      ensures err && db.transactions ==> upfs == old(upfs)
      ensures err ==> StoppedAfter(old(db.State()), f, db.reliable, HasUpf(hostname), UpfChange(hostname, op), order, n, db.slices)
    {
      hide Database.Valid, UniqueNames, Propagated, AllOk, UpfStored, Between, StoppedAfter, Select;
      Unchanged(db.slices, HasUpf(hostname), UpfChange(hostname, op));
      NothingStopped(db.State(), f, HasUpf(hostname), UpfChange(hostname, op));
      order, n := Select(db.slices, HasUpf(hostname)), 0;
      var started, committed := *, *;
      if !db.reliable && !started { return true, order, n; }
      var before := upfs;
      err := UpfOperation(hostname, op);
      if !err {
        err, order, n := UpdateInventoryInNetworkSlices(HasUpf(hostname), UpfChange(hostname, op), f);
      }
      if db.transactions && (err || (!db.reliable && !committed)) {
        upfs := before;
        err := true;
      }
    }
  }

  lemma ListedAreOk(env: Env, slices: seq<Slice>, filter: Slice -> bool, change: Slice -> Slice, order: seq<Slice>)
    requires AllOk(env, slices, filter, change) && multiset(order) == multiset(Select(slices, filter))
    ensures forall k :: 0 <= k < |order| ==> SliceOk(env, change(order[k]))
  {
    hide SliceOk;
    SelectMembers(slices, filter);
    forall k | 0 <= k < |order| ensures SliceOk(env, change(order[k])) {
      assert order[k] in multiset(Select(slices, filter));
    }
  }

  lemma NothingStopped(st: Stored, f: Unread, filter: Slice -> bool, change: Slice -> Slice)
    ensures StoppedAfter(st, f, false, filter, change, Select(st.slices, filter), 0, st.slices)
  {
  }

  lemma Unchanged(slices: seq<Slice>, filter: Slice -> bool, change: Slice -> Slice)
    ensures Between(slices, slices, filter, change)
  {
  }

  ghost predicate GnbStored(before: seq<InventoryGnb>, name: string, op: Operation<int32>, after: seq<InventoryGnb>) {
    match op
    case Put(tac) => PostResult(before, GnbRecord(name), Becomes(InventoryGnb(name, tac)), InventoryGnb(name, tac), after)
    case Delete => after == Select(before, Not(GnbRecord(name)))
  }

  ghost predicate UpfStored(before: seq<InventoryUpf>, hostname: string, op: Operation<string>, after: seq<InventoryUpf>) {
    match op
    case Put(port) => PostResult(before, UpfRecord(hostname), Becomes(InventoryUpf(hostname, port)), InventoryUpf(hostname, port), after)
    case Delete => after == Select(before, Not(UpfRecord(hostname)))
  }

  /** After a PUT the inventory holds the name with exactly the new value, after a DELETE not at all;
      every other entry is as before. */
  lemma GnbInventoryHolds(before: seq<InventoryGnb>, name: string, op: Operation<int32>, after: seq<InventoryGnb>, g: InventoryGnb)
    requires UniqueNames(before, GnbName) && GnbStored(before, name, op, after)
    ensures g in after <==> if g.name == name then op == Put(g.tac) else g in before
  {
    match op
    case Put(tac) => PutHolds(before, GnbName, GnbRecord(name), InventoryGnb(name, tac), after, g);
    case Delete => SelectMembers(before, Not(GnbRecord(name)));
  }

  lemma UpfInventoryHolds(before: seq<InventoryUpf>, hostname: string, op: Operation<string>, after: seq<InventoryUpf>, u: InventoryUpf)
    requires UniqueNames(before, Hostname) && UpfStored(before, hostname, op, after)
    ensures u in after <==> if u.hostname == hostname then op == Put(u.port) else u in before
  {
    match op
    case Put(port) => PutHolds(before, Hostname, UpfRecord(hostname), InventoryUpf(hostname, port), after, u);
    case Delete => SelectMembers(before, Not(UpfRecord(hostname)));
  }

  lemma PutHolds<D>(before: seq<D>, name: D -> string, filter: D -> bool, d: D, after: seq<D>, x: D)
    requires UniqueNames(before, name) && forall y :: y in before + [d, x] ==> (filter(y) <==> name(y) == name(d))
    requires PostResult(before, filter, Becomes(d), d, after)
    ensures x in after <==> if name(x) == name(d) then x == d else x in before
  {
    if Matches(before, filter) {
      var i :| 0 <= i < |before| && filter(before[i]) && after == before[i := Becomes(d)(before[i])];
      assert before[i] in before && after[i] == d;
      if x in before && name(x) != name(d) {
        var k :| 0 <= k < |before| && before[k] == x;
        assert after[k] == x;
      }
      if x in after && x != d {
        var k :| 0 <= k < |after| && after[k] == x;
        assert before[k] in before && before[k] == x;
      }
    } else {
      forall y | y in before ensures name(y) != name(d) {
        var k :| 0 <= k < |before| && before[k] == y;
        assert !filter(before[k]);
      }
    }
  }

  // ---------- what propagation means ----------

  /** After a gNB PUT every entry of that name in every slice has the new TAC; every other entry,
      every other field and every other slice is as before. */
  lemma TacPropagates(before: seq<Slice>, after: seq<Slice>, name: string, tac: int32, i: nat)
    requires after == Map(Changed(HasGnb(name), GnbChange(name, Put(tac))), before) && i < |before|
    ensures |after| == |before| && after[i] == before[i].(gnbs := after[i].gnbs) && |after[i].gnbs| == |before[i].gnbs|
    ensures forall j :: 0 <= j < |before[i].gnbs| ==>
                          after[i].gnbs[j] == Gnb(before[i].gnbs[j].name, if before[i].gnbs[j].name == name then tac else before[i].gnbs[j].tac)
    ensures (forall g :: g in before[i].gnbs ==> g.name != name) ==> after[i] == before[i]
  {
    if !HasGnb(name)(before[i]) {
      forall j | 0 <= j < |before[i].gnbs| ensures before[i].gnbs[j].name != name {
        assert !GnbNamed(name)(before[i].gnbs[j]);
      }
    } else {
      var j :| 0 <= j < |before[i].gnbs| && GnbNamed(name)(before[i].gnbs[j]);
      assert before[i].gnbs[j] in before[i].gnbs;
    }
  }

  /** After a gNB DELETE no slice has an entry of that name; the other entries keep their order. */
  lemma GnbDisappears(before: seq<Slice>, after: seq<Slice>, name: string, i: nat) returns (at: seq<nat>)
    requires after == Map(Changed(HasGnb(name), GnbChange(name, Delete)), before) && i < |before|
    ensures |after| == |before| && after[i] == before[i].(gnbs := after[i].gnbs)
    ensures forall g :: g in after[i].gnbs ==> g.name != name
    ensures KeptAt(before[i].gnbs, Not(GnbNamed(name)), after[i].gnbs, at)
  {
    SelectMembers(before[i].gnbs, Not(GnbNamed(name)));
    at := SelectPositions(before[i].gnbs, Not(GnbNamed(name)));
    if !HasGnb(name)(before[i]) { SelectAll(before[i].gnbs, GnbNamed(name)); }
  }

  /** After a UPF PUT every slice that named the host has exactly its name and port, and after a
      DELETE it has no UPF; every other field and every other slice is as before. */
  lemma UpfPropagates(before: seq<Slice>, after: seq<Slice>, hostname: string, op: Operation<string>, i: nat)
    requires after == Map(Changed(HasUpf(hostname), UpfChange(hostname, op)), before) && i < |before|
    ensures |after| == |before| && after[i] == before[i].(upf := after[i].upf)
    ensures after[i].upf ==
            if before[i].upf.Some? && "upf-name" in before[i].upf.value && before[i].upf.value["upf-name"] == Text(hostname)
            then (if op.Put? then Some(map["upf-name" := Text(hostname), "upf-port" := Text(op.value)]) else None)
            else before[i].upf
  {
  }

  // ---------- what a failure leaves ----------

  /** A failed run has left the slices as they were if and only if none was stored, or each one
      stored had nothing to change. */
  lemma StoppedUnchangedIff(st: Stored, f: Unread, reliable: bool, filter: Slice -> bool, change: Slice -> Slice,
                            order: seq<Slice>, n: nat, slices: seq<Slice>)
    requires StoppedAfter(st, f, reliable, filter, change, order, n, slices)
    ensures slices == st.slices <==> n == 0 || forall k :: 0 <= k < n ==> change(order[k]) == order[k]
  {
    hide SliceOk;
    SelectMembers(st.slices, filter);
    forall k | 0 <= k < n ensures order[k] in st.slices && order[k] in order[..n] {
      assert order[k] in multiset(Select(st.slices, filter));
    }
    if slices == st.slices {
      forall k | 0 <= k < n ensures change(order[k]) == order[k] {
        var i :| 0 <= i < |st.slices| && st.slices[i] == order[k];
      }
    }
    if forall k :: 0 <= k < n ==> change(order[k]) == order[k] {
      forall i | 0 <= i < |slices| ensures slices[i] == st.slices[i] {
        if st.slices[i] in order[..n] { var k :| 0 <= k < n && order[k] == st.slices[i]; }
      }
    }
  }

  /** A gNB PUT has nothing to change exactly in a slice whose entries of that name have the TAC
      already; a DELETE always has. */
  lemma GnbNothingToChangeIff(s: Slice, name: string, op: Operation<int32>)
    requires HasGnb(name)(s)
    ensures GnbChange(name, op)(s) == s <==> op.Put? && forall g :: g in s.gnbs && g.name == name ==> g.tac == op.value
  {
    var j :| 0 <= j < |s.gnbs| && GnbNamed(name)(s.gnbs[j]);
    match op
    case Put(tac) =>
      var after := Map(Changed(GnbNamed(name), SetTac(tac)), s.gnbs);
      if after == s.gnbs {
        forall g | g in s.gnbs && g.name == name ensures g.tac == tac {
          var i :| 0 <= i < |s.gnbs| && s.gnbs[i] == g;
          assert after[i] == g;
        }
      } else {
        var i :| 0 <= i < |s.gnbs| && after[i] != s.gnbs[i];
        assert s.gnbs[i] in s.gnbs;
      }
    case Delete =>
      SelectMembers(s.gnbs, Not(GnbNamed(name)));
      assert s.gnbs[j] !in Select(s.gnbs, Not(GnbNamed(name)));
  }

  /** A UPF PUT has nothing to change exactly in a slice that has its name and port and nothing
      more; a DELETE always has. */
  lemma UpfNothingToChangeIff(s: Slice, hostname: string, op: Operation<string>)
    requires HasUpf(hostname)(s)
    ensures UpfChange(hostname, op)(s) == s
       <==> op.Put? && s.upf.value.Keys == {UPF_NAME, UPF_PORT} && s.upf.value[UPF_PORT] == Text(op.value)
  {
    assert UPF_NAME[4] != UPF_PORT[4];
    if op.Put? && s.upf.value.Keys == {UPF_NAME, UPF_PORT} && s.upf.value[UPF_PORT] == Text(op.value) {
      assert s.upf.value == map[UPF_NAME := Text(hostname), UPF_PORT := Text(op.value)];
    }
  }

  const GOOD_SLICE := Slice("a", SliceId("1", ""), [], "", Plmn("1", "1"), [Gnb("gnb", 1)], None, [])
  const BAD_SLICE := Slice("b", SliceId("x", ""), [], "", Plmn("1", "1"), [Gnb("gnb", 1)], None, [])
  const TWO_SLICES := Stored({}, map[], [], [GOOD_SLICE, BAD_SLICE])

  lemma TwoSlicesMatch()
    ensures Select(TWO_SLICES.slices, HasGnb("gnb")) == TWO_SLICES.slices
  {
    var slices := TWO_SLICES.slices;
    assert GnbNamed("gnb")(GOOD_SLICE.gnbs[0]) && GnbNamed("gnb")(BAD_SLICE.gnbs[0]);
    assert HasGnb("gnb")(GOOD_SLICE) && HasGnb("gnb")(BAD_SLICE);
    assert slices[..1] == [GOOD_SLICE] && [GOOD_SLICE][..0] == [];
    assert Select([GOOD_SLICE], HasGnb("gnb")) == [GOOD_SLICE];
  }

  lemma TwoSlicesChange(s: Slice)
    requires s in TWO_SLICES.slices
    ensures GnbChange("gnb", Put(2))(s) != s
  {
    var after := GnbChange("gnb", Put(2))(s).gnbs;
    assert after[0].tac == 2 != s.gnbs[0].tac;
  }

  lemma SecondFails()
    ensures SliceOk(EnvOf(TWO_SLICES, AllRead), GnbChange("gnb", Put(2))(GOOD_SLICE))
    ensures !SliceOk(EnvOf(TWO_SLICES, AllRead), GnbChange("gnb", Put(2))(BAD_SLICE))
  {
    ProvisioningTheorems.CounterTarget(GnbChange("gnb", Put(2))(GOOD_SLICE));
    assert "x"[0] in "x" && !Views.AllDigits("x");
  }

  lemma NeverUnchanged(order: seq<Slice>, n: nat, slices: seq<Slice>)
    requires StoppedAfter(TWO_SLICES, AllRead, true, HasGnb("gnb"), GnbChange("gnb", Put(2)), order, n, slices)
    ensures slices != TWO_SLICES.slices
  {
    hide SliceOk;
    StoppedUnchangedIff(TWO_SLICES, AllRead, true, HasGnb("gnb"), GnbChange("gnb", Put(2)), order, n, slices);
    TwoSlicesMatch();
    assert order[0] in multiset(TWO_SLICES.slices);
    TwoSlicesChange(order[0]);
  }

  lemma SecondWriteFails()
    ensures var change, st := GnbChange("gnb", Put(2)), TWO_SLICES;
      StoppedAfter(st, AllRead, false, HasGnb("gnb"), change, st.slices, 1, [change(GOOD_SLICE), BAD_SLICE])
  {
    hide SliceOk, GnbChange, HasGnb, Select;
    TwoSlicesMatch();
    assert TWO_SLICES.slices[..1] == [GOOD_SLICE];
  }

  lemma SecondIsRefused()
    ensures var change, st := GnbChange("gnb", Put(2)), TWO_SLICES;
      StoppedAfter(st, AllRead, true, HasGnb("gnb"), change, st.slices, 2, [change(GOOD_SLICE), change(BAD_SLICE)])
  {
    hide SliceOk, GnbChange, HasGnb, Select;
    TwoSlicesMatch();
    SecondFails();
    assert TWO_SLICES.slices[..2] == TWO_SLICES.slices;
  }

  /** A gNB PUT over two slices that have the gNB, found in this order, the second with an SST that
      does not parse. If the write of the second fails, only the first is changed; if no write
      fails, both are changed and the second is refused. Either way the request fails, and a
      reliable store never ends with the slices as they were, whatever order they are found in. */
  lemma FailedPutChangesSlices()
    ensures var change, st := GnbChange("gnb", Put(2)), TWO_SLICES;
      && change(GOOD_SLICE) != GOOD_SLICE && change(BAD_SLICE) != BAD_SLICE
      && StoppedAfter(st, AllRead, false, HasGnb("gnb"), change, st.slices, 1, [change(GOOD_SLICE), BAD_SLICE])
      && StoppedAfter(st, AllRead, true, HasGnb("gnb"), change, st.slices, 2, [change(GOOD_SLICE), change(BAD_SLICE)])
      && forall order, n, slices :: StoppedAfter(st, AllRead, true, HasGnb("gnb"), change, order, n, slices) ==> slices != st.slices
  {
    hide SliceOk, GnbChange, HasGnb, StoppedAfter;
    var change, st := GnbChange("gnb", Put(2)), TWO_SLICES;
    TwoSlicesChange(GOOD_SLICE);
    TwoSlicesChange(BAD_SLICE);
    SecondWriteFails();
    SecondIsRefused();
    forall order, n, slices | StoppedAfter(st, AllRead, true, HasGnb("gnb"), change, order, n, slices) ensures slices != st.slices {
      NeverUnchanged(order, n, slices);
    }
  }
}
