/** The five provisioned collections as documents, the shape every run gives the AM documents,
    and what one upsert or delete means for the per-subscriber records. */
module Documents {
  import opened Prelude
  import opened Models
  import opened DbAdapter
  import opened Provisioning

  datatype UeDoc<D> = UeDoc(ueId: string, data: D)
  datatype PlmnDoc<D> = PlmnDoc(ueId: string, plmn: string, data: D)

  /** Subscriber creation writes an AM document with neither PLMN nor data. */
  datatype AmDoc = AmDoc(ueId: string, plmn: Option<string>, data: Option<AmData>)

  /** An AM policy document is its ueId; the rest of it never varies. */
  datatype Tables = Tables(
    amPolicy: seq<string>, smPolicy: seq<UeDoc<SmPolicy>>, am: seq<AmDoc>,
    sm: seq<PlmnDoc<SmData>>, smf: seq<PlmnDoc<SmfSelection>>)

  // ---------- filters and patches ----------

  function Named(u: string): string -> bool { d => d == u }
  function OfUe<D>(u: string): UeDoc<D> -> bool { (d: UeDoc<D>) => d.ueId == u }
  function OfUePlmn<D>(u: string, plmn: string): PlmnDoc<D> -> bool { (d: PlmnDoc<D>) => d.ueId == u && d.plmn == plmn }
  function AmOfUe(u: string): AmDoc -> bool { (d: AmDoc) => d.ueId == u }
  function AmOfUePlmn(u: string, plmn: string): AmDoc -> bool { (d: AmDoc) => d.ueId == u && d.plmn == Some(plmn) }

  /** The $or filter: this PLMN, or no PLMN at all. */
  function AmReusable(u: string, plmn: string): AmDoc -> bool {
    (d: AmDoc) => d.ueId == u && (d.plmn == Some(plmn) || d.plmn.None?)
  }

  function Same<D>(d: D): D { d }

  /** The $set of AM data: without a new GPSI the stored ones stay. */
  function AmPatch(u: string, x: Payload): AmDoc -> AmDoc {
    (d: AmDoc) => AmDoc(u, Some(x.plmn), Some(AmData(
      if x.gpsi != "" then [x.gpsi] else if d.data.Some? then d.data.value.gpsis else [],
      x.snssai, x.uplink, x.downlink)))
  }

  function NewAm(u: string, x: Payload): AmDoc { AmPatch(u, x)(AmDoc(u, None, None)) }

  // ---------- the AM documents of every run ----------

  /** The four ways requests write the AM collection: subscriber create or update, subscriber
      delete, provisioning and cleanup. */
  datatype AmWrite =
    | Touch(ueId: string)
    | Drop(ueId: string)
    | Post(ueId: string, payload: Payload)
    | Clean(ueId: string, plmn: string)

  ghost predicate AmNext(before: seq<AmDoc>, w: AmWrite, after: seq<AmDoc>) {
    match w
    case Touch(u) => PostResult(before, AmOfUe(u), Same, AmDoc(u, None, None), after)
    case Drop(u) => DeleteResult(before, AmOfUe(u), after)
    case Post(u, x) => PostResult(before, AmReusable(u, x.plmn), AmPatch(u, x), NewAm(u, x), after)
    case Clean(u, plmn) => DeleteResult(before, AmOfUePlmn(u, plmn), after)
  }

  /** Two documents of one subscriber carry different PLMNs. */
  ghost predicate AmDocsApart(docs: seq<AmDoc>) {
    forall i, j :: 0 <= i < j < |docs| && docs[i].ueId == docs[j].ueId ==>
                     docs[i].plmn.Some? && docs[j].plmn.Some? && docs[i].plmn != docs[j].plmn
  }

  ghost predicate AmRun(states: seq<seq<AmDoc>>, writes: seq<AmWrite>) {
    && |states| == |writes| + 1 && states[0] == []
    && forall i :: 0 <= i < |writes| ==> AmNext(states[i], writes[i], states[i + 1])
  }

  lemma ApartAfterRemoval(docs: seq<AmDoc>, i: nat)
    requires AmDocsApart(docs) && i < |docs|
    ensures AmDocsApart(WithoutAt(docs, i))
  {
    var after := WithoutAt(docs, i);
    forall j, k | 0 <= j < k < |after| && after[j].ueId == after[k].ueId
      ensures after[j].plmn.Some? && after[k].plmn.Some? && after[j].plmn != after[k].plmn
    {
      assert after[j] == docs[if j < i then j else j + 1] && after[k] == docs[if k < i then k else k + 1];
    }
  }

  lemma ApartAfterReuse(docs: seq<AmDoc>, u: string, x: Payload, i: nat)
    requires AmDocsApart(docs) && i < |docs| && AmReusable(u, x.plmn)(docs[i])
    ensures AmDocsApart(docs[i := AmPatch(u, x)(docs[i])])
  {
    var after := docs[i := AmPatch(u, x)(docs[i])];
    forall j, k | 0 <= j < k < |after| && after[j].ueId == after[k].ueId
      ensures after[j].plmn.Some? && after[k].plmn.Some? && after[j].plmn != after[k].plmn
    {
      assert docs[j].ueId == docs[k].ueId;
      var other := if j == i then k else j;
      if other != i && (j == i || k == i) {
        assert docs[i].plmn == Some(x.plmn) && docs[other].plmn != Some(x.plmn);
      }
    }
  }

  lemma AmStepApart(before: seq<AmDoc>, w: AmWrite, after: seq<AmDoc>)
    requires AmDocsApart(before) && AmNext(before, w, after)
    ensures AmDocsApart(after)
  {
    match w
    case Touch(u) =>
    case Drop(u) =>
      if Matches(before, AmOfUe(u)) {
        var i :| 0 <= i < |before| && AmOfUe(u)(before[i]) && after == WithoutAt(before, i);
        ApartAfterRemoval(before, i);
      }
    case Post(u, x) =>
      if Matches(before, AmReusable(u, x.plmn)) {
        var i :| 0 <= i < |before| && AmReusable(u, x.plmn)(before[i]) && after == before[i := AmPatch(u, x)(before[i])];
        ApartAfterReuse(before, u, x, i);
      } else {
        forall i | 0 <= i < |before| && before[i].ueId == u ensures before[i].plmn.Some? && before[i].plmn != Some(x.plmn) {
          assert !AmReusable(u, x.plmn)(before[i]);
        }
      }
    case Clean(u, plmn) =>
      if Matches(before, AmOfUePlmn(u, plmn)) {
        var i :| 0 <= i < |before| && AmOfUePlmn(u, plmn)(before[i]) && after == WithoutAt(before, i);
        ApartAfterRemoval(before, i);
      }
  }

  /** In every run of subscriber and provisioning requests, whichever matches the store picks,
      each subscriber has either a single AM document, without a PLMN, or only documents with
      PLMNs, all different; so the $or filter never sees a choice. */
  lemma {:induction false} EveryAmRun(states: seq<seq<AmDoc>>, writes: seq<AmWrite>, u: string)
    requires AmRun(states, writes)
    ensures var docs := states[|writes|];
      && AmDocsApart(docs)
      && ((exists i :: 0 <= i < |docs| && docs[i].ueId == u && docs[i].plmn.None? && forall j :: 0 <= j < |docs| && docs[j].ueId == u ==> j == i)
          || (forall i :: 0 <= i < |docs| && docs[i].ueId == u ==> docs[i].plmn.Some?))
      && forall plmn, i, j :: 0 <= i < |docs| && 0 <= j < |docs| && AmReusable(u, plmn)(docs[i]) && AmReusable(u, plmn)(docs[j]) ==> i == j
  {
    var n := |writes|;
    if n > 0 {
      assert AmRun(states[..n], writes[..n - 1]);
      EveryAmRun(states[..n], writes[..n - 1], u);
      AmStepApart(states[n - 1], writes[n - 1], states[n]);
    }
  }

  /** A subscriber that is created, provisioned and cleaned up has no AM document left. */
  lemma CleanupTakesTheLastDocument(u: string, x: Payload) returns (states: seq<seq<AmDoc>>)
    ensures AmRun(states, [Touch(u), Post(u, x), Clean(u, x.plmn)]) && states[3] == []
  {
    var basic, held := AmDoc(u, None, None), AmPatch(u, x)(AmDoc(u, None, None));
    states := [[], [basic], [held], []];
    assert AmReusable(u, x.plmn)([basic][0]) && [basic][0 := held] == [held];
    assert AmOfUePlmn(u, x.plmn)([held][0]) && WithoutAt([held], 0) == [];
    assert AmNext([], Touch(u), [basic]) && AmNext([basic], Post(u, x), [held]) && AmNext([held], Clean(u, x.plmn), []);
  }

  // ---------- documents as records ----------

  function UeKey<D>(d: UeDoc<D>): string { d.ueId }
  function UeVal<D>(d: UeDoc<D>): D { d.data }
  function PlmnKey<D>(d: PlmnDoc<D>): (string, string) { (d.ueId, d.plmn) }
  function PlmnVal<D>(d: PlmnDoc<D>): D { d.data }
  function AmKey(d: AmDoc): (string, Option<string>) { (d.ueId, d.plmn) }
  function AmVal(d: AmDoc): Option<AmData> { d.data }

  ghost function AmPolicyLook(p: Prov): string -> Option<string> { u => if Get(p, u).amPolicy then Some(u) else None }
  ghost function SmPolicyLook(p: Prov): string -> Option<SmPolicy> { u => Get(p, u).smPolicy }
  ghost function AmLook(p: Prov): ((string, Option<string>)) -> Option<Option<AmData>> {
    (k: (string, Option<string>)) => if k.1 in Get(p, k.0).am then Some(Get(p, k.0).am[k.1]) else None
  }
  ghost function SmLook(p: Prov): ((string, string)) -> Option<SmData> {
    (k: (string, string)) => if k.1 in Get(p, k.0).sm then Some(Get(p, k.0).sm[k.1]) else None
  }
  ghost function SmfLook(p: Prov): ((string, string)) -> Option<SmfSelection> {
    (k: (string, string)) => if k.1 in Get(p, k.0).smf then Some(Get(p, k.0).smf[k.1]) else None
  }

  ghost predicate AmPolicyHolds(docs: seq<string>, p: Prov) { Holds(docs, Same<string>, Same<string>, AmPolicyLook(p)) }
  ghost predicate SmPolicyHolds(docs: seq<UeDoc<SmPolicy>>, p: Prov) { Holds(docs, UeKey<SmPolicy>, UeVal<SmPolicy>, SmPolicyLook(p)) }
  ghost predicate AmHolds(docs: seq<AmDoc>, p: Prov) { Holds(docs, AmKey, AmVal, AmLook(p)) && AmDocsApart(docs) }
  ghost predicate SmHolds(docs: seq<PlmnDoc<SmData>>, p: Prov) { Holds(docs, PlmnKey<SmData>, PlmnVal<SmData>, SmLook(p)) }
  ghost predicate SmfHolds(docs: seq<PlmnDoc<SmfSelection>>, p: Prov) { Holds(docs, PlmnKey<SmfSelection>, PlmnVal<SmfSelection>, SmfLook(p)) }

  /** The documents are those of the records: at most one per key, and none besides. */
  ghost predicate Represents(t: Tables, p: Prov) {
    && AmPolicyHolds(t.amPolicy, p) && SmPolicyHolds(t.smPolicy, p) && AmHolds(t.am, p)
    && SmHolds(t.sm, p) && SmfHolds(t.smf, p)
  }

  lemma RecordsHaveAmShape(docs: seq<AmDoc>, p: Prov, u: string)
    requires AmHolds(docs, p)
    ensures AmShape(Get(p, u))
  {
    var am := Get(p, u).am;
    if None in am {
      forall k | k in am ensures k == None {
        assert AmLook(p)((u, None)).Some? && AmLook(p)((u, k)).Some?;
        assert HasKey(docs, AmKey, (u, None));
        var i :| 0 <= i < |docs| && AmKey(docs[i]) == (u, None);
        assert HasKey(docs, AmKey, (u, k));
        var j :| 0 <= j < |docs| && AmKey(docs[j]) == (u, k);
        assert i == j;
      }
    }
  }

  lemma UpdatedAt(p: Prov, u: string, ue: Ue)
    ensures forall v :: Get(p[u := ue], v) == if v == u then ue else Get(p, v)
  {
    forall v ensures Get(p[u := ue], v) == if v == u then ue else Get(p, v) {
    }
  }

  /** A table whose part of the records did not change still holds it. */
  lemma TablesKept(t: Tables, p: Prov, q: Prov)
    requires Represents(t, p)
    ensures (forall u :: Get(q, u).amPolicy == Get(p, u).amPolicy) ==> AmPolicyHolds(t.amPolicy, q)
    ensures (forall u :: Get(q, u).smPolicy == Get(p, u).smPolicy) ==> SmPolicyHolds(t.smPolicy, q)
    ensures (forall u :: Get(q, u).am == Get(p, u).am) ==> AmHolds(t.am, q)
    ensures (forall u :: Get(q, u).sm == Get(p, u).sm) ==> SmHolds(t.sm, q)
    ensures (forall u :: Get(q, u).smf == Get(p, u).smf) ==> SmfHolds(t.smf, q)
  {
    if forall u :: Get(q, u).amPolicy == Get(p, u).amPolicy {
      HoldsSame(t.amPolicy, Same<string>, Same<string>, AmPolicyLook(p), AmPolicyLook(q));
    }
    if forall u :: Get(q, u).smPolicy == Get(p, u).smPolicy {
      HoldsSame(t.smPolicy, UeKey<SmPolicy>, UeVal<SmPolicy>, SmPolicyLook(p), SmPolicyLook(q));
    }
    if forall u :: Get(q, u).am == Get(p, u).am { HoldsSame(t.am, AmKey, AmVal, AmLook(p), AmLook(q)); }
    if forall u :: Get(q, u).sm == Get(p, u).sm {
      HoldsSame(t.sm, PlmnKey<SmData>, PlmnVal<SmData>, SmLook(p), SmLook(q));
    }
    if forall u :: Get(q, u).smf == Get(p, u).smf {
      HoldsSame(t.smf, PlmnKey<SmfSelection>, PlmnVal<SmfSelection>, SmfLook(p), SmfLook(q));
    }
  }

  lemma AllButSmKept(t: Tables, p: Prov, u: string, sm: map<string, SmData>)
    requires Represents(t, p)
    ensures var q := p[u := Get(p, u).(sm := sm)];
      AmPolicyHolds(t.amPolicy, q) && SmPolicyHolds(t.smPolicy, q) && AmHolds(t.am, q) && SmfHolds(t.smf, q)
  {
    hide Holds, AmDocsApart, PostResult, DeleteResult;
    var q := p[u := Get(p, u).(sm := sm)];
    UpdatedAt(p, u, q[u]);
    TablesKept(t, p, q);
  }

  lemma AllButSmfKept(t: Tables, p: Prov, u: string, smf: map<string, SmfSelection>)
    requires Represents(t, p)
    ensures var q := p[u := Get(p, u).(smf := smf)];
      AmPolicyHolds(t.amPolicy, q) && SmPolicyHolds(t.smPolicy, q) && AmHolds(t.am, q) && SmHolds(t.sm, q)
  {
    hide Holds, AmDocsApart, PostResult, DeleteResult;
    var q := p[u := Get(p, u).(smf := smf)];
    UpdatedAt(p, u, q[u]);
    TablesKept(t, p, q);
  }

  lemma UePosted<D>(docs: seq<UeDoc<D>>, u: string, data: D, after: seq<UeDoc<D>>, look: string -> Option<D>, newLook: string -> Option<D>)
    requires Holds(docs, UeKey<D>, UeVal<D>, look) && ChangesTo(look, newLook, u, Some(data))
    requires PostResult(docs, OfUe(u), Becomes(UeDoc(u, data)), UeDoc(u, data), after)
    ensures Holds(after, UeKey<D>, UeVal<D>, newLook)
  {
    PostHolds(docs, after, OfUe(u), Becomes(UeDoc(u, data)), UeDoc(u, data), UeKey<D>, UeVal<D>, look, newLook);
  }

  lemma PlmnPosted<D>(docs: seq<PlmnDoc<D>>, u: string, plmn: string, data: D, after: seq<PlmnDoc<D>>,
                      look: ((string, string)) -> Option<D>, newLook: ((string, string)) -> Option<D>)
    requires Holds(docs, PlmnKey<D>, PlmnVal<D>, look) && ChangesTo(look, newLook, (u, plmn), Some(data))
    requires PostResult(docs, OfUePlmn(u, plmn), Becomes(PlmnDoc(u, plmn, data)), PlmnDoc(u, plmn, data), after)
    ensures Holds(after, PlmnKey<D>, PlmnVal<D>, newLook)
  {
    PostHolds(docs, after, OfUePlmn(u, plmn), Becomes(PlmnDoc(u, plmn, data)), PlmnDoc(u, plmn, data),
              PlmnKey<D>, PlmnVal<D>, look, newLook);
  }

  lemma AmPolicyPosted(t: Tables, p: Prov, u: string, after: seq<string>)
    requires Represents(t, p) && PostResult(t.amPolicy, Named(u), Same, u, after)
    ensures Represents(t.(amPolicy := after), p[u := Get(p, u).(amPolicy := true)])
  {
    hide Holds, AmDocsApart, PostResult, DeleteResult;
    var q := p[u := Get(p, u).(amPolicy := true)];
    UpdatedAt(p, u, q[u]);
    TablesKept(t, p, q);
    PostHolds(t.amPolicy, after, Named(u), Same, u, Same<string>, Same<string>, AmPolicyLook(p), AmPolicyLook(q));
  }

  lemma SmPolicyPosted(t: Tables, p: Prov, u: string, data: SmPolicy, after: seq<UeDoc<SmPolicy>>)
    requires Represents(t, p) && PostResult(t.smPolicy, OfUe(u), Becomes(UeDoc(u, data)), UeDoc(u, data), after)
    ensures Represents(t.(smPolicy := after), p[u := Get(p, u).(smPolicy := Some(data))])
  {
    hide Holds, AmDocsApart, PostResult, DeleteResult;
    var q := p[u := Get(p, u).(smPolicy := Some(data))];
    UpdatedAt(p, u, q[u]);
    TablesKept(t, p, q);
    UePosted(t.smPolicy, u, data, after, SmPolicyLook(p), SmPolicyLook(q));
  }

  lemma SmPosted(t: Tables, p: Prov, u: string, plmn: string, data: SmData, after: seq<PlmnDoc<SmData>>)
    requires Represents(t, p)
    requires PostResult(t.sm, OfUePlmn(u, plmn), Becomes(PlmnDoc(u, plmn, data)), PlmnDoc(u, plmn, data), after)
    ensures Represents(t.(sm := after), p[u := Get(p, u).(sm := Get(p, u).sm[plmn := data])])
  {
    var q := p[u := Get(p, u).(sm := Get(p, u).sm[plmn := data])];
    AllButSmKept(t, p, u, Get(p, u).sm[plmn := data]);
    SmPostedHolds(t.sm, p, q, u, plmn, data, after);
  }

  lemma SmPostedHolds(docs: seq<PlmnDoc<SmData>>, p: Prov, q: Prov, u: string, plmn: string, data: SmData, after: seq<PlmnDoc<SmData>>)
    requires SmHolds(docs, p) && q == p[u := Get(p, u).(sm := Get(p, u).sm[plmn := data])]
    requires PostResult(docs, OfUePlmn(u, plmn), Becomes(PlmnDoc(u, plmn, data)), PlmnDoc(u, plmn, data), after)
    ensures SmHolds(after, q)
  {
    UpdatedAt(p, u, q[u]);
    PlmnPosted(docs, u, plmn, data, after, SmLook(p), SmLook(q));
  }

  lemma SmfPosted(t: Tables, p: Prov, u: string, plmn: string, data: SmfSelection, after: seq<PlmnDoc<SmfSelection>>)
    requires Represents(t, p)
    requires PostResult(t.smf, OfUePlmn(u, plmn), Becomes(PlmnDoc(u, plmn, data)), PlmnDoc(u, plmn, data), after)
    ensures Represents(t.(smf := after), p[u := Get(p, u).(smf := Get(p, u).smf[plmn := data])])
  {
    var q := p[u := Get(p, u).(smf := Get(p, u).smf[plmn := data])];
    AllButSmfKept(t, p, u, Get(p, u).smf[plmn := data]);
    SmfPostedHolds(t.smf, p, q, u, plmn, data, after);
  }

  lemma SmfPostedHolds(docs: seq<PlmnDoc<SmfSelection>>, p: Prov, q: Prov, u: string, plmn: string,
                       data: SmfSelection, after: seq<PlmnDoc<SmfSelection>>)
    requires SmfHolds(docs, p) && q == p[u := Get(p, u).(smf := Get(p, u).smf[plmn := data])]
    requires PostResult(docs, OfUePlmn(u, plmn), Becomes(PlmnDoc(u, plmn, data)), PlmnDoc(u, plmn, data), after)
    ensures SmfHolds(after, q)
  {
    UpdatedAt(p, u, q[u]);
    PlmnPosted(docs, u, plmn, data, after, SmfLook(p), SmfLook(q));
  }

  lemma AmPostedHolds(docs: seq<AmDoc>, p: Prov, q: Prov, u: string, x: Payload, after: seq<AmDoc>)
    requires AmHolds(docs, p) && AmNext(docs, Post(u, x), after)
    requires q == p[u := Get(p, u).(am := AmPosted(Get(p, u).am, x))]
    ensures AmHolds(after, q)
  {
    RecordsHaveAmShape(docs, p, u);
    AmStepApart(docs, Post(u, x), after);
    UpdatedAt(p, u, q[u]);
    if Matches(docs, AmReusable(u, x.plmn)) {
      var i :| 0 <= i < |docs| && AmReusable(u, x.plmn)(docs[i]) && after == docs[i := AmPatch(u, x)(docs[i])];
      AmReuseHolds(docs, p, q, u, x, i);
    } else {
      var k := (u, Some(x.plmn));
      NotReusable(docs, p, u, x.plmn);
      InsertHolds(docs, NewAm(u, x), AmKey, AmVal, AmLook(p), AmLook(q));
    }
  }

  lemma NotReusable(docs: seq<AmDoc>, p: Prov, u: string, plmn: string)
    requires AmHolds(docs, p) && !Matches(docs, AmReusable(u, plmn))
    ensures None !in Get(p, u).am && Some(plmn) !in Get(p, u).am
  {
    forall i | 0 <= i < |docs| ensures AmKey(docs[i]) != (u, None) && AmKey(docs[i]) != (u, Some(plmn)) {
      assert !AmReusable(u, plmn)(docs[i]);
    }
    assert !HasKey(docs, AmKey, (u, None)) && !HasKey(docs, AmKey, (u, Some(plmn)));
    assert AmLook(p)((u, None)).None? && AmLook(p)((u, Some(plmn))).None?;
  }

  lemma AmReuseHolds(docs: seq<AmDoc>, p: Prov, q: Prov, u: string, x: Payload, i: nat)
    requires AmHolds(docs, p) && AmShape(Get(p, u))
    requires i < |docs| && AmReusable(u, x.plmn)(docs[i])
    requires q == p[u := Get(p, u).(am := AmPosted(Get(p, u).am, x))]
    ensures Holds(docs[i := AmPatch(u, x)(docs[i])], AmKey, AmVal, AmLook(q))
  {
    var am := Get(p, u).am;
    var d := AmPatch(u, x)(docs[i]);
    assert AmLook(p)(AmKey(docs[i])) == Some(docs[i].data);
    if docs[i].plmn.None? {
      assert Some(x.plmn) !in am;
      RekeyHolds(docs, i, d, AmKey, AmVal, AmLook(p), AmLook(q));
    } else {
      assert None !in am;
      ReplaceHolds(docs, i, d, AmKey, AmVal, AmLook(p), AmLook(q));
    }
  }

  lemma AmDataPosted(t: Tables, p: Prov, u: string, x: Payload, after: seq<AmDoc>)
    requires Represents(t, p) && AmNext(t.am, Post(u, x), after)
    ensures Represents(t.(am := after), p[u := Get(p, u).(am := AmPosted(Get(p, u).am, x))])
  {
    hide Holds, AmDocsApart, PostResult, DeleteResult;
    var ue := Get(p, u).(am := AmPosted(Get(p, u).am, x));
    UpdatedAt(p, u, ue);
    TablesKept(t, p, p[u := ue]);
    AmPostedHolds(t.am, p, p[u := ue], u, x, after);
  }

  // ---------- deleting one document ----------

  lemma AmPolicyDeleted(t: Tables, p: Prov, u: string, after: seq<string>)
    requires Represents(t, p) && DeleteResult(t.amPolicy, Named(u), after)
    ensures Represents(t.(amPolicy := after), p[u := Get(p, u).(amPolicy := false)])
    ensures after == Select(t.amPolicy, Not(Named(u)))
  {
    hide Holds, AmDocsApart, PostResult, DeleteResult;
    var q := p[u := Get(p, u).(amPolicy := false)];
    UpdatedAt(p, u, q[u]);
    TablesKept(t, p, q);
    AmPolicyDeletedHolds(t.amPolicy, p, q, u, after);
  }

  lemma AmPolicyDeletedHolds(docs: seq<string>, p: Prov, q: Prov, u: string, after: seq<string>)
    requires AmPolicyHolds(docs, p) && q == p[u := Get(p, u).(amPolicy := false)]
    requires DeleteResult(docs, Named(u), after)
    ensures AmPolicyHolds(after, q) && after == Select(docs, Not(Named(u)))
  {
    UpdatedAt(p, u, q[u]);
    DeleteHolds(docs, after, Named(u), u, Same<string>, Same<string>, AmPolicyLook(p), AmPolicyLook(q));
  }

  lemma SmPolicyDeleted(t: Tables, p: Prov, u: string, after: seq<UeDoc<SmPolicy>>)
    requires Represents(t, p) && DeleteResult(t.smPolicy, OfUe(u), after)
    ensures Represents(t.(smPolicy := after), p[u := Get(p, u).(smPolicy := None)])
    ensures after == Select(t.smPolicy, Not(OfUe(u)))
  {
    hide Holds, AmDocsApart, PostResult, DeleteResult;
    var q := p[u := Get(p, u).(smPolicy := None)];
    UpdatedAt(p, u, q[u]);
    TablesKept(t, p, q);
    SmPolicyDeletedHolds(t.smPolicy, p, q, u, after);
  }

  lemma SmPolicyDeletedHolds(docs: seq<UeDoc<SmPolicy>>, p: Prov, q: Prov, u: string, after: seq<UeDoc<SmPolicy>>)
    requires SmPolicyHolds(docs, p) && q == p[u := Get(p, u).(smPolicy := None)]
    requires DeleteResult(docs, OfUe(u), after)
    ensures SmPolicyHolds(after, q) && after == Select(docs, Not(OfUe(u)))
  {
    UpdatedAt(p, u, q[u]);
    DeleteHolds(docs, after, OfUe(u), u, UeKey<SmPolicy>, UeVal<SmPolicy>, SmPolicyLook(p), SmPolicyLook(q));
  }

  lemma AmDeleted(t: Tables, p: Prov, u: string, plmn: string, after: seq<AmDoc>)
    requires Represents(t, p) && AmNext(t.am, Clean(u, plmn), after)
    ensures Represents(t.(am := after), p[u := Get(p, u).(am := Get(p, u).am - {Some(plmn)})])
    ensures after == Select(t.am, Not(AmOfUePlmn(u, plmn)))
  {
    hide Holds, AmDocsApart, PostResult, DeleteResult;
    var q := p[u := Get(p, u).(am := Get(p, u).am - {Some(plmn)})];
    UpdatedAt(p, u, q[u]);
    TablesKept(t, p, q);
    AmStepApart(t.am, Clean(u, plmn), after);
    AmDeletedHolds(t.am, p, q, u, plmn, after);
  }

  lemma AmDeletedHolds(docs: seq<AmDoc>, p: Prov, q: Prov, u: string, plmn: string, after: seq<AmDoc>)
    requires AmHolds(docs, p) && AmNext(docs, Clean(u, plmn), after)
    requires q == p[u := Get(p, u).(am := Get(p, u).am - {Some(plmn)})]
    ensures Holds(after, AmKey, AmVal, AmLook(q)) && after == Select(docs, Not(AmOfUePlmn(u, plmn)))
  {
    UpdatedAt(p, u, q[u]);
    DeleteHolds(docs, after, AmOfUePlmn(u, plmn), (u, Some(plmn)), AmKey, AmVal, AmLook(p), AmLook(q));
  }

  lemma PlmnDeleted<D>(docs: seq<PlmnDoc<D>>, u: string, plmn: string, after: seq<PlmnDoc<D>>,
                       look: ((string, string)) -> Option<D>, newLook: ((string, string)) -> Option<D>)
    requires Holds(docs, PlmnKey<D>, PlmnVal<D>, look) && ChangesTo(look, newLook, (u, plmn), None)
    requires DeleteResult(docs, OfUePlmn(u, plmn), after)
    ensures Holds(after, PlmnKey<D>, PlmnVal<D>, newLook) && after == Select(docs, Not(OfUePlmn(u, plmn)))
  {
    DeleteHolds(docs, after, OfUePlmn(u, plmn), (u, plmn), PlmnKey<D>, PlmnVal<D>, look, newLook);
  }

  lemma SmDeleted(t: Tables, p: Prov, u: string, plmn: string, after: seq<PlmnDoc<SmData>>)
    requires Represents(t, p) && DeleteResult(t.sm, OfUePlmn(u, plmn), after)
    ensures Represents(t.(sm := after), p[u := Get(p, u).(sm := Get(p, u).sm - {plmn})])
    ensures after == Select(t.sm, Not(OfUePlmn(u, plmn)))
  {
    var q := p[u := Get(p, u).(sm := Get(p, u).sm - {plmn})];
    AllButSmKept(t, p, u, Get(p, u).sm - {plmn});
    SmDeletedHolds(t.sm, p, q, u, plmn, after);
  }

  lemma SmDeletedHolds(docs: seq<PlmnDoc<SmData>>, p: Prov, q: Prov, u: string, plmn: string, after: seq<PlmnDoc<SmData>>)
    requires SmHolds(docs, p) && q == p[u := Get(p, u).(sm := Get(p, u).sm - {plmn})]
    requires DeleteResult(docs, OfUePlmn(u, plmn), after)
    ensures SmHolds(after, q) && after == Select(docs, Not(OfUePlmn(u, plmn)))
  {
    UpdatedAt(p, u, q[u]);
    PlmnDeleted(docs, u, plmn, after, SmLook(p), SmLook(q));
  }

  lemma SmfDeleted(t: Tables, p: Prov, u: string, plmn: string, after: seq<PlmnDoc<SmfSelection>>)
    requires Represents(t, p) && DeleteResult(t.smf, OfUePlmn(u, plmn), after)
    ensures Represents(t.(smf := after), p[u := Get(p, u).(smf := Get(p, u).smf - {plmn})])
    ensures after == Select(t.smf, Not(OfUePlmn(u, plmn)))
  {
    var q := p[u := Get(p, u).(smf := Get(p, u).smf - {plmn})];
    AllButSmfKept(t, p, u, Get(p, u).smf - {plmn});
    SmfDeletedHolds(t.smf, p, q, u, plmn, after);
  }

  lemma SmfDeletedHolds(docs: seq<PlmnDoc<SmfSelection>>, p: Prov, q: Prov, u: string, plmn: string, after: seq<PlmnDoc<SmfSelection>>)
    requires SmfHolds(docs, p) && q == p[u := Get(p, u).(smf := Get(p, u).smf - {plmn})]
    requires DeleteResult(docs, OfUePlmn(u, plmn), after)
    ensures SmfHolds(after, q) && after == Select(docs, Not(OfUePlmn(u, plmn)))
  {
    UpdatedAt(p, u, q[u]);
    PlmnDeleted(docs, u, plmn, after, SmfLook(p), SmfLook(q));
  }

  // ---------- subscriber create, update and delete ----------

  /** A subscriber without any AM document gets the basic one; otherwise nothing changes. */
  function Touched(ue: Ue): Ue { if ue.am == map[] then ue.(am := map[None := None]) else ue }

  lemma AmTouched(t: Tables, p: Prov, u: string, after: seq<AmDoc>)
    requires Represents(t, p) && AmNext(t.am, Touch(u), after)
    ensures Represents(t.(am := after), p[u := Touched(Get(p, u))])
  {
    hide Holds, AmDocsApart, PostResult, DeleteResult;
    var q := p[u := Touched(Get(p, u))];
    UpdatedAt(p, u, q[u]);
    TablesKept(t, p, q);
    AmStepApart(t.am, Touch(u), after);
    AmTouchedHolds(t.am, p, q, u, after);
  }

  lemma AmTouchedHolds(docs: seq<AmDoc>, p: Prov, q: Prov, u: string, after: seq<AmDoc>)
    requires AmHolds(docs, p) && AmNext(docs, Touch(u), after) && q == p[u := Touched(Get(p, u))]
    ensures Holds(after, AmKey, AmVal, AmLook(q))
  {
    UpdatedAt(p, u, q[u]);
    if Matches(docs, AmOfUe(u)) {
      var i :| 0 <= i < |docs| && AmOfUe(u)(docs[i]) && after == docs[i := Same(docs[i])];
      assert after == docs;
      assert AmLook(p)(AmKey(docs[i])).Some?;
      assert q[u] == Get(p, u);
      HoldsSame(docs, AmKey, AmVal, AmLook(p), AmLook(q));
    } else {
      NoAmDocument(docs, p, u);
      InsertHolds(docs, AmDoc(u, None, None), AmKey, AmVal, AmLook(p), AmLook(q));
    }
  }

  lemma NoAmDocument(docs: seq<AmDoc>, p: Prov, u: string)
    requires AmHolds(docs, p) && !Matches(docs, AmOfUe(u))
    ensures Get(p, u).am == map[]
  {
    forall k ensures k !in Get(p, u).am {
      forall i | 0 <= i < |docs| ensures AmKey(docs[i]) != (u, k) {
        assert !AmOfUe(u)(docs[i]);
      }
      assert !HasKey(docs, AmKey, (u, k));
      assert AmLook(p)((u, k)).None?;
    }
  }

  /** Deleting any one AM document of the subscriber loses one of its keys. */
  ghost predicate Loses(ue: Ue, lost: set<Option<string>>) {
    lost <= ue.am.Keys && |lost| <= 1 && (lost == {} <==> ue.am == map[])
  }

  function WithoutAm(ue: Ue, lost: set<Option<string>>): Ue { ue.(am := ue.am - lost) }

  lemma AmDropped(t: Tables, p: Prov, u: string, after: seq<AmDoc>) returns (lost: set<Option<string>>)
    requires Represents(t, p) && AmNext(t.am, Drop(u), after)
    ensures Loses(Get(p, u), lost)
    ensures Represents(t.(am := after), p[u := WithoutAm(Get(p, u), lost)])
  {
    hide Holds, AmDocsApart, PostResult, DeleteResult;
    AmStepApart(t.am, Drop(u), after);
    lost := AmDroppedHolds(t.am, p, u, after);
    var q := p[u := Get(p, u).(am := Get(p, u).am - lost)];
    UpdatedAt(p, u, q[u]);
    TablesKept(t, p, q);
  }

  lemma AmDroppedHolds(docs: seq<AmDoc>, p: Prov, u: string, after: seq<AmDoc>) returns (lost: set<Option<string>>)
    requires AmHolds(docs, p) && AmNext(docs, Drop(u), after)
    ensures Loses(Get(p, u), lost)
    ensures Holds(after, AmKey, AmVal, AmLook(p[u := Get(p, u).(am := Get(p, u).am - lost)]))
  {
    if Matches(docs, AmOfUe(u)) {
      var i :| 0 <= i < |docs| && AmOfUe(u)(docs[i]) && after == WithoutAt(docs, i);
      lost := {docs[i].plmn};
      var q := p[u := Get(p, u).(am := Get(p, u).am - lost)];
      UpdatedAt(p, u, q[u]);
      assert AmLook(p)(AmKey(docs[i])).Some?;
      RemoveHolds(docs, i, AmKey, AmVal, AmLook(p), AmLook(q));
    } else {
      lost := {};
      NoAmDocument(docs, p, u);
      var q := p[u := Get(p, u).(am := Get(p, u).am - lost)];
      UpdatedAt(p, u, q[u]);
      HoldsSame(docs, AmKey, AmVal, AmLook(p), AmLook(q));
    }
  }

  lemma HasAmDocument(t: Tables, p: Prov, u: string)
    requires Represents(t, p)
    ensures (exists i :: 0 <= i < |t.am| && t.am[i].ueId == u) <==> Get(p, u).am != map[]
  {
    if Matches(t.am, AmOfUe(u)) {
      var i :| 0 <= i < |t.am| && AmOfUe(u)(t.am[i]);
      assert AmLook(p)(AmKey(t.am[i])).Some?;
    } else {
      NoAmDocument(t.am, p, u);
      assert forall i :: 0 <= i < |t.am| ==> !AmOfUe(u)(t.am[i]);
    }
  }
}
