/** When a view is determined by the stored configuration, and how the views agree. */
module ViewTheorems {
  import opened Prelude
  import opened Models
  import opened Views
  import Bitrate

  /** Same slices, whatever their order and repetition. */
  ghost predicate SameSlices(a: seq<Slice>, b: seq<Slice>) {
    forall s :: s in a <==> s in b
  }

  /** The same slices, each as often, in another order: another listing of one store. */
  ghost predicate Reordered(a: seq<Slice>, b: seq<Slice>) { multiset(a) == multiset(b) }

  lemma ReorderedSame(a: seq<Slice>, b: seq<Slice>)
    requires Reordered(a, b)
    ensures SameSlices(a, b)
  {
    forall s ensures s in a <==> s in b {
      assert s in a <==> s in multiset(a);
      assert s in b <==> s in multiset(b);
    }
  }

  // ---------- PLMN view ----------

  /** The slices do not hold two different PLMNs whose joined texts are equal. */
  ghost predicate KeysDistinguish(slices: seq<Slice>) {
    forall p, q :: p in PlmnsOf(slices) && q in PlmnsOf(slices) && PlmnKey(p) == PlmnKey(q) ==> p == q
  }

  ghost predicate DistinctKeys(ps: seq<Plmn>) {
    forall i, j :: 0 <= i < j < |ps| ==> PlmnKey(ps[i]) != PlmnKey(ps[j])
  }

  lemma {:induction false} FirstPlmnsFacts(slices: seq<Slice>)
    ensures forall p :: p in FirstPlmns(slices) ==> p in PlmnsOf(slices)
    ensures forall p :: p in PlmnsOf(slices) ==> HasKey(FirstPlmns(slices), PlmnKey(p))
    ensures DistinctKeys(FirstPlmns(slices))
  {
    if slices != [] {
      var front, s := slices[..|slices| - 1], slices[|slices| - 1];
      assert slices == front + [s];
      FirstPlmnsFacts(front);
      var kept, ps := FirstPlmns(front), FirstPlmns(slices);
      forall i, j | 0 <= i < j < |ps| ensures PlmnKey(ps[i]) != PlmnKey(ps[j]) {
        assert ps[i] == kept[i];
      }
      forall p | p in PlmnsOf(slices) ensures HasKey(ps, PlmnKey(p)) {
        if HasKey(kept, PlmnKey(p)) {
          var i :| 0 <= i < |kept| && PlmnKey(kept[i]) == PlmnKey(p);
          assert ps[i] == kept[i];
        } else {
          assert p == s.plmn && ps[|ps| - 1] == p;
        }
      }
    }
  }

  /** With distinguishing keys the view is the strictly sorted list of all PLMNs. */
  lemma PlmnViewIsAllPlmns(slices: seq<Slice>, view: seq<Plmn>)
    requires KeysDistinguish(slices) && IsPlmnView(slices, view)
    ensures StrictlySorted(PlmnLess, view)
    ensures forall p :: p in view <==> p in PlmnsOf(slices)
  {
    var ps := FirstPlmns(slices);
    FirstPlmnsFacts(slices);
    forall p | p in PlmnsOf(slices) ensures p in ps {
      var i :| 0 <= i < |ps| && PlmnKey(ps[i]) == PlmnKey(p);
      assert ps[i] in ps;
    }
    PlmnOrder();
    SortedDistinct(PlmnLess, ps, view, PlmnsOf(slices));
  }

  lemma FirstSliceKept(s: Slice, rest: seq<Slice>)
    ensures s.plmn in FirstPlmns([s] + rest)
  {
    var all := [s] + rest;
    if rest == [] {
      assert all[..|all| - 1] == [];
    } else {
      assert all[..|all| - 1] == [s] + rest[..|rest| - 1];
      FirstSliceKept(s, rest[..|rest| - 1]);
    }
  }

  /** The PLMN view is the same for every order of the slices if and only if no two of their
      PLMNs are confused by the "mcc:mnc" key. */
  lemma PlmnViewDeterminedIff(slices: seq<Slice>)
    ensures (forall t, v, w :: Reordered(slices, t) && IsPlmnView(slices, v) && IsPlmnView(t, w) ==> v == w)
       <==> KeysDistinguish(slices)
  {
    if KeysDistinguish(slices) {
      forall t, v, w | Reordered(slices, t) && IsPlmnView(slices, v) && IsPlmnView(t, w) ensures v == w {
        ReorderedSame(slices, t);
        PlmnViewDetermined(slices, t, v, w);
      }
    } else {
      var t1, w1, t2, w2 := ConfusedViews(slices);
      var v := InsertionSort(PlmnLess, FirstPlmns(slices));
      PlmnOrder();
      TotalIsWeak(PlmnLess);
      InsertionSortSorts(PlmnLess, FirstPlmns(slices));
      assert IsPlmnView(slices, v);
      assert v != w1 || v != w2;
    }
  }

  lemma PlmnViewDetermined(slices: seq<Slice>, t: seq<Slice>, v: seq<Plmn>, w: seq<Plmn>)
    requires KeysDistinguish(slices) && SameSlices(slices, t) && IsPlmnView(slices, v) && IsPlmnView(t, w)
    ensures v == w
  {
    assert PlmnsOf(slices) == PlmnsOf(t);
    PlmnViewIsAllPlmns(slices, v);
    PlmnViewIsAllPlmns(t, w);
    PlmnOrder();
    TotalIsWeak(PlmnLess);
    StrictlySortedUnique(PlmnLess, v, w);
  }

  /** Confused PLMNs: two orders of the slices, each publishing one of them only. */
  lemma ConfusedViews(slices: seq<Slice>) returns (t1: seq<Slice>, w1: seq<Plmn>, t2: seq<Slice>, w2: seq<Plmn>)
    requires !KeysDistinguish(slices)
    ensures Reordered(slices, t1) && IsPlmnView(t1, w1) && Reordered(slices, t2) && IsPlmnView(t2, w2) && w1 != w2
  {
    var p, q :| p in PlmnsOf(slices) && q in PlmnsOf(slices) && PlmnKey(p) == PlmnKey(q) && p != q;
    t1, w1 := ViewKeeping(slices, p);
    t2, w2 := ViewKeeping(slices, q);
    ViewKeepsOne(t1, w1, p, q);
  }

  /** Moving a slice to the front keeps its PLMN in the view. */
  lemma ViewKeeping(slices: seq<Slice>, p: Plmn) returns (t: seq<Slice>, w: seq<Plmn>)
    requires p in PlmnsOf(slices)
    ensures Reordered(slices, t) && IsPlmnView(t, w) && p in w
  {
    PlmnOrder();
    TotalIsWeak(PlmnLess);
    var s :| s in slices && s.plmn == p;
    var i :| 0 <= i < |slices| && slices[i] == s;
    var rest := slices[..i] + slices[i + 1..];
    t := [s] + rest;
    WithoutMultiset(slices, i);
    FirstSliceKept(s, rest);
    w := InsertionSort(PlmnLess, FirstPlmns(t));
    InsertionSortSorts(PlmnLess, FirstPlmns(t));
    SortOfMembers(PlmnLess, FirstPlmns(t), w);
  }

  lemma ViewKeepsOne(t: seq<Slice>, w: seq<Plmn>, p: Plmn, q: Plmn)
    requires IsPlmnView(t, w) && p in w && PlmnKey(p) == PlmnKey(q) && p != q
    ensures q !in w
  {
    FirstPlmnsFacts(t);
    SortOfMembers(PlmnLess, FirstPlmns(t), w);
    var ps := FirstPlmns(t);
    var i :| 0 <= i < |ps| && ps[i] == p;
    forall j | 0 <= j < |ps| ensures ps[j] != q {
      assert i < j ==> PlmnKey(ps[i]) != PlmnKey(ps[j]);
      assert j < i ==> PlmnKey(ps[j]) != PlmnKey(ps[i]);
    }
  }

  /** No ':' in an MCC is enough. */
  lemma NoColonDistinguishes(slices: seq<Slice>)
    requires forall p :: p in PlmnsOf(slices) ==> ':' !in p.mcc
    ensures KeysDistinguish(slices)
  {
    forall p, q | p in PlmnsOf(slices) && q in PlmnsOf(slices) && PlmnKey(p) == PlmnKey(q) ensures p == q {
      MccLength(p.mcc, p.mnc, q.mcc, q.mnc);
      var k := PlmnKey(p);
      assert p.mcc == k[..|p.mcc|] && q.mcc == k[..|q.mcc|];
      assert p.mnc == k[|p.mcc| + 1..] && q.mnc == k[|q.mcc| + 1..];
    }
  }

  lemma {:induction false} MccLength(a: string, b: string, c: string, d: string)
    requires ':' !in a && ':' !in c && a + ":" + b == c + ":" + d
    ensures |a| == |c|
  {
    var k := a + ":" + b;
    assert k[|a|] == ':' && k[|c|] == ':';
    assert forall i :: 0 <= i < |a| ==> k[i] == a[i] && a[i] in a;
    assert forall i :: 0 <= i < |c| ==> k[i] == c[i] && c[i] in c;
  }

  lemma ConfusedPair(a: Slice, b: Slice)
    requires PlmnKey(a.plmn) == PlmnKey(b.plmn)
    ensures IsPlmnView([a, b], [a.plmn])
  {
    assert [a, b][..1] == [a] && [a][..0] == [];
    assert FirstPlmns([]) == [];
    assert FirstPlmns([a]) == [a.plmn];
    assert [a.plmn][0] == a.plmn;
    assert FirstPlmns([a, b]) == [a.plmn];
  }

  /** Two slices of one store whose PLMNs share the text "1:2:3": whichever is listed first keeps
      its PLMN, and the other one is not published. */
  lemma ColonConfuses(s: Slice, t: Slice) returns (a: Slice, b: Slice)
    requires s.name != t.name
    ensures a == s.(plmn := Plmn("1:2", "3")) && b == t.(plmn := Plmn("1", "2:3"))
    ensures Reordered([a, b], [b, a]) && !KeysDistinguish([a, b])
    ensures IsPlmnView([a, b], [a.plmn]) && IsPlmnView([b, a], [b.plmn]) && [a.plmn] != [b.plmn]
  {
    a, b := s.(plmn := Plmn("1:2", "3")), t.(plmn := Plmn("1", "2:3"));
    assert a in [a, b] && b in [a, b];
    assert PlmnKey(a.plmn) == "1:2:3" == PlmnKey(b.plmn);
    assert a.plmn.mcc != b.plmn.mcc by { assert |a.plmn.mcc| != |b.plmn.mcc|; }
    assert [a.plmn][0] != [b.plmn][0];
    ConfusedPair(a, b);
    ConfusedPair(b, a);
  }

  // ---------- PLMN / S-NSSAI view ----------

  lemma ListedSnssai(ids: set<SliceId>, list: seq<Snssai>, x: Snssai)
    requires ListsSnssais(ids, list)
    ensures x in list <==> exists id :: id in ids && ParseSnssai(id) == Some(x)
  {
    assert x in list <==> multiset(list)[x] > 0;
    if id :| id in ids && ParseSnssai(id) == Some(x) { assert id in Spellings(ids, x); }
    if Spellings(ids, x) != {} { var id :| id in Spellings(ids, x); }
  }

  lemma SnssaiEntryUnique(m: map<Plmn, set<SliceId>>, e: PlmnSnssai, f: PlmnSnssai)
    requires IsSnssaiEntry(m, e) && IsSnssaiEntry(m, f) && e.plmn == f.plmn
    ensures e == f
  {
    assert multiset(e.snssais) == multiset(f.snssais);
    SnssaiOrder();
    TotalSortUnique(SnssaiLess, e.snssais, e.snssais, f.snssais);
  }

  lemma SnssaiListingsIncluded(m: map<Plmn, set<SliceId>>, v: seq<PlmnSnssai>, w: seq<PlmnSnssai>, e: PlmnSnssai)
    requires IsSnssaiListing(m, v) && IsSnssaiListing(m, w) && e in v
    ensures e in w
  {
    ListedSnssai(m[e.plmn], e.snssais, e.snssais[0]);
    var id :| id in m[e.plmn] && ParseSnssai(id) == Some(e.snssais[0]);
    var f :| f in w && f.plmn == e.plmn;
    SnssaiEntryUnique(m, e, f);
  }

  lemma IdsOfSameSlices(a: seq<Slice>, b: seq<Slice>)
    requires SameSlices(a, b)
    ensures IdsByPlmn(a) == IdsByPlmn(b)
  {
    assert PlmnsOf(a) == PlmnsOf(b);
    var x, y := IdsByPlmn(a), IdsByPlmn(b);
    forall p | p in x ensures x[p] == y[p] {
      forall id ensures id in x[p] <==> id in y[p] {}
    }
  }

  /** The PLMN / S-NSSAI view depends on nothing but the set of slices. */
  lemma PlmnSnssaiViewDetermined(slices: seq<Slice>, t: seq<Slice>, v: seq<PlmnSnssai>, w: seq<PlmnSnssai>)
    requires SameSlices(slices, t) && IsPlmnSnssaiView(slices, v) && IsPlmnSnssaiView(t, w)
    ensures v == w
  {
    var m := IdsByPlmn(slices);
    assert PlmnsOf(slices) == PlmnsOf(t);
    IdsOfSameSlices(slices, t);
    forall e ensures e in v <==> e in w {
      if e in v { SnssaiListingsIncluded(m, v, w, e); }
      if e in w { SnssaiListingsIncluded(m, w, v, e); }
    }
    PlmnOrder();
    KeyOrder(PlmnSnssaiLess, (e: PlmnSnssai) => e.plmn, PlmnLess);
    StrictlySortedUnique(PlmnSnssaiLess, v, w);
  }

  // ---------- access and mobility view ----------

  /** Raw keys that parse to the same value collected the same TACs. */
  ghost predicate TacsAgree(tacs: map<AmKey, set<string>>) {
    forall k, l :: k in ParsableKeys(tacs) && l in ParsableKeys(tacs) && SameSnssai(k, l) ==> tacs[k] == tacs[l]
  }

  predicate SameSnssai(k: AmKey, l: AmKey) {
    k.plmn == l.plmn && ParseSnssai(k.id) == ParseSnssai(l.id)
  }

  lemma AgreementMakesTiesEqual(tacs: map<AmKey, set<string>>, keys: seq<AmKey>)
    requires Enumerates(keys, ParsableKeys(tacs)) && TacsAgree(tacs)
    ensures TiesAreEqual(AmLess, AmEntries(tacs, keys))
  {
    AmOrder();
    var es := AmEntries(tacs, keys);
    forall x, y | x in es && y in es && !AmLess(x, y) && !AmLess(y, x) ensures x == y {
      var i :| 0 <= i < |es| && es[i] == x;
      var j :| 0 <= j < |es| && es[j] == y;
      assert keys[i] in keys && keys[j] in keys;
      assert SameSnssai(keys[i], keys[j]);
    }
  }

  lemma EqualTiesMakeAgreement(tacs: map<AmKey, set<string>>, keys: seq<AmKey>, k: AmKey, l: AmKey)
    requires Enumerates(keys, ParsableKeys(tacs)) && TiesAreEqual(AmLess, AmEntries(tacs, keys))
    requires k in keys && l in keys && SameSnssai(k, l)
    ensures tacs[k] == tacs[l]
  {
    var es := AmEntries(tacs, keys);
    var i :| 0 <= i < |keys| && keys[i] == k;
    var j :| 0 <= j < |keys| && keys[j] == l;
    SameKeyTies(es[i], es[j]);
    TieIsEqual(AmLess, es, i, j);
    SortedSetInjective(tacs[k], tacs[l]);
  }

  lemma SameKeyTies(x: AccessAndMobility, y: AccessAndMobility)
    requires x.plmn == y.plmn && x.snssai == y.snssai
    ensures !AmLess(x, y) && !AmLess(y, x)
  {
    AmOrder();
  }

  lemma SortedSetInjective(a: set<string>, b: set<string>)
    ensures SortedSet(a) == SortedSet(b) ==> a == b
  {
    if SortedSet(a) == SortedSet(b) {
      assert forall t :: t in a <==> t in SortedSet(a);
    }
  }

  lemma TiesOfEntries(tacs: map<AmKey, set<string>>, keys: seq<AmKey>)
    requires Enumerates(keys, ParsableKeys(tacs))
    ensures TacsAgree(tacs) <==> TiesAreEqual(AmLess, AmEntries(tacs, keys))
  {
    if TacsAgree(tacs) { AgreementMakesTiesEqual(tacs, keys); }
    if TiesAreEqual(AmLess, AmEntries(tacs, keys)) {
      forall k, l | k in ParsableKeys(tacs) && l in ParsableKeys(tacs) && SameSnssai(k, l) ensures tacs[k] == tacs[l] {
        EqualTiesMakeAgreement(tacs, keys, k, l);
      }
    }
  }

  lemma AmListingIsSort(tacs: map<AmKey, set<string>>, keys: seq<AmKey>, view: seq<AccessAndMobility>)
    requires Enumerates(keys, ParsableKeys(tacs))
    ensures IsAmListing(tacs, view) <==> IsSortOf(AmLess, AmEntries(tacs, keys), view)
  {
    if IsAmListing(tacs, view) {
      var others :| Enumerates(others, ParsableKeys(tacs)) && IsSortOf(AmLess, AmEntries(tacs, others), view);
      EnumerationMultiset(keys, ParsableKeys(tacs));
      EnumerationMultiset(others, ParsableKeys(tacs));
      MapPermutation(k => AmEntry(tacs, k), keys, others);
    }
  }

  /** The access-mobility view is the same for every order of the slices, of the map and of
      ties if and only if different spellings of one (PLMN, S-NSSAI) carry the same TACs. */
  lemma AmViewDeterminedIff(slices: seq<Slice>)
    ensures (forall t, v, w :: Reordered(slices, t) && IsAmView(slices, v) && IsAmView(t, w) ==> v == w)
       <==> TacsAgree(TacsByKey(slices))
  {
    var tacs := TacsByKey(slices);
    var keys := EnumerationOf(ParsableKeys(tacs));
    if TacsAgree(tacs) {
      forall t, v, w | Reordered(slices, t) && IsAmView(slices, v) && IsAmView(t, w) ensures v == w {
        ReorderedSame(slices, t);
        TacsOfSameSlices(slices, t);
        AmListingUnique(tacs, keys, v, w);
      }
    } else {
      var v, w := AmListingsDiffer(tacs, keys);
      assert Reordered(slices, slices) && IsAmView(slices, v) && IsAmView(slices, w);
    }
  }

  lemma AmListingUnique(tacs: map<AmKey, set<string>>, keys: seq<AmKey>, v: seq<AccessAndMobility>, w: seq<AccessAndMobility>)
    requires Enumerates(keys, ParsableKeys(tacs)) && TacsAgree(tacs) && IsAmListing(tacs, v) && IsAmListing(tacs, w)
    ensures v == w
  {
    AmOrder();
    TiesOfEntries(tacs, keys);
    SortDeterminedIff(AmLess, AmEntries(tacs, keys));
    AmListingIsSort(tacs, keys, v);
    AmListingIsSort(tacs, keys, w);
  }

  lemma AmListingsDiffer(tacs: map<AmKey, set<string>>, keys: seq<AmKey>) returns (v: seq<AccessAndMobility>, w: seq<AccessAndMobility>)
    requires Enumerates(keys, ParsableKeys(tacs)) && !TacsAgree(tacs)
    ensures IsAmListing(tacs, v) && IsAmListing(tacs, w) && v != w
  {
    AmOrder();
    TiesOfEntries(tacs, keys);
    var es := AmEntries(tacs, keys);
    SortDeterminedIff(AmLess, es);
    v, w :| IsSortOf(AmLess, es, v) && IsSortOf(AmLess, es, w) && v != w;
    AmListingIsSort(tacs, keys, v);
    AmListingIsSort(tacs, keys, w);
  }

  lemma TacsOfSameSlices(a: seq<Slice>, b: seq<Slice>)
    requires SameSlices(a, b)
    ensures TacsByKey(a) == TacsByKey(b)
  {
    assert KeysOf(a) == KeysOf(b);
    var x, y := TacsByKey(a), TacsByKey(b);
    forall k | k in x ensures x[k] == y[k] {
      forall t ensures t in x[k] <==> t in y[k] {}
    }
  }

  /** Same PLMN and SD, and SST texts that parse to the same value. */
  predicate RespelledSst(s: Slice, t: Slice) {
    s.plmn == t.plmn && s.id.sd == t.id.sd && ParseSnssai(s.id).Some? && ParseSnssai(s.id) == ParseSnssai(t.id)
  }

  /** One spelling per (PLMN, SD, parsed SST) is enough. */
  lemma OneSpellingDetermines(slices: seq<Slice>)
    requires forall s, t :: s in slices && t in slices && RespelledSst(s, t) ==> s.id.sst == t.id.sst
    ensures TacsAgree(TacsByKey(slices))
  {
    var tacs := TacsByKey(slices);
    forall k, l | k in ParsableKeys(tacs) && l in ParsableKeys(tacs) && SameSnssai(k, l) ensures k == l {
      var s :| s in slices && AmKey(s.plmn, s.id) == k;
      var t :| t in slices && AmKey(t.plmn, t.id) == l;
      assert RespelledSst(s, t);
    }
  }

  lemma OneAndZeroOne()
    ensures ParseSnssai(SliceId("1", "")) == Some(Snssai(1, None)) == ParseSnssai(SliceId("01", ""))
  {
    assert "1"[..0] == "" && "01"[..1] == "0" && "0"[..0] == "";
    assert Bitrate.ParseUint("") == 0 && Bitrate.ParseUint("0") == 0;
    assert Bitrate.ParseUint("1") == 1 && Bitrate.ParseUint("01") == 1;
  }

  lemma TacsOfPair(a: Slice, b: Slice)
    requires AmKey(a.plmn, a.id) != AmKey(b.plmn, b.id) && a.gnbs == [Gnb("gnb1", 1)] && b.gnbs == [Gnb("gnb2", 2)]
    ensures var tacs := TacsByKey([a, b]); var k, l := AmKey(a.plmn, a.id), AmKey(b.plmn, b.id);
      k in tacs && l in tacs && "1" in tacs[k] && "1" !in tacs[l]
  {
    assert a in [a, b] && b in [a, b] && Gnb("gnb1", 1) in a.gnbs;
    assert Bitrate.Itoa(1) == "1" && Bitrate.Itoa(2) == "2";
    assert "1" in TacsOfGnbs(a.gnbs) && "1" !in TacsOfGnbs(b.gnbs) by { assert "1"[0] != "2"[0]; }
  }

  /** Two slices of one store that spell one SST "1" and "01" and have gNBs with different TACs:
      their two entries tie, so two different views can be published for one listing. */
  lemma RespellingConfuses(p: Plmn, s: Slice, t: Slice) returns (a: Slice, b: Slice, v: seq<AccessAndMobility>, w: seq<AccessAndMobility>)
    requires s.name != t.name
    ensures a == s.(id := SliceId("1", ""), plmn := p, gnbs := [Gnb("gnb1", 1)])
    ensures b == t.(id := SliceId("01", ""), plmn := p, gnbs := [Gnb("gnb2", 2)])
    ensures !TacsAgree(TacsByKey([a, b]))
    ensures IsAmView([a, b], v) && IsAmView([a, b], w) && v != w
  {
    a, b := s.(id := SliceId("1", ""), plmn := p, gnbs := [Gnb("gnb1", 1)]), t.(id := SliceId("01", ""), plmn := p, gnbs := [Gnb("gnb2", 2)]);
    var slices := [a, b];
    var tacs := TacsByKey(slices);
    OneAndZeroOne();
    var k, l := AmKey(p, a.id), AmKey(p, b.id);
    assert a in slices && b in slices && |a.id.sst| != |b.id.sst|;
    assert SameSnssai(k, l) && k in ParsableKeys(tacs) && l in ParsableKeys(tacs);
    TacsOfPair(a, b);
    assert tacs[k] != tacs[l];
    v, w := AmListingsDiffer(tacs, EnumerationOf(ParsableKeys(tacs)));
  }

  lemma {:induction false} Realign<K, E>(f: K -> E, keys: seq<K>, view: seq<E>) returns (order: seq<K>)
    requires multiset(Map(f, keys)) == multiset(view)
    ensures multiset(order) == multiset(keys) && Map(f, order) == view
  {
    var es := Map(f, keys);
    if view == [] {
      assert |multiset(es)| == 0;
      order := [];
    } else {
      var i := FindHead(view, es);
      MapDropAt(f, keys, i);
      var rest := Realign(f, keys[..i] + keys[i + 1..], view[1..]);
      order := [keys[i]] + rest;
      WithoutMultiset(keys, i);
      MapCons(f, keys[i], rest);
      assert view == [view[0]] + view[1..];
    }
  }

  lemma MapDropAt<K, E>(f: K -> E, keys: seq<K>, i: nat)
    requires i < |keys|
    ensures Map(f, keys)[..i] + Map(f, keys)[i + 1..] == Map(f, keys[..i] + keys[i + 1..])
  {
  }

  lemma MapCons<K, E>(f: K -> E, k: K, rest: seq<K>)
    ensures Map(f, [k] + rest) == [f(k)] + Map(f, rest)
  {
  }

  lemma {:induction false} PermutedEnumeration<T(!new)>(a: seq<T>, b: seq<T>, s: set<T>)
    requires Enumerates(a, s) && multiset(a) == multiset(b)
    ensures Enumerates(b, s)
  {
    EnumerationMultiset(a, s);
    forall x ensures x in b <==> x in s { assert x in b <==> x in multiset(b); }
    forall i, j | 0 <= i < j < |b| ensures b[i] != b[j] {
      assert multiset(b)[b[i]] <= 1;
      assert b[i] != b[j] by { if b[i] == b[j] { OccursTwice(b, i, j); } }
    }
  }

  /** Each entry of the view belongs to exactly one raw (PLMN, slice id) with a parsable SST
      and each such key has its entry; the TACs are exactly those of all gNBs of all slices
      with that key, merged, without repetition and in increasing order. */
  lemma TacMergeConservation(slices: seq<Slice>, view: seq<AccessAndMobility>)
    requires IsAmView(slices, view)
    ensures exists keys :: Enumerates(keys, ParsableKeysOf(slices)) && |keys| == |view|
              && forall i :: 0 <= i < |view| ==> HoldsAllTacs(slices, keys[i], view[i])
  {
    var tacs := TacsByKey(slices);
    var some :| Enumerates(some, ParsableKeys(tacs)) && IsSortOf(AmLess, AmEntries(tacs, some), view);
    var keys := Realign(k => AmEntry(tacs, k), some, view);
    PermutedEnumeration(some, keys, ParsableKeys(tacs));
    assert ParsableKeys(tacs) == ParsableKeysOf(slices);
    forall i | 0 <= i < |view| ensures HoldsAllTacs(slices, keys[i], view[i]) {
      assert keys[i] in keys;
      forall t ensures t in view[i].tacs <==> exists s :: s in slices && HasTac(s, keys[i], t) {
        assert view[i].tacs == SortedSet(tacs[keys[i]]);
        TacMember(slices, keys[i], t);
      }
    }
  }

  function ParsableKeysOf(slices: seq<Slice>): set<AmKey> {
    set s | s in slices && ParseSnssai(s.id).Some? :: AmKey(s.plmn, s.id)
  }

  predicate HasTac(s: Slice, k: AmKey, t: string) {
    AmKey(s.plmn, s.id) == k && exists g :: g in s.gnbs && Bitrate.Itoa(g.tac) == t
  }

  ghost predicate HoldsAllTacs(slices: seq<Slice>, k: AmKey, e: AccessAndMobility) {
    && e.plmn == k.plmn && ParseSnssai(k.id) == Some(e.snssai)
    && StrictlySorted(StringLess, e.tacs)
    && forall t :: t in e.tacs <==> exists s :: s in slices && HasTac(s, k, t)
  }

  lemma TacMember(slices: seq<Slice>, k: AmKey, t: string)
    requires k in KeysOf(slices)
    ensures t in TacsByKey(slices)[k] <==> exists s :: s in slices && HasTac(s, k, t)
  {
    if t in TacsByKey(slices)[k] {
      var s :| s in slices && AmKey(s.plmn, s.id) == k && t in TacsOfGnbs(s.gnbs);
      assert HasTac(s, k, t);
    }
    if s :| s in slices && HasTac(s, k, t) {
      assert t in TacsOfGnbs(s.gnbs);
    }
  }

  // ---------- agreement between views ----------

  /** The (PLMN, S-NSSAI) pairs of the slices whose SST parses. */
  function ConfiguredPairs(slices: seq<Slice>): set<(Plmn, Snssai)> {
    set s | s in slices && ParseSnssai(s.id).Some? :: (s.plmn, ParseSnssai(s.id).value)
  }

  function PairsOfSnssais(view: seq<PlmnSnssai>): set<(Plmn, Snssai)> {
    set e, x | e in view && x in e.snssais :: (e.plmn, x)
  }

  function PairsOfAm(view: seq<AccessAndMobility>): set<(Plmn, Snssai)> { set e | e in view :: (e.plmn, e.snssai) }

  function PairsOfSessions(view: seq<SessionManagement>): set<(Plmn, Snssai)> { set e | e in view :: (e.plmn, e.snssai) }

  function PairsOfPolicies(view: seq<PolicyControl>): set<(Plmn, Snssai)> { set e | e in view :: (e.plmn, e.snssai) }

  lemma SnssaiViewPairs(slices: seq<Slice>, view: seq<PlmnSnssai>)
    requires IsPlmnSnssaiView(slices, view)
    ensures PairsOfSnssais(view) == ConfiguredPairs(slices)
  {
    var m := IdsByPlmn(slices);
    forall pair ensures pair in PairsOfSnssais(view) <==> pair in ConfiguredPairs(slices) {
      if pair in PairsOfSnssais(view) {
        var e, x :| e in view && x in e.snssais && (e.plmn, x) == pair;
        ListedSnssai(m[e.plmn], e.snssais, x);
        var id :| id in m[e.plmn] && ParseSnssai(id) == Some(x);
        var s :| s in slices && s.plmn == e.plmn && s.id == id;
      }
      if pair in ConfiguredPairs(slices) {
        var s :| s in slices && ParseSnssai(s.id).Some? && (s.plmn, ParseSnssai(s.id).value) == pair;
        assert s.id in m[s.plmn];
        var e :| e in view && e.plmn == s.plmn;
        ListedSnssai(m[s.plmn], e.snssais, pair.1);
      }
    }
  }

  lemma AmViewPairs(slices: seq<Slice>, view: seq<AccessAndMobility>)
    requires IsAmView(slices, view)
    ensures PairsOfAm(view) == ConfiguredPairs(slices)
  {
    hide AmLess, IsSortOf, Enumerates, ParseSnssai;
    var tacs := TacsByKey(slices);
    var keys :| Enumerates(keys, ParsableKeys(tacs)) && IsSortOf(AmLess, AmEntries(tacs, keys), view);
    var es := AmEntries(tacs, keys);
    SortOfMembers(AmLess, es, view);
    AmEntryPairs(slices, keys);
    forall pair ensures pair in PairsOfAm(view) <==> pair in ConfiguredPairs(slices) {
      if pair in PairsOfAm(view) {
        var e :| e in view && (e.plmn, e.snssai) == pair;
        var i :| 0 <= i < |es| && es[i] == e;
      }
      if pair in ConfiguredPairs(slices) {
        var e :| e in es && (e.plmn, e.snssai) == pair;
        assert e in view;
      }
    }
  }

  lemma AmEntryPairs(slices: seq<Slice>, keys: seq<AmKey>)
    requires Enumerates(keys, ParsableKeys(TacsByKey(slices)))
    ensures var es := AmEntries(TacsByKey(slices), keys);
      forall i :: 0 <= i < |keys| ==> (es[i].plmn, es[i].snssai) in ConfiguredPairs(slices)
    ensures forall pair :: pair in ConfiguredPairs(slices) ==> exists e :: e in AmEntries(TacsByKey(slices), keys) && (e.plmn, e.snssai) == pair
  {
    var es := AmEntries(TacsByKey(slices), keys);
    forall i | 0 <= i < |keys| ensures (es[i].plmn, es[i].snssai) in ConfiguredPairs(slices) {
      assert keys[i] in keys;
      var s :| s in slices && AmKey(s.plmn, s.id) == keys[i];
    }
    forall pair | pair in ConfiguredPairs(slices) ensures exists e :: e in es && (e.plmn, e.snssai) == pair {
      var s :| s in slices && ParseSnssai(s.id).Some? && (s.plmn, ParseSnssai(s.id).value) == pair;
      assert AmKey(s.plmn, s.id) in keys;
      var i :| 0 <= i < |keys| && keys[i] == AmKey(s.plmn, s.id);
      assert es[i] in es;
    }
  }

  lemma {:induction false} SessionMembers(slices: seq<Slice>, groups: map<string, Group>)
    ensures forall e :: e in Sessions(slices, groups) <==> exists s :: s in slices && Session(s, groups) == Some(e)
  {
    if slices != [] {
      var front, last := slices[..|slices| - 1], slices[|slices| - 1];
      assert slices == front + [last];
      SessionMembers(front, groups);
    }
  }

  lemma SessionViewPairs(slices: seq<Slice>, groups: map<string, Group>, view: seq<SessionManagement>)
    requires IsSessionView(slices, groups, view)
    ensures PairsOfSessions(view) == ConfiguredPairs(slices)
  {
    SessionMembers(slices, groups);
    SortOfMembers(SessionLess, Sessions(slices, groups), view);
    forall pair ensures pair in PairsOfSessions(view) <==> pair in ConfiguredPairs(slices) {
      if pair in ConfiguredPairs(slices) {
        var s :| s in slices && ParseSnssai(s.id).Some? && (s.plmn, ParseSnssai(s.id).value) == pair;
        assert Session(s, groups).value in view;
      }
      if pair in PairsOfSessions(view) {
        var e :| e in view && (e.plmn, e.snssai) == pair;
        var s :| s in slices && Session(s, groups) == Some(e);
      }
    }
  }

  lemma {:induction false} ParsableMembers(slices: seq<Slice>)
    ensures forall s :: s in Parsable(slices) <==> s in slices && ParseSnssai(s.id).Some?
  {
    if slices != [] {
      var front, last := slices[..|slices| - 1], slices[|slices| - 1];
      assert slices == front + [last];
      ParsableMembers(front);
    }
  }

  /** Every slice whose SST parses has its policy entry, and every entry has its slice. */
  lemma PolicyMembers(slices: seq<Slice>, groups: map<string, Group>, view: seq<PolicyControl>)
    requires IsPolicyView(slices, groups, view)
    ensures forall s :: s in slices && ParseSnssai(s.id).Some? ==> exists e :: e in view && IsPolicyEntry(s, groups, e)
    ensures forall e :: e in view ==> exists s :: s in slices && IsPolicyEntry(s, groups, e)
  {
    hide IsPolicyEntry, PolicyLess, ParseSnssai;
    var es :| AreEntriesOf(Parsable(slices), groups, es) && IsSortOf(PolicyLess, es, view);
    SortOfMembers(PolicyLess, es, view);
    ParsableMembers(slices);
    var ps := Parsable(slices);
    forall s | s in slices && ParseSnssai(s.id).Some? ensures exists e :: e in view && IsPolicyEntry(s, groups, e) {
      var i :| 0 <= i < |ps| && ps[i] == s;
      assert es[i] in es;
    }
    forall e | e in view ensures exists s :: s in slices && IsPolicyEntry(s, groups, e) {
      var i :| 0 <= i < |es| && es[i] == e;
      assert ps[i] in ps;
    }
  }

  lemma PolicyViewPairs(slices: seq<Slice>, groups: map<string, Group>, view: seq<PolicyControl>)
    requires IsPolicyView(slices, groups, view)
    ensures PairsOfPolicies(view) == ConfiguredPairs(slices)
  {
    hide IsPolicyView, IsPolicyEntry, ParseSnssai;
    PolicyMembers(slices, groups, view);
    forall s | s in slices && ParseSnssai(s.id).Some? ensures (s.plmn, ParseSnssai(s.id).value) in PairsOfPolicies(view) {
      var e :| e in view && IsPolicyEntry(s, groups, e);
      PolicyEntryPair(s, groups, e);
    }
    forall e | e in view ensures (e.plmn, e.snssai) in ConfiguredPairs(slices) {
      var s :| s in slices && IsPolicyEntry(s, groups, e);
      PolicyEntryPair(s, groups, e);
    }
  }

  lemma PolicyEntryPair(s: Slice, groups: map<string, Group>, e: PolicyControl)
    requires IsPolicyEntry(s, groups, e)
    ensures e.plmn == s.plmn && ParseSnssai(s.id) == Some(e.snssai)
  {
  }

  /** Views rebuilt from the same slices and groups speak of exactly the same (PLMN, S-NSSAI)
      pairs, and each PLMN among them is in the PLMN view. */
  lemma CrossViewAgreement(slices: seq<Slice>, groups: map<string, Group>,
                           plmns: seq<Plmn>, snssais: seq<PlmnSnssai>, am: seq<AccessAndMobility>,
                           sessions: seq<SessionManagement>, policies: seq<PolicyControl>)
    requires IsPlmnView(slices, plmns) && IsPlmnSnssaiView(slices, snssais) && IsAmView(slices, am)
    requires IsSessionView(slices, groups, sessions) && IsPolicyView(slices, groups, policies)
    ensures PairsOfSnssais(snssais) == PairsOfAm(am) == PairsOfSessions(sessions) == PairsOfPolicies(policies)
         == ConfiguredPairs(slices)
    ensures KeysDistinguish(slices) ==> forall pair :: pair in ConfiguredPairs(slices) ==> pair.0 in plmns
  {
    SnssaiViewPairs(slices, snssais);
    AmViewPairs(slices, am);
    SessionViewPairs(slices, groups, sessions);
    PolicyViewPairs(slices, groups, policies);
    if KeysDistinguish(slices) { PlmnViewIsAllPlmns(slices, plmns); }
  }

  function DnnsOfSession(e: SessionManagement): seq<string> { Map((d: IpDomainInfo) => d.dnn, e.ipDomains) }

  /** The DNN list of a slice's policy entry is the sorted permutation, repetitions included,
      of the DNNs of the IP domains in its session entry, and both entries are published. */
  lemma DnnAgreement(slices: seq<Slice>, groups: map<string, Group>, sessions: seq<SessionManagement>, policies: seq<PolicyControl>)
    requires IsSessionView(slices, groups, sessions) && IsPolicyView(slices, groups, policies)
    ensures forall s :: s in slices && ParseSnssai(s.id).Some? ==>
              exists e, f :: e in sessions && f in policies && e.sliceName == s.name && e.plmn == s.plmn && SameDnns(e, f)
    ensures forall f :: f in policies ==> exists e :: e in sessions && SameDnns(e, f)
  {
    hide IsPolicyEntry, SameDnns, ParseSnssai, DnnsOfSession;
    PolicyMembers(slices, groups, policies);
    forall s | s in slices && ParseSnssai(s.id).Some?
      ensures exists e, f :: e in sessions && f in policies && e.sliceName == s.name && e.plmn == s.plmn && SameDnns(e, f)
    {
      var f :| f in policies && IsPolicyEntry(s, groups, f);
      var e := SessionOf(slices, groups, sessions, s);
      EntriesAgree(s, groups, f);
    }
    forall f | f in policies ensures exists e :: e in sessions && SameDnns(e, f) {
      var s :| s in slices && IsPolicyEntry(s, groups, f);
      EntriesAgree(s, groups, f);
      var e := SessionOf(slices, groups, sessions, s);
    }
  }

  lemma SessionOf(slices: seq<Slice>, groups: map<string, Group>, sessions: seq<SessionManagement>, s: Slice)
    returns (e: SessionManagement)
    requires IsSessionView(slices, groups, sessions) && s in slices && ParseSnssai(s.id).Some?
    ensures e in sessions && Session(s, groups) == Some(e)
  {
    SessionMembers(slices, groups);
    SortOfMembers(SessionLess, Sessions(slices, groups), sessions);
    e := Session(s, groups).value;
  }

  ghost predicate SameDnns(e: SessionManagement, f: PolicyControl) {
    e.plmn == f.plmn && e.snssai == f.snssai && IsSortOf(StringLess, DnnsOfSession(e), f.dnns)
  }

  lemma EntriesAgree(s: Slice, groups: map<string, Group>, f: PolicyControl)
    requires IsPolicyEntry(s, groups, f)
    ensures Session(s, groups).Some?
    ensures SameDnns(Session(s, groups).value, f)
  {
    var ds := DomainsOf(s.groups, groups);
    assert DnnsOfSession(Session(s, groups).value) == Dnns(ds);
  }

  lemma {:induction false} ParsableCount(slices: seq<Slice>, s: Slice)
    ensures multiset(Parsable(slices))[s] == if ParseSnssai(s.id).Some? then multiset(slices)[s] else 0
  {
    if slices != [] {
      var front, last := slices[..|slices| - 1], slices[|slices| - 1];
      assert slices == front + [last];
      ParsableCount(front, s);
    }
  }

  lemma ParsableReordered(slices: seq<Slice>, t: seq<Slice>)
    requires Reordered(slices, t)
    ensures multiset(Parsable(slices)) == multiset(Parsable(t))
  {
    forall s ensures multiset(Parsable(slices))[s] == multiset(Parsable(t))[s] {
      ParsableCount(slices, s);
      ParsableCount(t, s);
    }
  }

  function SessionEntry(groups: map<string, Group>): Slice -> SessionManagement {
    (s: Slice) =>
      if Session(s, groups).Some? then Session(s, groups).value
      else SessionManagement("", s.plmn, Snssai(0, None), [], None, [])
  }

  lemma {:induction false} SessionsAreMap(slices: seq<Slice>, groups: map<string, Group>)
    ensures Sessions(slices, groups) == Map(SessionEntry(groups), Parsable(slices))
  {
    if slices != [] { SessionsAreMap(slices[..|slices| - 1], groups); }
  }

  lemma SessionsReordered(slices: seq<Slice>, t: seq<Slice>, groups: map<string, Group>)
    requires Reordered(slices, t)
    ensures multiset(Sessions(slices, groups)) == multiset(Sessions(t, groups))
  {
    SessionsAreMap(slices, groups);
    SessionsAreMap(t, groups);
    ParsableReordered(slices, t);
    MapPermutation(SessionEntry(groups), Parsable(slices), Parsable(t));
  }

  /** Slices with different names are published in one order only, whatever order they are
      listed in. */
  lemma SessionViewDetermined(slices: seq<Slice>, t: seq<Slice>, groups: map<string, Group>, v: seq<SessionManagement>, w: seq<SessionManagement>)
    requires forall s, r :: s in slices && r in slices && s.name == r.name ==> s == r
    requires Reordered(slices, t) && IsSessionView(slices, groups, v) && IsSessionView(t, groups, w)
    ensures v == w
  {
    hide Sessions, SessionLess, StrictWeakOrder, TiesAreEqual;
    SessionsReordered(slices, t, groups);
    SessionTies(slices, groups);
    SessionOrder();
    assert IsSortOf(SessionLess, Sessions(slices, groups), w);
    SortDeterminedIff(SessionLess, Sessions(slices, groups));
  }

  lemma SessionOrder()
    ensures StrictWeakOrder(SessionLess)
  {
    StringOrder();
    KeyOrder(SessionLess, (e: SessionManagement) => e.sliceName, StringLess);
  }

  lemma SessionTies(slices: seq<Slice>, groups: map<string, Group>)
    requires forall s, r :: s in slices && r in slices && s.name == r.name ==> s == r
    ensures TiesAreEqual(SessionLess, Sessions(slices, groups))
  {
    StringOrder();
    KeyOrder(SessionLess, (e: SessionManagement) => e.sliceName, StringLess);
    SessionMembers(slices, groups);
    var es := Sessions(slices, groups);
    forall x, y | x in es && y in es && !SessionLess(x, y) && !SessionLess(y, x) ensures x == y {
      var s :| s in slices && Session(s, groups) == Some(x);
      var r :| r in slices && Session(r, groups) == Some(y);
    }
  }

  // ---------- determinism of the policy-control view ----------

  /** One entry for the slice; the only one when the slice's rules have no different ties. */
  function PolicyOf(groups: map<string, Group>): Slice -> PolicyControl {
    (s: Slice) => PolicyControl(
      s.plmn, if ParseSnssai(s.id).Some? then ParseSnssai(s.id).value else Snssai(0, None),
      InsertionSort(StringLess, Dnns(DomainsOf(s.groups, groups))), InsertionSort(RuleLess, UnsortedRules(s)))
  }

  /** No slice has two different rules of one precedence and name. */
  ghost predicate RulesFixed(slices: seq<Slice>) {
    forall s :: s in slices && ParseSnssai(s.id).Some? ==> TiesAreEqual(RuleLess, UnsortedRules(s))
  }

  predicate SameSlot(s: Slice, t: Slice) {
    s.plmn == t.plmn && ParseSnssai(s.id).Some? && ParseSnssai(s.id) == ParseSnssai(t.id)
  }

  /** Slices of one PLMN and S-NSSAI have the same DNNs and rules, repetitions included. */
  ghost predicate SlotsAgree(slices: seq<Slice>, groups: map<string, Group>) {
    forall s, t :: s in slices && t in slices && SameSlot(s, t) ==>
      && multiset(Dnns(DomainsOf(s.groups, groups))) == multiset(Dnns(DomainsOf(t.groups, groups)))
      && multiset(UnsortedRules(s)) == multiset(UnsortedRules(t))
  }

  lemma PolicyOrder()
    ensures StrictWeakOrder(PolicyLess)
    ensures forall x, y :: !PolicyLess(x, y) && !PolicyLess(y, x) <==> x.plmn == y.plmn && x.snssai == y.snssai
  {
    PlmnThenSnssaiOrder();
    var key := (e: PolicyControl) => (e.plmn, e.snssai);
    KeyOrder(PolicyLess, key, PlmnThenSnssaiLess);
    forall x, y ensures !PolicyLess(x, y) && !PolicyLess(y, x) <==> x.plmn == y.plmn && x.snssai == y.snssai {
      assert key(x) == key(y) <==> x.plmn == y.plmn && x.snssai == y.snssai;
    }
  }

  lemma PolicyOfIsEntry(s: Slice, groups: map<string, Group>)
    requires ParseSnssai(s.id).Some?
    ensures IsPolicyEntry(s, groups, PolicyOf(groups)(s))
  {
    StringOrderIsWeak();
    RuleOrder();
    InsertionSortSorts(StringLess, Dnns(DomainsOf(s.groups, groups)));
    InsertionSortSorts(RuleLess, UnsortedRules(s));
  }

  /** Without different ties among its rules a slice has one entry. */
  lemma OnlyEntry(s: Slice, groups: map<string, Group>, e: PolicyControl)
    requires IsPolicyEntry(s, groups, e) && TiesAreEqual(RuleLess, UnsortedRules(s))
    ensures e == PolicyOf(groups)(s)
  {
    PolicyOfIsEntry(s, groups);
    StringSortUnique(Dnns(DomainsOf(s.groups, groups)), e.dnns);
    RuleOrder();
    SortDeterminedIff(RuleLess, UnsortedRules(s));
  }

  lemma OnlyEntries(ps: seq<Slice>, groups: map<string, Group>, es: seq<PolicyControl>)
    requires AreEntriesOf(ps, groups, es)
    requires forall s :: s in ps ==> TiesAreEqual(RuleLess, UnsortedRules(s))
    ensures es == Map(PolicyOf(groups), ps)
  {
    forall i | 0 <= i < |es| ensures es[i] == PolicyOf(groups)(ps[i]) {
      assert ps[i] in ps;
      OnlyEntry(ps[i], groups, es[i]);
    }
  }

  lemma TwoEntries(s: Slice, groups: map<string, Group>) returns (x: PolicyControl, y: PolicyControl)
    requires ParseSnssai(s.id).Some? && !TiesAreEqual(RuleLess, UnsortedRules(s))
    ensures IsPolicyEntry(s, groups, x) && IsPolicyEntry(s, groups, y) && x != y
  {
    hide StrictWeakOrder, TiesAreEqual, Sorted, RuleLess, UnsortedRules, DomainsOf;
    RuleOrder();
    SortDeterminedIff(RuleLess, UnsortedRules(s));
    var a, b :| IsSortOf(RuleLess, UnsortedRules(s), a) && IsSortOf(RuleLess, UnsortedRules(s), b) && a != b;
    PolicyOfIsEntry(s, groups);
    x, y := PolicyOf(groups)(s).(rules := a), PolicyOf(groups)(s).(rules := b);
  }

  lemma ViewWithEntry(slices: seq<Slice>, groups: map<string, Group>, i: nat, e: PolicyControl) returns (view: seq<PolicyControl>)
    requires i < |Parsable(slices)| && IsPolicyEntry(Parsable(slices)[i], groups, e)
    ensures IsPolicyView(slices, groups, view)
    ensures multiset(view) == multiset(Map(PolicyOf(groups), Parsable(slices))[i := e])
  {
    hide IsPolicyEntry, PolicyLess, PolicyOf, StrictWeakOrder, Sorted;
    var es := Map(PolicyOf(groups), Parsable(slices))[i := e];
    PolicyOfAll(slices, groups);
    PolicyOrder();
    InsertionSortSorts(PolicyLess, es);
    view := InsertionSort(PolicyLess, es);
    assert AreEntriesOf(Parsable(slices), groups, es);
  }

  /** Two different tied rules of one slice give two different views of one listing. */
  lemma RuleTiesShow(slices: seq<Slice>, groups: map<string, Group>, s: Slice)
    returns (v: seq<PolicyControl>, w: seq<PolicyControl>)
    requires s in slices && ParseSnssai(s.id).Some? && !TiesAreEqual(RuleLess, UnsortedRules(s))
    ensures IsPolicyView(slices, groups, v) && IsPolicyView(slices, groups, w) && v != w
  {
    hide IsPolicyView, IsPolicyEntry, TiesAreEqual, UnsortedRules, ParseSnssai, PolicyOf;
    ParsableMembers(slices);
    var ps := Parsable(slices);
    var i :| 0 <= i < |ps| && ps[i] == s;
    var x, y := TwoEntries(s, groups);
    v := ViewWithEntry(slices, groups, i, x);
    w := ViewWithEntry(slices, groups, i, y);
    ReplacedDiffer(Map(PolicyOf(groups), ps), i, x, y);
  }

  lemma ReplacedDiffer<T>(s: seq<T>, i: nat, x: T, y: T)
    requires i < |s| && x != y
    ensures multiset(s[i := x]) != multiset(s[i := y])
  {
    var rest := s[..i] + s[i + 1..];
    WithoutMultiset(s[i := x], i);
    WithoutMultiset(s[i := y], i);
    assert s[i := x][..i] + s[i := x][i + 1..] == rest && s[i := y][..i] + s[i := y][i + 1..] == rest;
    assert s[i := x][i] in multiset(s[i := x]) && s[i := y][i] in multiset(s[i := y]);
    assert multiset(s[i := x]) == multiset(rest) + multiset{x} && multiset(s[i := y]) == multiset(rest) + multiset{y};
    assert multiset(s[i := x])[x] == multiset(rest)[x] + 1 && multiset(s[i := y])[x] == multiset(rest)[x];
  }

  lemma AgreementMakesPolicyTiesEqual(slices: seq<Slice>, groups: map<string, Group>)
    requires RulesFixed(slices) && SlotsAgree(slices, groups)
    ensures TiesAreEqual(PolicyLess, Map(PolicyOf(groups), Parsable(slices)))
  {
    hide PolicyLess, RulesFixed, SlotsAgree, UnsortedRules, DomainsOf, InsertionSort, StrictWeakOrder, Parsable, ParseSnssai, PolicyOf;
    var ps := Parsable(slices);
    var es := Map(PolicyOf(groups), ps);
    ParsableMembers(slices);
    PolicyOrder();
    forall x, y | x in es && y in es && !PolicyLess(x, y) && !PolicyLess(y, x) ensures x == y {
      var i :| 0 <= i < |es| && es[i] == x;
      var j :| 0 <= j < |es| && es[j] == y;
      assert ps[i] in ps && ps[j] in ps;
      AgreeingSlots(slices, groups, ps[i], ps[j]);
    }
  }

  lemma AgreeingSlots(slices: seq<Slice>, groups: map<string, Group>, s: Slice, t: Slice)
    requires RulesFixed(slices) && SlotsAgree(slices, groups) && s in slices && t in slices
    requires ParseSnssai(s.id).Some? && ParseSnssai(t.id).Some?
    requires PolicyOf(groups)(s).plmn == PolicyOf(groups)(t).plmn && PolicyOf(groups)(s).snssai == PolicyOf(groups)(t).snssai
    ensures PolicyOf(groups)(s) == PolicyOf(groups)(t)
  {
    hide UnsortedRules, DomainsOf, ParseSnssai, InsertionSort;
    assert SameSlot(s, t);
    SameEntry(s, t, groups);
  }

  lemma EqualPolicyTiesMakeAgreement(slices: seq<Slice>, groups: map<string, Group>, s: Slice, t: Slice)
    requires TiesAreEqual(PolicyLess, Map(PolicyOf(groups), Parsable(slices)))
    requires s in slices && t in slices && SameSlot(s, t)
    ensures multiset(Dnns(DomainsOf(s.groups, groups))) == multiset(Dnns(DomainsOf(t.groups, groups)))
    ensures multiset(UnsortedRules(s)) == multiset(UnsortedRules(t))
  {
    hide PolicyLess, RuleLess, UnsortedRules, DomainsOf, TiesAreEqual, StrictWeakOrder;
    var ps := Parsable(slices);
    ParsableMembers(slices);
    PolicyOrder();
    var i :| 0 <= i < |ps| && ps[i] == s;
    var j :| 0 <= j < |ps| && ps[j] == t;
    var x, y := PolicyOf(groups)(s), PolicyOf(groups)(t);
    TieIsEqual(PolicyLess, Map(PolicyOf(groups), ps), i, j);
    assert x.dnns == y.dnns && x.rules == y.rules;
  }

  lemma SameEntry(s: Slice, t: Slice, groups: map<string, Group>)
    requires SameSlot(s, t) && TiesAreEqual(RuleLess, UnsortedRules(s))
    requires multiset(Dnns(DomainsOf(s.groups, groups))) == multiset(Dnns(DomainsOf(t.groups, groups)))
    requires multiset(UnsortedRules(s)) == multiset(UnsortedRules(t))
    ensures PolicyOf(groups)(s) == PolicyOf(groups)(t)
  {
    PolicyOfIsEntry(t, groups);
    var e := PolicyOf(groups)(t);
    assert IsPolicyEntry(s, groups, e);
    OnlyEntry(s, groups, e);
  }

  /** The policy-control view is the same for every order of the slices and every sort if and
      only if no slice has two different rules of one precedence and name, and slices of one PLMN
      and S-NSSAI have the same DNNs and rules. */
  lemma PolicyViewDeterminedIff(slices: seq<Slice>, groups: map<string, Group>)
    ensures (forall t, v, w :: Reordered(slices, t) && IsPolicyView(slices, groups, v) && IsPolicyView(t, groups, w) ==> v == w)
       <==> RulesFixed(slices) && SlotsAgree(slices, groups)
  {
    var es := Map(PolicyOf(groups), Parsable(slices));
    PolicyOrder();
    if !RulesFixed(slices) {
      var s :| s in slices && ParseSnssai(s.id).Some? && !TiesAreEqual(RuleLess, UnsortedRules(s));
      var v, w := RuleTiesShow(slices, groups, s);
      assert Reordered(slices, slices);
    } else {
      SortDeterminedIff(PolicyLess, es);
      if SlotsAgree(slices, groups) {
        AgreementMakesPolicyTiesEqual(slices, groups);
        forall t, v, w | Reordered(slices, t) && IsPolicyView(slices, groups, v) && IsPolicyView(t, groups, w) ensures v == w {
          PolicyViewIsSort(slices, slices, groups, v);
          PolicyViewIsSort(slices, t, groups, w);
        }
      } else {
        var s, t :| s in slices && t in slices && SameSlot(s, t)
          && !(multiset(Dnns(DomainsOf(s.groups, groups))) == multiset(Dnns(DomainsOf(t.groups, groups)))
               && multiset(UnsortedRules(s)) == multiset(UnsortedRules(t)));
        if TiesAreEqual(PolicyLess, es) { EqualPolicyTiesMakeAgreement(slices, groups, s, t); }
        var v, w :| IsSortOf(PolicyLess, es, v) && IsSortOf(PolicyLess, es, w) && v != w;
        PolicyOfAll(slices, groups);
        assert Reordered(slices, slices) && IsPolicyView(slices, groups, v) && IsPolicyView(slices, groups, w);
      }
    }
  }

  lemma ParsablePair(a: Slice, b: Slice)
    requires ParseSnssai(a.id).Some? && ParseSnssai(b.id).Some?
    ensures Parsable([a, b]) == [a, b]
  {
    assert [a, b][..1] == [a] && [a][..0] == [];
    assert Parsable([]) == [];
    assert Parsable([a]) == [a];
  }

  const VIDEO_RULE := Rule("video", 1, "permit", "10.0.0.1", TCP, 80, 80, 0, 0, "", TrafficClass("", 5, 1, 0, 0), "")

  /** Two slices of one store in one PLMN and S-NSSAI, one with the default rule and one with its
      own: one listing allows both orders of their entries. */
  lemma SharedSlotConfuses(groups: map<string, Group>, p: Plmn, s: Slice, t: Slice)
    returns (a: Slice, b: Slice, v: seq<PolicyControl>, w: seq<PolicyControl>)
    requires s.name != t.name
    ensures a == s.(id := SliceId("1", ""), plmn := p, rules := [])
    ensures b == t.(id := SliceId("1", ""), plmn := p, rules := [VIDEO_RULE])
    ensures IsPolicyView([a, b], groups, v) && IsPolicyView([a, b], groups, w) && v != w
  {
    a := s.(id := SliceId("1", ""), plmn := p, rules := []);
    b := t.(id := SliceId("1", ""), plmn := p, rules := [VIDEO_RULE]);
    OneAndZeroOne();
    DifferentRules(a, b);
    v, w := TwoOrders(groups, a, b);
  }

  lemma TwoOrders(groups: map<string, Group>, a: Slice, b: Slice) returns (v: seq<PolicyControl>, w: seq<PolicyControl>)
    requires SameSlot(a, b) && InsertionSort(RuleLess, UnsortedRules(a)) != InsertionSort(RuleLess, UnsortedRules(b))
    ensures IsPolicyView([a, b], groups, v) && IsPolicyView([a, b], groups, w) && v != w
  {
    hide PolicyLess, StrictWeakOrder, IsPolicyEntry, ParseSnssai, UnsortedRules, InsertionSort, RuleLess, DomainsOf;
    PolicyOfIsEntry(a, groups);
    PolicyOfIsEntry(b, groups);
    var e, f := PolicyOf(groups)(a), PolicyOf(groups)(b);
    v, w := [e, f], [f, e];
    assert v[0] != w[0];
    ParsablePair(a, b);
    PolicyOrder();
    assert AreEntriesOf([a, b], groups, v) && IsSortOf(PolicyLess, v, v) && IsSortOf(PolicyLess, v, w);
  }

  lemma EndpointsShow(r: Rule)
    requires r.protocol != TCP && r.protocol != UDP
    ensures FlowDescription(r.(endpoint := "10.0.0.1")) != FlowDescription(r.(endpoint := "10.0.0.2"))
  {
    var x, y := FlowDescription(r.(endpoint := "10.0.0.1")), FlowDescription(r.(endpoint := "10.0.0.2"));
    assert "10.0.0.1"[0] != "0.0.0.0"[0] && "10.0.0.2"[0] != "0.0.0.0"[0];
    assert x == "permit out ip from " + "10.0.0.1" + " to assigned" && y == "permit out ip from " + "10.0.0.2" + " to assigned";
    assert x[26] == '1' && y[26] == '2';
  }

  /** One slice with two rules of one name and priority that differ only in their endpoint: one
      listing allows both orders of the rules. */
  lemma SharedRuleNameConfuses(groups: map<string, Group>, s: Slice, r: Rule)
    returns (a: Slice, v: seq<PolicyControl>, w: seq<PolicyControl>)
    requires r.protocol != TCP && r.protocol != UDP
    ensures a == s.(id := SliceId("1", ""), rules := [r.(endpoint := "10.0.0.1"), r.(endpoint := "10.0.0.2")])
    ensures !RulesFixed([a])
    ensures IsPolicyView([a], groups, v) && IsPolicyView([a], groups, w) && v != w
  {
    a := s.(id := SliceId("1", ""), rules := [r.(endpoint := "10.0.0.1"), r.(endpoint := "10.0.0.2")]);
    OneAndZeroOne();
    EndpointsShow(r);
    TiedRules(a);
    assert a in [a];
    v, w := RuleTiesShow([a], groups, a);
  }

  lemma TiedRules(s: Slice)
    requires |s.rules| == 2 && PccRuleOf(s.rules[0]) != PccRuleOf(s.rules[1])
    requires s.rules[0].name == s.rules[1].name && s.rules[0].priority == s.rules[1].priority
    ensures !TiesAreEqual(RuleLess, UnsortedRules(s))
  {
    hide FlowDescription;
    StringLessIrreflexive(s.rules[0].name);
    var x, y := UnsortedRules(s)[0], UnsortedRules(s)[1];
    assert x in UnsortedRules(s) && y in UnsortedRules(s);
  }

  lemma DifferentRules(a: Slice, b: Slice)
    requires a.rules == [] && |b.rules| == 1 && b.rules[0].priority == 1
    ensures InsertionSort(RuleLess, UnsortedRules(a)) != InsertionSort(RuleLess, UnsortedRules(b))
  {
    var x, y := UnsortedRules(a), UnsortedRules(b);
    assert x[0].precedence == 255 && y[0].precedence == 1;
    assert x[0] in multiset(x) && multiset(y) == multiset{y[0]};
    assert x[0] in multiset(InsertionSort(RuleLess, x)) && x[0] !in multiset(InsertionSort(RuleLess, y));
  }

  lemma PolicyOfAll(slices: seq<Slice>, groups: map<string, Group>)
    ensures AreEntriesOf(Parsable(slices), groups, Map(PolicyOf(groups), Parsable(slices)))
  {
    ParsableMembers(slices);
    var ps := Parsable(slices);
    forall k | 0 <= k < |ps| ensures IsPolicyEntry(ps[k], groups, PolicyOf(groups)(ps[k])) {
      assert ps[k] in ps;
      PolicyOfIsEntry(ps[k], groups);
    }
  }

  lemma PolicyViewIsSort(slices: seq<Slice>, t: seq<Slice>, groups: map<string, Group>, view: seq<PolicyControl>)
    requires RulesFixed(slices) && Reordered(slices, t) && IsPolicyView(t, groups, view)
    ensures IsSortOf(PolicyLess, Map(PolicyOf(groups), Parsable(slices)), view)
  {
    ReorderedSame(slices, t);
    ParsableMembers(t);
    var es :| AreEntriesOf(Parsable(t), groups, es) && IsSortOf(PolicyLess, es, view);
    OnlyEntries(Parsable(t), groups, es);
    ParsableReordered(slices, t);
    MapPermutation(PolicyOf(groups), Parsable(slices), Parsable(t));
  }

  // ---------- the QoS index ----------

  /** What a direct search of the device groups finds for (dnn, imsi), printed. */
  function Answers(groups: map<string, Group>, dnn: string, imsi: string): set<ImsiQos> {
    set name, d | name in groups && imsi in groups[name].imsis && d in groups[name].domains && Serves(d, dnn)
      :: ImsiQos(Bitrate.ConvertToString(Bitrate.ToUint64(d.qos.value.uplink)),
                 Bitrate.ConvertToString(Bitrate.ToUint64(d.qos.value.downlink)),
                 d.qos.value.trafficClass.value.qci, d.qos.value.trafficClass.value.arp)
  }

  /** A domain with this DNN that has QoS and a traffic class. */
  predicate Serves(d: IpDomain, dnn: string) { d.dnn == dnn && d.qos.Some? && d.qos.value.trafficClass.Some? }

  lemma {:induction false} GroupQosMembers(imsis: seq<string>, domains: seq<IpDomain>, e: ImsiQosConfig)
    ensures e in GroupQos(imsis, domains) <==> exists d :: d in domains && EntryOfDomain(e, imsis, d)
  {
    if domains != [] {
      var front, d := domains[..|domains| - 1], domains[|domains| - 1];
      assert domains == front + [d];
      GroupQosMembers(imsis, front, e);
      assert EntryOfDomain(e, imsis, d) <==> ImsiQosOf(d).Some? && e in [ImsiQosConfig(imsis, d.dnn, [ImsiQosOf(d).value])];
    }
  }

  predicate EntryOfDomain(e: ImsiQosConfig, imsis: seq<string>, d: IpDomain) {
    ImsiQosOf(d).Some? && e == ImsiQosConfig(imsis, d.dnn, [ImsiQosOf(d).value])
  }

  lemma {:induction false} QosEntriesMembers(groups: map<string, Group>, order: seq<string>, e: ImsiQosConfig)
    ensures e in QosEntries(groups, order) <==>
            exists name :: name in order && name in groups && e in GroupQos(groups[name].imsis, groups[name].domains)
  {
    if order != [] {
      var front, last := order[..|order| - 1], order[|order| - 1];
      assert order == front + [last];
      QosEntriesMembers(groups, front, e);
    }
  }

  /** Membership in the index, in terms of the stored groups. */
  lemma QosViewMembers(groups: map<string, Group>, view: seq<ImsiQosConfig>, e: ImsiQosConfig)
    requires IsQosView(groups, view)
    ensures e in view <==>
            exists name, d :: name in groups && d in groups[name].domains && EntryOfDomain(e, groups[name].imsis, d)
  {
    var order :| Enumerates(order, groups.Keys) && IsSortOf(QosLess, QosEntries(groups, order), view);
    SortOfMembers(QosLess, QosEntries(groups, order), view);
    QosEntriesMembers(groups, order, e);
    if e in view {
      var name :| name in groups && e in GroupQos(groups[name].imsis, groups[name].domains);
      GroupQosMembers(groups[name].imsis, groups[name].domains, e);
    }
    if name, d :| name in groups && d in groups[name].domains && EntryOfDomain(e, groups[name].imsis, d) {
      GroupQosMembers(groups[name].imsis, groups[name].domains, e);
      assert name in order;
    }
  }

  predicate Hits(e: ImsiQosConfig, dnn: string, imsi: string) { e.dnn == dnn && imsi in e.imsis }

  lemma {:induction false} NoMatch(index: seq<ImsiQosConfig>, dnn: string, imsi: string)
    requires forall e :: e in index ==> !Hits(e, dnn, imsi)
    ensures FirstMatch(index, dnn, imsi) == []
  {
    if index != [] {
      assert !Hits(index[0], dnn, imsi);
      NoMatch(index[1..], dnn, imsi);
    }
  }

  lemma {:induction false} FirstMatchAt(index: seq<ImsiQosConfig>, dnn: string, imsi: string, i: nat)
    requires i < |index| && Hits(index[i], dnn, imsi) && forall j :: 0 <= j < i ==> !Hits(index[j], dnn, imsi)
    ensures FirstMatch(index, dnn, imsi) == index[i].qos
  {
    if i > 0 { FirstMatchAt(index[1..], dnn, imsi, i - 1); }
  }

  lemma FirstHit(index: seq<ImsiQosConfig>, dnn: string, imsi: string) returns (i: nat)
    requires exists e :: e in index && Hits(e, dnn, imsi)
    ensures i < |index| && Hits(index[i], dnn, imsi) && forall j :: 0 <= j < i ==> !Hits(index[j], dnn, imsi)
    ensures FirstMatch(index, dnn, imsi) == index[i].qos
  {
    i := 0;
    while !Hits(index[i], dnn, imsi)
      invariant i < |index| && forall j :: 0 <= j < i ==> !Hits(index[j], dnn, imsi)
      invariant exists k :: i <= k < |index| && Hits(index[k], dnn, imsi)
      decreases |index| - i
    {
      i := i + 1;
    }
    FirstMatchAt(index, dnn, imsi, i);
  }

  /** The lookup over the index answers exactly when the direct search finds something, with
      one of the values it finds. */
  lemma QosLookupRefinesSearch(groups: map<string, Group>, view: seq<ImsiQosConfig>, dnn: string, imsi: string)
    requires IsQosView(groups, view)
    ensures FirstMatch(view, dnn, imsi) == [] <==> Answers(groups, dnn, imsi) == {}
    ensures FirstMatch(view, dnn, imsi) != [] ==>
              |FirstMatch(view, dnn, imsi)| == 1 && FirstMatch(view, dnn, imsi)[0] in Answers(groups, dnn, imsi)
  {
    if exists e :: e in view && Hits(e, dnn, imsi) {
      var i := FirstHit(view, dnn, imsi);
      HitIsAnswer(groups, view, view[i], dnn, imsi);
    } else {
      NoMatch(view, dnn, imsi);
      forall q | q in Answers(groups, dnn, imsi) ensures false {
        var e := AnswerIsHit(groups, view, q, dnn, imsi);
      }
    }
  }

  /** The answer of the lookup is the profile of a stored IP domain of that DNN, in a group that
      holds the IMSI: its class, and its rates cut down to whole units of the print. */
  lemma QosAnswerHolds(groups: map<string, Group>, view: seq<ImsiQosConfig>, dnn: string, imsi: string, x: ImsiQos)
    returns (name: string, d: IpDomain)
    requires IsQosView(groups, view) && FirstMatch(view, dnn, imsi) == [x]
    ensures name in groups && imsi in groups[name].imsis && d in groups[name].domains && d.dnn == dnn
    ensures d.qos.Some? && d.qos.value.trafficClass.Some?
    ensures x.qci == d.qos.value.trafficClass.value.qci && x.arp == d.qos.value.trafficClass.value.arp
    ensures d.qos.value.uplink >= 0 ==> Bitrate.ReadRate(x.uplink) == Some(Bitrate.ReadBackValue(d.qos.value.uplink))
    ensures d.qos.value.downlink >= 0 ==> Bitrate.ReadRate(x.downlink) == Some(Bitrate.ReadBackValue(d.qos.value.downlink))
  {
    QosLookupRefinesSearch(groups, view, dnn, imsi);
    assert x in Answers(groups, dnn, imsi);
    name, d :| name in groups && imsi in groups[name].imsis && d in groups[name].domains && Serves(d, dnn)
      && x == ImsiQos(Bitrate.ConvertToString(Bitrate.ToUint64(d.qos.value.uplink)),
                      Bitrate.ConvertToString(Bitrate.ToUint64(d.qos.value.downlink)),
                      d.qos.value.trafficClass.value.qci, d.qos.value.trafficClass.value.arp);
    if d.qos.value.uplink >= 0 { Bitrate.ReadBackIs(d.qos.value.uplink); }
    if d.qos.value.downlink >= 0 { Bitrate.ReadBackIs(d.qos.value.downlink); }
  }

  lemma HitIsAnswer(groups: map<string, Group>, view: seq<ImsiQosConfig>, e: ImsiQosConfig, dnn: string, imsi: string)
    requires IsQosView(groups, view) && e in view && Hits(e, dnn, imsi)
    ensures |e.qos| == 1 && e.qos[0] in Answers(groups, dnn, imsi)
  {
    hide IsQosView, Bitrate.ConvertToString, Bitrate.ToUint64;
    QosViewMembers(groups, view, e);
    var name, d :| name in groups && d in groups[name].domains && EntryOfDomain(e, groups[name].imsis, d);
    assert Serves(d, dnn);
  }

  lemma AnswerIsHit(groups: map<string, Group>, view: seq<ImsiQosConfig>, q: ImsiQos, dnn: string, imsi: string)
    returns (e: ImsiQosConfig)
    requires IsQosView(groups, view) && q in Answers(groups, dnn, imsi)
    ensures e in view && Hits(e, dnn, imsi) && e.qos == [q]
  {
    hide IsQosView, Bitrate.ConvertToString, Bitrate.ToUint64;
    var name, d :| name in groups && imsi in groups[name].imsis && d in groups[name].domains && Serves(d, dnn)
                   && ImsiQosOf(d).value == q;
    e := ImsiQosConfig(groups[name].imsis, d.dnn, [q]);
    assert EntryOfDomain(e, groups[name].imsis, d);
    QosViewMembers(groups, view, e);
  }

  /** Some walk of the groups and some tie-breaking of the sort puts a given answer first. */
  lemma AnswerCanComeFirst(groups: map<string, Group>, q: ImsiQos, dnn: string, imsi: string) returns (view: seq<ImsiQosConfig>)
    requires q in Answers(groups, dnn, imsi)
    ensures IsQosView(groups, view) && FirstMatch(view, dnn, imsi) == [q]
  {
    StringOrder();
    KeyOrder(QosLess, (e: ImsiQosConfig) => e.dnn, StringLess);
    var order := EnumerationOf(groups.Keys);
    var es := QosEntries(groups, order);
    var v := InsertionSort(QosLess, es);
    InsertionSortSorts(QosLess, es);
    assert IsQosView(groups, v);
    var e := AnswerIsHit(groups, v, q, dnn, imsi);
    view := BringForward(v, e, dnn, imsi);
    assert IsSortOf(QosLess, es, view);
  }

  lemma BringForward(v: seq<ImsiQosConfig>, e: ImsiQosConfig, dnn: string, imsi: string) returns (view: seq<ImsiQosConfig>)
    requires StrictWeakOrder(QosLess) && Sorted(QosLess, v) && e in v && Hits(e, dnn, imsi)
    ensures IsSortOf(QosLess, v, view) && FirstMatch(view, dnn, imsi) == e.qos
  {
    var i := FirstHit(v, dnn, imsi);
    var j :| 0 <= j < |v| && v[j] == e;
    if i == j {
      view := v;
    } else {
      StringLessIrreflexive(dnn);
      SwappingTies(QosLess, v, i, j);
      view := v[i := v[j]][j := v[i]];
      SwapPutsFirst(v, i, j, dnn, imsi);
    }
  }

  lemma SwapPutsFirst(v: seq<ImsiQosConfig>, i: nat, j: nat, dnn: string, imsi: string)
    requires i < j < |v| && Hits(v[j], dnn, imsi)
    requires forall k :: 0 <= k < i ==> !Hits(v[k], dnn, imsi)
    ensures FirstMatch(v[i := v[j]][j := v[i]], dnn, imsi) == v[j].qos
  {
    var view := v[i := v[j]][j := v[i]];
    assert Hits(view[i], dnn, imsi);
    assert forall k :: 0 <= k < i ==> view[k] == v[k];
    FirstMatchAt(view, dnn, imsi, i);
  }

  /** The answer does not depend on map order or tie-breaking if and only if the direct search
      finds at most one value. */
  lemma QosAnswerDeterminedIff(groups: map<string, Group>, dnn: string, imsi: string)
    ensures (forall v, w :: IsQosView(groups, v) && IsQosView(groups, w) ==> FirstMatch(v, dnn, imsi) == FirstMatch(w, dnn, imsi))
       <==> (forall p, q :: p in Answers(groups, dnn, imsi) && q in Answers(groups, dnn, imsi) ==> p == q)
  {
    hide Answers, IsQosView, FirstMatch;
    if p, q :| p in Answers(groups, dnn, imsi) && q in Answers(groups, dnn, imsi) && p != q {
      var v := AnswerCanComeFirst(groups, p, dnn, imsi);
      var w := AnswerCanComeFirst(groups, q, dnn, imsi);
      assert FirstMatch(v, dnn, imsi) != FirstMatch(w, dnn, imsi);
    } else {
      forall v, w | IsQosView(groups, v) && IsQosView(groups, w) ensures FirstMatch(v, dnn, imsi) == FirstMatch(w, dnn, imsi) {
        QosLookupRefinesSearch(groups, v, dnn, imsi);
        QosLookupRefinesSearch(groups, w, dnn, imsi);
      }
    }
  }

  // ---------- every field can be computed ----------

  lemma {:induction false} SnssaiListExists(ids: set<SliceId>) returns (list: seq<Snssai>)
    ensures ListsSnssais(ids, list)
  {
    if ids == {} {
      list := [];
      assert forall x :: Spellings(ids, x) == {};
    } else {
      var id :| id in ids;
      var rest := SnssaiListExists(ids - {id});
      var x := ParseSnssai(id);
      list := rest + if x.Some? then [x.value] else [];
      assert ids - {id} + {id} == ids;
      forall y { SpellingsStep(ids - {id}, id, y); }
    }
  }

  lemma SnssaiEntryExists(m: map<Plmn, set<SliceId>>, p: Plmn) returns (e: PlmnSnssai)
    requires p in m && exists id :: id in m[p] && ParseSnssai(id).Some?
    ensures e.plmn == p && IsSnssaiEntry(m, e)
  {
    var list := SnssaiListExists(m[p]);
    NonEmptyListing(m[p], list);
    SnssaiOrder();
    TotalIsWeak(SnssaiLess);
    InsertionSortSorts(SnssaiLess, list);
    SortOfMembers(SnssaiLess, list, InsertionSort(SnssaiLess, list));
    e := PlmnSnssai(p, InsertionSort(SnssaiLess, list));
  }

  lemma {:induction false} SnssaiEntriesExist(m: map<Plmn, set<SliceId>>, plmns: seq<Plmn>) returns (es: seq<PlmnSnssai>)
    requires forall p :: p in plmns ==> p in m && exists id :: id in m[p] && ParseSnssai(id).Some?
    ensures |es| == |plmns| && forall i :: 0 <= i < |es| ==> es[i].plmn == plmns[i] && IsSnssaiEntry(m, es[i])
  {
    es := [];
    for i := 0 to |plmns|
      invariant |es| == i && forall k :: 0 <= k < i ==> es[k].plmn == plmns[k] && IsSnssaiEntry(m, es[k])
    {
      var e := SnssaiEntryExists(m, plmns[i]);
      es := es + [e];
    }
  }

  lemma SnssaiListingExists(m: map<Plmn, set<SliceId>>) returns (view: seq<PlmnSnssai>)
    ensures IsSnssaiListing(m, view)
  {
    var some := set p | p in m && exists id :: id in m[p] && ParseSnssai(id).Some?;
    var order := EnumerationOf(some);
    PlmnOrder();
    TotalIsWeak(PlmnLess);
    InsertionSortSorts(PlmnLess, order);
    var plmns := InsertionSort(PlmnLess, order);
    SortedDistinct(PlmnLess, order, plmns, some);
    view := SnssaiEntriesExist(m, plmns);
    forall p, id | p in m && id in m[p] && ParseSnssai(id).Some? ensures exists e :: e in view && e.plmn == p {
      assert p in plmns;
      var i :| 0 <= i < |plmns| && plmns[i] == p;
      assert view[i] in view;
    }
  }

  lemma {:induction false} PolicyEntriesExist(slices: seq<Slice>, groups: map<string, Group>) returns (es: seq<PolicyControl>)
    requires forall s :: s in slices ==> ParseSnssai(s.id).Some?
    ensures AreEntriesOf(slices, groups, es)
  {
    es := [];
    for i := 0 to |slices|
      invariant |es| == i && forall k :: 0 <= k < i ==> IsPolicyEntry(slices[k], groups, es[k])
    {
      var e := PolicyEntryExists(slices[i], groups);
      es := es + [e];
    }
  }

  lemma PolicyEntryExists(s: Slice, groups: map<string, Group>) returns (e: PolicyControl)
    requires ParseSnssai(s.id).Some?
    ensures IsPolicyEntry(s, groups, e)
  {
    StringOrderIsWeak();
    InsertionSortSorts(StringLess, Dnns(DomainsOf(s.groups, groups)));
    RuleOrder();
    InsertionSortSorts(RuleLess, UnsortedRules(s));
    e := PolicyControl(s.plmn, ParseSnssai(s.id).value,
                       InsertionSort(StringLess, Dnns(DomainsOf(s.groups, groups))),
                       InsertionSort(RuleLess, UnsortedRules(s)));
  }

  lemma PolicyViewExists(slices: seq<Slice>, groups: map<string, Group>) returns (view: seq<PolicyControl>)
    ensures IsPolicyView(slices, groups, view)
  {
    ParsableMembers(slices);
    var es := PolicyEntriesExist(Parsable(slices), groups);
    PlmnThenSnssaiOrder();
    KeyOrder(PolicyLess, (e: PolicyControl) => (e.plmn, e.snssai), PlmnThenSnssaiLess);
    InsertionSortSorts(PolicyLess, es);
    view := InsertionSort(PolicyLess, es);
  }

  /** Whatever is stored, each field has a value that the code could publish for it. */
  lemma FieldExists(k: nat, slices: seq<Slice>, groups: map<string, Group>, c: Config) returns (d: Config)
    requires k < FIELDS
    ensures OnlyFieldChanges(k, c, d) && FieldIs(k, slices, groups, d)
  {
    match k
    case 0 =>
      PlmnOrder();
      TotalIsWeak(PlmnLess);
      InsertionSortSorts(PlmnLess, FirstPlmns(slices));
      d := c.(plmn := InsertionSort(PlmnLess, FirstPlmns(slices)));
    case 1 =>
      var v := SnssaiListingExists(IdsByPlmn(slices));
      d := c.(plmnSnssai := v);
    case 2 =>
      AmOrder();
      var tacs := TacsByKey(slices);
      var keys := EnumerationOf(ParsableKeys(tacs));
      InsertionSortSorts(AmLess, AmEntries(tacs, keys));
      d := c.(accessAndMobility := InsertionSort(AmLess, AmEntries(tacs, keys)));
    case 3 =>
      StringOrder();
      KeyOrder(SessionLess, (e: SessionManagement) => e.sliceName, StringLess);
      InsertionSortSorts(SessionLess, Sessions(slices, groups));
      d := c.(sessionManagement := InsertionSort(SessionLess, Sessions(slices, groups)));
    case 4 =>
      var v := PolicyViewExists(slices, groups);
      d := c.(policyControl := v);
    case 5 =>
      StringOrder();
      KeyOrder(QosLess, (e: ImsiQosConfig) => e.dnn, StringLess);
      var order := EnumerationOf(groups.Keys);
      InsertionSortSorts(QosLess, QosEntries(groups, order));
      d := c.(imsiQos := InsertionSort(QosLess, QosEntries(groups, order)));
  }
}
