/** Stored collections as lists of documents, and the three operations the handlers use. Which
    of several matching documents an operation picks is left open, and any operation may fail
    unless the store is reliable; a failed operation changes nothing. */
module DbAdapter {
  import opened Prelude

  predicate Matches<D>(docs: seq<D>, filter: D -> bool) {
    exists i :: 0 <= i < |docs| && filter(docs[i])
  }

  function WithoutAt<D>(docs: seq<D>, i: nat): seq<D>
    requires i < |docs|
  {
    docs[..i] + docs[i + 1..]
  }

  /** A $set of every field. */
  function Becomes<D>(d: D): D -> D { _ => d }

  /** Update one match by $set, or insert. */
  ghost predicate PostResult<D>(before: seq<D>, filter: D -> bool, patch: D -> D, created: D, after: seq<D>) {
    if Matches(before, filter)
    then exists i :: 0 <= i < |before| && filter(before[i]) && after == before[i := patch(before[i])]
    else after == before + [created]
  }

  /** Remove one match, if there is one. */
  ghost predicate DeleteResult<D>(before: seq<D>, filter: D -> bool, after: seq<D>) {
    if Matches(before, filter)
    then exists i :: 0 <= i < |before| && filter(before[i]) && after == WithoutAt(before, i)
    else after == before
  }

  method PostOne<D>(docs: seq<D>, filter: D -> bool, patch: D -> D, created: D, reliable: bool) returns (after: seq<D>, err: bool)
    ensures reliable ==> !err
    ensures err ==> after == docs
    ensures !err ==> PostResult(docs, filter, patch, created, after)
  {
    err := *;
    if err && !reliable { return docs, true; }
    if i :| 0 <= i < |docs| && filter(docs[i]) {
      return docs[i := patch(docs[i])], false;
    } else {
      return docs + [created], false;
    }
  }

  method DeleteOne<D>(docs: seq<D>, filter: D -> bool, reliable: bool) returns (after: seq<D>, err: bool)
    ensures reliable ==> !err
    ensures err ==> after == docs
    ensures !err ==> DeleteResult(docs, filter, after)
  {
    err := *;
    if err && !reliable { return docs, true; }
    if i :| 0 <= i < |docs| && filter(docs[i]) {
      return WithoutAt(docs, i), false;
    } else {
      return docs, false;
    }
  }

  function Not<D>(filter: D -> bool): D -> bool { d => !filter(d) }

  function Select<D>(docs: seq<D>, filter: D -> bool): seq<D> {
    if docs == [] then []
    else Select(docs[..|docs| - 1], filter) + if filter(docs[|docs| - 1]) then [docs[|docs| - 1]] else []
  }

  lemma {:induction false} SelectMembers<D(!new)>(docs: seq<D>, filter: D -> bool)
    ensures forall d :: d in Select(docs, filter) <==> d in docs && filter(d)
  {
    if docs != [] {
      assert docs == docs[..|docs| - 1] + [docs[|docs| - 1]];
      SelectMembers(docs[..|docs| - 1], filter);
    }
  }

  /** kept is what remains of docs at these increasing positions, which are all the matching ones. */
  ghost predicate KeptAt<D>(docs: seq<D>, filter: D -> bool, kept: seq<D>, at: seq<nat>) {
    && |at| == |kept|
    && (forall i :: 0 <= i < |at| ==> at[i] < |docs| && kept[i] == docs[at[i]])
    && (forall i, j :: 0 <= i < j < |at| ==> at[i] < at[j])
    && (forall k :: 0 <= k < |docs| ==> (filter(docs[k]) <==> k in at))
  }

  lemma KeptAtExtended<D>(docs: seq<D>, filter: D -> bool, kept: seq<D>, at: seq<nat>, d: D)
    requires KeptAt(docs, filter, kept, at)
    ensures filter(d) ==> KeptAt(docs + [d], filter, kept + [d], at + [|docs|])
    ensures !filter(d) ==> KeptAt(docs + [d], filter, kept, at)
  {
    assert |docs| !in at;
    assert forall k :: 0 <= k < |docs| ==> (docs + [d])[k] == docs[k];
    assert forall k :: k in at + [|docs|] <==> k in at || k == |docs|;
  }

  lemma {:induction false} SelectPositions<D>(docs: seq<D>, filter: D -> bool) returns (at: seq<nat>)
    ensures KeptAt(docs, filter, Select(docs, filter), at)
  {
    at := [];
    if docs != [] {
      hide KeptAt;
      var n := |docs| - 1;
      at := SelectPositions(docs[..n], filter);
      KeptAtExtended(docs[..n], filter, Select(docs[..n], filter), at, docs[n]);
      assert docs == docs[..n] + [docs[n]];
      if filter(docs[n]) { at := at + [n]; }
    }
  }

  /** The matching documents in some order. */
  method FindMany<D(!new)>(docs: seq<D>, filter: D -> bool, reliable: bool) returns (found: seq<D>, err: bool)
    ensures reliable ==> !err
    ensures !err ==> multiset(found) == multiset(Select(docs, filter))
  {
    err := *;
    if err && !reliable { return [], true; }
    return Select(docs, filter), false;
  }

  // ---------- collections with at most one document per key ----------

  predicate HasKey<D, K(==)>(docs: seq<D>, key: D -> K, k: K) {
    exists i :: 0 <= i < |docs| && key(docs[i]) == k
  }

  /** The collection holds exactly one document for each key that look knows, and no other. */
  ghost predicate Holds<D, K(!new), V>(docs: seq<D>, key: D -> K, val: D -> V, look: K -> Option<V>) {
    && (forall i, j :: 0 <= i < j < |docs| ==> key(docs[i]) != key(docs[j]))
    && (forall i :: 0 <= i < |docs| ==> look(key(docs[i])) == Some(val(docs[i])))
    && (forall k {:trigger HasKey(docs, key, k)} :: look(k).Some? ==> HasKey(docs, key, k))
  }

  lemma HoldsSame<D, K(!new), V>(docs: seq<D>, key: D -> K, val: D -> V, look: K -> Option<V>, newLook: K -> Option<V>)
    requires Holds(docs, key, val, look) && forall k :: newLook(k) == look(k)
    ensures Holds(docs, key, val, newLook)
  {
    forall k | newLook(k).Some? ensures HasKey(docs, key, k) {
      assert look(k).Some?;
    }
  }

  /** The keys before and after agree except that at k the value is now v. */
  ghost predicate ChangesTo<K(!new), V>(look: K -> Option<V>, newLook: K -> Option<V>, k: K, v: Option<V>) {
    newLook(k) == v && forall k' :: k' != k ==> newLook(k') == look(k')
  }

  lemma InsertHolds<D, K(!new), V>(docs: seq<D>, created: D, key: D -> K, val: D -> V, look: K -> Option<V>, newLook: K -> Option<V>)
    requires Holds(docs, key, val, look) && look(key(created)).None?
    requires ChangesTo(look, newLook, key(created), Some(val(created)))
    ensures Holds(docs + [created], key, val, newLook)
  {
    var after := docs + [created];
    forall k | newLook(k).Some? ensures HasKey(after, key, k) {
      if k == key(created) {
        assert key(after[|docs|]) == k;
      } else {
        assert HasKey(docs, key, k);
        var i :| 0 <= i < |docs| && key(docs[i]) == k;
        assert key(after[i]) == k;
      }
    }
  }

  lemma ReplaceHolds<D, K(!new), V>(docs: seq<D>, i: nat, d: D, key: D -> K, val: D -> V, look: K -> Option<V>, newLook: K -> Option<V>)
    requires i < |docs| && Holds(docs, key, val, look) && key(d) == key(docs[i])
    requires ChangesTo(look, newLook, key(d), Some(val(d)))
    ensures Holds(docs[i := d], key, val, newLook)
  {
    var after := docs[i := d];
    assert forall j :: 0 <= j < |docs| ==> key(after[j]) == key(docs[j]);
    forall k | newLook(k).Some? ensures HasKey(after, key, k) {
      if k == key(d) {
        assert key(after[i]) == k;
      } else {
        assert HasKey(docs, key, k);
        var j :| 0 <= j < |docs| && key(docs[j]) == k;
        assert key(after[j]) == k;
      }
    }
  }

  /** Like ReplaceHolds, but the document moves to a key that had none. */
  lemma RekeyHolds<D, K(!new), V>(docs: seq<D>, i: nat, d: D, key: D -> K, val: D -> V, look: K -> Option<V>, newLook: K -> Option<V>)
    requires i < |docs| && Holds(docs, key, val, look) && look(key(d)).None?
    requires newLook(key(docs[i])).None? && newLook(key(d)) == Some(val(d))
    requires forall k :: k != key(d) && k != key(docs[i]) ==> newLook(k) == look(k)
    ensures Holds(docs[i := d], key, val, newLook)
  {
    var after := docs[i := d];
    forall k | newLook(k).Some? ensures HasKey(after, key, k) {
      if k == key(d) {
        assert key(after[i]) == k;
      } else {
        assert HasKey(docs, key, k);
        var j :| 0 <= j < |docs| && key(docs[j]) == k;
        assert key(after[j]) == k;
      }
    }
  }

  lemma RemoveHolds<D, K(!new), V>(docs: seq<D>, i: nat, key: D -> K, val: D -> V, look: K -> Option<V>, newLook: K -> Option<V>)
    requires i < |docs| && Holds(docs, key, val, look)
    requires ChangesTo(look, newLook, key(docs[i]), None)
    ensures Holds(WithoutAt(docs, i), key, val, newLook)
  {
    var after := WithoutAt(docs, i);
    assert forall j :: 0 <= j < |after| ==> after[j] == docs[if j < i then j else j + 1];
    forall k | newLook(k).Some? ensures HasKey(after, key, k) {
      assert HasKey(docs, key, k);
      var j :| 0 <= j < |docs| && key(docs[j]) == k;
      assert key(after[if j < i then j else j - 1]) == k;
    }
  }

  lemma KeyPresent<D, K(!new), V>(docs: seq<D>, filter: D -> bool, k: K, key: D -> K, val: D -> V, look: K -> Option<V>)
    requires Holds(docs, key, val, look) && look(k).Some?
    requires forall i :: 0 <= i < |docs| ==> (filter(docs[i]) <==> key(docs[i]) == k)
    ensures Matches(docs, filter)
  {
    assert HasKey(docs, key, k);
    var i :| 0 <= i < |docs| && key(docs[i]) == k;
    assert filter(docs[i]);
  }

  /** Posting under a key updates or inserts exactly that key's document. */
  lemma PostHolds<D, K(!new), V>(before: seq<D>, after: seq<D>, filter: D -> bool, patch: D -> D, created: D,
                                 key: D -> K, val: D -> V, look: K -> Option<V>, newLook: K -> Option<V>)
    requires Holds(before, key, val, look) && PostResult(before, filter, patch, created, after)
    requires forall i :: 0 <= i < |before| ==> (filter(before[i]) <==> key(before[i]) == key(created))
    requires forall i :: 0 <= i < |before| && filter(before[i]) ==> key(patch(before[i])) == key(created) && val(patch(before[i])) == val(created)
    requires ChangesTo(look, newLook, key(created), Some(val(created)))
    ensures Holds(after, key, val, newLook)
  {
    if Matches(before, filter) {
      var i :| 0 <= i < |before| && filter(before[i]) && after == before[i := patch(before[i])];
      ReplaceHolds(before, i, patch(before[i]), key, val, look, newLook);
    } else {
      if look(key(created)).Some? { KeyPresent(before, filter, key(created), key, val, look); }
      InsertHolds(before, created, key, val, look, newLook);
    }
  }

  /** Because a key has at most one document, deleting one match deletes all of them. */
  lemma DeleteHolds<D, K(!new), V>(before: seq<D>, after: seq<D>, filter: D -> bool, k: K,
                                   key: D -> K, val: D -> V, look: K -> Option<V>, newLook: K -> Option<V>)
    requires Holds(before, key, val, look) && DeleteResult(before, filter, after)
    requires forall i :: 0 <= i < |before| ==> (filter(before[i]) <==> key(before[i]) == k)
    requires ChangesTo(look, newLook, k, None)
    ensures Holds(after, key, val, newLook)
    ensures after == Select(before, Not(filter))
  {
    if Matches(before, filter) {
      var i :| 0 <= i < |before| && filter(before[i]) && after == WithoutAt(before, i);
      RemoveHolds(before, i, key, val, look, newLook);
      SelectAllBut(before, filter, i);
    } else {
      if look(k).Some? { KeyPresent(before, filter, k, key, val, look); }
      HoldsSame(before, key, val, look, newLook);
      SelectAll(before, filter);
    }
  }

  lemma {:induction false} SelectAll<D>(docs: seq<D>, filter: D -> bool)
    requires !Matches(docs, filter)
    ensures Select(docs, Not(filter)) == docs
  {
    if docs != [] {
      var n := |docs| - 1;
      assert docs == docs[..n] + [docs[n]];
      assert !filter(docs[n]);
      forall i | 0 <= i < n ensures !filter(docs[..n][i]) {
        assert docs[..n][i] == docs[i];
      }
      SelectAll(docs[..n], filter);
    }
  }

  lemma {:induction false} SelectAllBut<D>(docs: seq<D>, filter: D -> bool, i: nat)
    requires i < |docs| && filter(docs[i]) && forall j :: 0 <= j < |docs| && j != i ==> !filter(docs[j])
    ensures Select(docs, Not(filter)) == WithoutAt(docs, i)
  {
    var n := |docs| - 1;
    if i == n {
      SelectAll(docs[..n], filter);
      assert WithoutAt(docs, i) == docs[..n];
    } else {
      SelectAllBut(docs[..n], filter, i);
      assert WithoutAt(docs, i) == WithoutAt(docs[..n], i) + [docs[n]];
    }
  }

  /** With at most one match, deleting one match deletes all of them. */
  lemma DeleteOnly<D>(before: seq<D>, after: seq<D>, filter: D -> bool) returns (i: nat)
    requires DeleteResult(before, filter, after)
    requires forall i, j :: 0 <= i < j < |before| ==> !filter(before[i]) || !filter(before[j])
    ensures after == Select(before, Not(filter))
    ensures i <= |before| && after == if i < |before| then WithoutAt(before, i) else before
  {
    if Matches(before, filter) {
      i :| 0 <= i < |before| && filter(before[i]) && after == WithoutAt(before, i);
      SelectAllBut(before, filter, i);
    } else {
      i := |before|;
      SelectAll(before, filter);
    }
  }

  lemma WithoutAtApart<D, K>(before: seq<D>, i: nat, key: D -> K)
    requires i < |before| && forall j, k :: 0 <= j < k < |before| ==> key(before[j]) != key(before[k])
    ensures var after := WithoutAt(before, i); forall j, k :: 0 <= j < k < |after| ==> key(after[j]) != key(after[k])
  {
    var after := WithoutAt(before, i);
    assert forall j :: 0 <= j < |after| ==> after[j] == before[if j < i then j else j + 1];
  }
}
