/** Collections of records with unique names, and what changing their matching records one
    after the other leaves. */
module NamedRecords {
  import opened Prelude
  import opened DbAdapter

  ghost predicate UniqueNames<D>(docs: seq<D>, name: D -> string) {
    forall i, j :: 0 <= i < j < |docs| ==> name(docs[i]) != name(docs[j])
  }

  lemma {:induction false} SelectUnique<D(!new)>(docs: seq<D>, name: D -> string, filter: D -> bool)
    requires UniqueNames(docs, name)
    ensures UniqueNames(Select(docs, filter), name)
  {
    if docs != [] {
      var front, last := docs[..|docs| - 1], docs[|docs| - 1];
      SelectUnique(front, name, filter);
      SelectMembers(front, filter);
      var kept := Select(front, filter);
      forall i | 0 <= i < |kept| ensures name(kept[i]) != name(last) {
        assert kept[i] in front;
      }
    }
  }

  lemma {:induction false} OnceEach<D>(docs: seq<D>, name: D -> string, d: D)
    requires UniqueNames(docs, name)
    ensures multiset(docs)[d] <= 1
  {
    if docs != [] {
      var front, last := docs[..|docs| - 1], docs[|docs| - 1];
      assert docs == front + [last];
      OnceEach(front, name, d);
      assert last !in front;
      assert last !in multiset(front);
    }
  }

  lemma UniqueInAnyOrder<D>(a: seq<D>, b: seq<D>, name: D -> string)
    requires UniqueNames(a, name) && multiset(a) == multiset(b)
    ensures UniqueNames(b, name) && forall d :: d in b <==> d in a
  {
    forall d ensures d in b <==> d in a {
      assert d in a <==> d in multiset(a);
      assert d in b <==> d in multiset(b);
    }
    forall i, j | 0 <= i < j < |b| ensures name(b[i]) != name(b[j]) {
      OnceEach(a, name, b[i]);
      assert b[i] in a && b[j] in a;
      if b[i] == b[j] { OccursTwice(b, i, j); }
    }
  }

  /** A listing of the matching records has each of them once. */
  lemma FoundRecords<D(!new)>(docs: seq<D>, name: D -> string, filter: D -> bool, found: seq<D>)
    requires UniqueNames(docs, name) && multiset(found) == multiset(Select(docs, filter))
    ensures UniqueNames(found, name) && forall d :: d in found <==> d in docs && filter(d)
  {
    SelectUnique(docs, name, filter);
    SelectMembers(docs, filter);
    UniqueInAnyOrder(Select(docs, filter), found, name);
  }

  function Changed<D>(filter: D -> bool, change: D -> D): D -> D {
    (d: D) => if filter(d) then change(d) else d
  }

  /** Each record is as before, or it matched and is changed. */
  ghost predicate Between<D>(before: seq<D>, now: seq<D>, filter: D -> bool, change: D -> D) {
    |now| == |before|
    && forall k :: 0 <= k < |before| ==> now[k] == before[k] || (filter(before[k]) && now[k] == change(before[k]))
  }

  /** The records done are changed if complete, and the others are as before. */
  ghost predicate Progress<D>(before: seq<D>, now: seq<D>, done: seq<D>, change: D -> D, complete: bool) {
    && |now| == |before|
    && (forall k :: 0 <= k < |before| ==> now[k] == before[k] || (before[k] in done && now[k] == change(before[k])))
    && (complete ==> forall k :: 0 <= k < |before| && before[k] in done ==> now[k] == change(before[k]))
  }

  /** Changing the next found record, in place, or failing to. */
  lemma ProgressStep<D>(before: seq<D>, now: seq<D>, name: D -> string, found: seq<D>, i: nat, change: D -> D, complete: bool)
    returns (k: nat)
    requires UniqueNames(before, name) && UniqueNames(found, name) && forall d :: d in before ==> name(change(d)) == name(d)
    requires i < |found| && found[i] in before && Progress(before, now, found[..i], change, complete)
    ensures UniqueNames(now, name) && k < |now| && now[k] == found[i]
    ensures Progress(before, now, found[..i + 1], change, false)
    ensures Progress(before, now[k := change(found[i])], found[..i + 1], change, false)
    ensures Progress(before, now[k := change(found[i])], found[..i + 1], change, complete)
  {
    var d := found[i];
    k :| 0 <= k < |before| && before[k] == d;
    assert d !in found[..i];
    assert forall j :: 0 <= j < |now| ==> name(now[j]) == name(before[j]) by {
      forall j | 0 <= j < |now| ensures name(now[j]) == name(before[j]) {
        assert before[j] in before;
      }
    }
    assert forall x :: x in found[..i + 1] <==> x in found[..i] || x == d;
  }

  lemma ProgressBetween<D>(before: seq<D>, now: seq<D>, done: seq<D>, filter: D -> bool, change: D -> D, complete: bool)
    requires Progress(before, now, done, change, complete) && forall d :: d in done ==> filter(d)
    ensures Between(before, now, filter, change)
  {
  }

  lemma AllChanged<D>(before: seq<D>, now: seq<D>, found: seq<D>, filter: D -> bool, change: D -> D)
    requires Progress(before, now, found, change, true) && forall d :: d in found <==> d in before && filter(d)
    ensures now == Map(Changed(filter, change), before)
  {
    forall k | 0 <= k < |before| ensures now[k] == Changed(filter, change)(before[k]) {
      assert before[k] in before;
    }
  }

  lemma RecordPosted<D>(docs: seq<D>, name: D -> string, filter: D -> bool, d: D, after: seq<D>)
    requires UniqueNames(docs, name) && forall x :: x in docs ==> (filter(x) <==> name(x) == name(d))
    requires PostResult(docs, filter, Becomes(d), d, after)
    ensures UniqueNames(after, name)
  {
    if !Matches(docs, filter) {
      forall i | 0 <= i < |docs| ensures name(docs[i]) != name(d) {
        assert !filter(docs[i]) && docs[i] in docs;
      }
    }
  }

  lemma RecordDeleted<D>(docs: seq<D>, name: D -> string, filter: D -> bool, gone: string, after: seq<D>)
    requires UniqueNames(docs, name) && DeleteResult(docs, filter, after) && forall d :: d in docs ==> (filter(d) <==> name(d) == gone)
    ensures after == Select(docs, Not(filter)) && UniqueNames(after, name)
  {
    forall i, j | 0 <= i < j < |docs| ensures !filter(docs[i]) || !filter(docs[j]) {
      assert docs[i] in docs && docs[j] in docs;
    }
    var i := DeleteOnly(docs, after, filter);
    if i < |docs| { WithoutAtApart(docs, i, name); }
  }
}
