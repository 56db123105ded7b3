/** Saved hosts: a blob map and an order index that must agree with it. */
module HostsStore {
  import opened Bytes

  type Id = string

  datatype Backend = Backend(blobs: map<Id, seq<byte>>, order: seq<Id>)

  // ---- string order ----

  predicate AtMost(a: Id, b: Id) {
    |a| == 0 || (|b| > 0 && (a[0] < b[0] || (a[0] == b[0] && AtMost(a[1..], b[1..]))))
  }

  lemma {:induction false} AtMostIsTotal(a: Id, b: Id)
    ensures AtMost(a, b) || AtMost(b, a)
  {
    if |a| > 0 && |b| > 0 { AtMostIsTotal(a[1..], b[1..]); }
  }

  lemma {:induction false} AtMostIsTransitive(a: Id, b: Id, c: Id)
    requires AtMost(a, b) && AtMost(b, c)
    ensures AtMost(a, c)
  {
    if |a| > 0 && a[0] == b[0] && b[0] == c[0] { AtMostIsTransitive(a[1..], b[1..], c[1..]); }
  }

  lemma {:induction false} AtMostIsAntisymmetric(a: Id, b: Id)
    requires AtMost(a, b) && AtMost(b, a)
    ensures a == b
  {
    if |a| > 0 {
      AtMostIsAntisymmetric(a[1..], b[1..]);
      assert a == [a[0]] + a[1..] && b == [b[0]] + b[1..];
    }
  }

  predicate Ascending(s: seq<Id>) {
    forall i, j :: 0 <= i < j < |s| ==> AtMost(s[i], s[j])
  }

  function Insert(x: Id, s: seq<Id>): seq<Id> {
    if |s| == 0 || AtMost(x, s[0]) then [x] + s else [s[0]] + Insert(x, s[1..])
  }

  /** `sort()`. */
  function Sort(s: seq<Id>): seq<Id> {
    if |s| == 0 then [] else Insert(s[0], Sort(s[1..]))
  }

  lemma {:induction false} InsertSorts(x: Id, s: seq<Id>)
    requires Ascending(s)
    ensures Ascending(Insert(x, s)) && multiset(Insert(x, s)) == multiset(s) + multiset{x}
  {
    if |s| == 0 {
    } else if AtMost(x, s[0]) {
      forall j | 0 < j < |s| ensures AtMost(x, s[j]) { AtMostIsTransitive(x, s[0], s[j]); }
    } else {
      var r := Insert(x, s[1..]);
      InsertSorts(x, s[1..]);
      AtMostIsTotal(x, s[0]);
      assert s == [s[0]] + s[1..];
      forall j | 0 <= j < |r| ensures AtMost(s[0], r[j]) {
        assert r[j] in multiset(r);
        assert r[j] == x || r[j] in s[1..];
      }
    }
  }

  lemma {:induction false} SortSorts(s: seq<Id>)
    ensures Ascending(Sort(s)) && multiset(Sort(s)) == multiset(s)
  {
    if |s| > 0 {
      SortSorts(s[1..]);
      InsertSorts(s[0], Sort(s[1..]));
      assert s == [s[0]] + s[1..];
    }
  }

  /** Sorting forgets the order it was given. */
  lemma {:induction false} SortedIsUnique(a: seq<Id>, b: seq<Id>)
    requires Ascending(a) && Ascending(b) && multiset(a) == multiset(b)
    ensures a == b
  {
    assert |multiset(a)| == |multiset(b)|;
    if |a| > 0 {
      hide AtMost;
      LeastComesFirst(a, b);
      LeastComesFirst(b, a);
      if a[0] != b[0] { AtMostIsAntisymmetric(a[0], b[0]); }
      WithoutFirst(a);
      WithoutFirst(b);
      SortedIsUnique(a[1..], b[1..]);
    }
  }

  lemma LeastComesFirst(a: seq<Id>, b: seq<Id>)
    requires Ascending(a) && multiset(a) == multiset(b) && |a| > 0 && |b| > 0
    ensures a[0] == b[0] || AtMost(a[0], b[0])
  {
    assert b[0] in multiset(a);
    var i :| 0 <= i < |a| && a[i] == b[0];
  }

  lemma WithoutFirst(s: seq<Id>)
    requires |s| > 0
    ensures s == [s[0]] + s[1..] && multiset(s[1..]) == multiset(s) - multiset{s[0]}
  {
    assert s == [s[0]] + s[1..];
  }

  // ---- reconciling ----

  predicate Distinct(s: seq<Id>) {
    forall i, j :: 0 <= i < j < |s| ==> s[i] != s[j]
  }

  function Keep(s: seq<Id>, ids: set<Id>): (r: seq<Id>)
    ensures forall x :: x in r <==> x in s && x in ids
    ensures Distinct(s) ==> Distinct(r)
  {
    if |s| == 0 then [] else (if s[0] in ids then [s[0]] else []) + Keep(s[1..], ids)
  }

  function Drop(s: seq<Id>, ids: set<Id>): (r: seq<Id>)
    ensures forall x :: x in r <==> x in s && x !in ids
    ensures Distinct(s) ==> Distinct(r)
  {
    if |s| == 0 then [] else (if s[0] in ids then [] else [s[0]]) + Drop(s[1..], ids)
  }

  /** The map's keys, in the order the platform happens to list them. */
  ghost predicate Enumerates(e: seq<Id>, blobs: map<Id, seq<byte>>) {
    Distinct(e) && forall x :: x in e <==> x in blobs
  }

  function Survivors(b: Backend): seq<Id> {
    Keep(b.order, b.blobs.Keys)
  }

  function Resolved(b: Backend, e: seq<Id>): seq<Id> {
    Survivors(b) + Sort(Drop(e, set x | x in Survivors(b)))
  }

  lemma {:induction false} Counts(s: seq<Id>, x: Id)
    requires Distinct(s)
    ensures multiset(s)[x] == if x in s then 1 else 0
  {
    if |s| > 0 {
      Counts(s[1..], x);
      assert s == [s[0]] + s[1..];
    }
  }

  lemma DistinctBySet(a: seq<Id>, b: seq<Id>)
    requires Distinct(a) && Distinct(b) && forall x :: x in a <==> x in b
    ensures multiset(a) == multiset(b)
  {
    forall x ensures multiset(a)[x] == multiset(b)[x] {
      Counts(a, x);
      Counts(b, x);
    }
  }

  lemma DistinctByCount(s: seq<Id>)
    requires forall x :: multiset(s)[x] <= 1
    ensures Distinct(s)
  {
    forall i, j | 0 <= i < j < |s| ensures s[i] != s[j] {
      assert s == s[..i] + [s[i]] + s[i + 1..];
      assert s[j] == s[i + 1..][j - i - 1];
      assert multiset(s)[s[i]] >= 1 + multiset(s[i + 1..])[s[i]];
    }
  }

  lemma SortKeepsDistinct(s: seq<Id>)
    requires Distinct(s)
    ensures Distinct(Sort(s)) && forall x :: x in Sort(s) <==> x in s
  {
    SortSorts(s);
    forall x ensures x in Sort(s) <==> x in s {
      assert x in multiset(Sort(s)) <==> x in multiset(s);
    }
    forall x ensures multiset(Sort(s))[x] <= 1 { Counts(s, x); }
    DistinctByCount(Sort(s));
  }

  /** THE INDEX AGREES. Reconciling lists every key of the map and nothing else: the survivors in stored order, then the
    orphans sorted. It lists each key once exactly when the stored order named no survivor twice. */
  lemma ReconcilingIndexesTheMap(b: Backend, e: seq<Id>)
    requires Enumerates(e, b.blobs)
    ensures var r, n := Resolved(b, e), |Survivors(b)|;
            && (forall x :: x in r <==> x in b.blobs)
            && n <= |r| && r[..n] == Survivors(b) && Ascending(r[n..]) && Distinct(r[n..])
            && (forall x :: x in r[n..] <==> x in b.blobs && x !in b.order)
            && (Distinct(r) <==> Distinct(Survivors(b)))
  {
    var kept := Survivors(b);
    var orphans := Drop(e, set x | x in kept);
    SortSorts(orphans);
    SortKeepsDistinct(orphans);
    var r := Resolved(b, e);
    assert r[|kept|..] == Sort(orphans) && r[..|kept|] == kept;
    forall i | 0 <= i < |r| ensures if i < |kept| then r[i] == kept[i] else r[i] in orphans {
      if i >= |kept| { assert r[i] == Sort(orphans)[i - |kept|]; }
    }
    if Distinct(r) { assert forall i :: 0 <= i < |kept| ==> kept[i] == r[i]; }
  }

  /** The listing does not depend on the order in which the platform lists the keys. */
  lemma ReconcilingIgnoresEnumeration(b: Backend, e: seq<Id>, f: seq<Id>)
    requires Enumerates(e, b.blobs) && Enumerates(f, b.blobs)
    ensures Resolved(b, e) == Resolved(b, f)
  {
    var ids := set x | x in Survivors(b);
    DistinctBySet(Drop(e, ids), Drop(f, ids));
    SortSorts(Drop(e, ids));
    SortSorts(Drop(f, ids));
    SortedIsUnique(Sort(Drop(e, ids)), Sort(Drop(f, ids)));
  }

  lemma {:induction false} KeepAll(s: seq<Id>, ids: set<Id>)
    requires forall x :: x in s ==> x in ids
    ensures Keep(s, ids) == s
  {
    if |s| > 0 {
      assert s[0] in s && forall x :: x in s[1..] ==> x in s;
      KeepAll(s[1..], ids);
      assert [s[0]] + s[1..] == s;
    }
  }

  /** The order names exactly the keys of the map. */
  ghost predicate Indexed(b: Backend) {
    forall x :: x in b.order <==> x in b.blobs
  }

  lemma FirstIsIn(s: seq<Id>)
    ensures |s| > 0 ==> s[0] in s
  {
  }

  /** There is nothing to do exactly when the order names the keys. */
  lemma NothingToDoExactlyWhen(b: Backend, e: seq<Id>)
    requires Enumerates(e, b.blobs)
    ensures Resolved(b, e) == b.order <==> Indexed(b)
  {
    ReconcilingIndexesTheMap(b, e);
    if Indexed(b) {
      KeepAll(b.order, b.blobs.Keys);
      var orphans := Drop(e, set x | x in Survivors(b));
      assert forall x :: x !in orphans;
      FirstIsIn(orphans);
      assert b.order + [] == b.order;
    }
  }

  function Reconcile(b: Backend, e: seq<Id>): Backend {
    b.(order := Resolved(b, e))
  }

  /** Reconciling twice, with whatever enumerations, is reconciling once. */
  lemma ReconcilingIsIdempotent(b: Backend, e: seq<Id>, f: seq<Id>)
    requires Enumerates(e, b.blobs) && Enumerates(f, b.blobs)
    ensures Reconcile(Reconcile(b, e), f) == Reconcile(b, e)
  {
    ReconcilingIndexesTheMap(b, e);
    NothingToDoExactlyWhen(Reconcile(b, e), f);
  }

  // ---- whole runs ----

  datatype Op = Save(id: Id, blob: seq<byte>) | Delete(id: Id) | List(enumeration: seq<Id>)

  function Without(s: seq<Id>, id: Id): seq<Id> {
    Drop(s, {id})
  }

  function Do(b: Backend, op: Op): Backend {
    match op
    case Save(id, blob) => Backend(b.blobs[id := blob], if id in b.order then b.order else b.order + [id])
    case Delete(id) => Backend(b.blobs - {id}, Without(b.order, id))
    case List(e) => Reconcile(b, e)
  }

  function DoAll(b: Backend, ops: seq<Op>): Backend
    decreases |ops|
  {
    if |ops| == 0 then b else DoAll(Do(b, ops[0]), ops[1..])
  }

  /** Listings see the keys of the moment. */
  ghost predicate Faithful(b: Backend, ops: seq<Op>)
    decreases |ops|
  {
    |ops| == 0 || ((ops[0].List? ==> Enumerates(ops[0].enumeration, b.blobs)) && Faithful(Do(b, ops[0]), ops[1..]))
  }

  lemma DoKeepsIndex(b: Backend, op: Op)
    requires Indexed(b) && Distinct(b.order) && (op.List? ==> Enumerates(op.enumeration, b.blobs))
    ensures Indexed(Do(b, op)) && Distinct(Do(b, op).order)
    ensures op.List? ==> Do(b, op) == b
  {
    match op
    case Save(id, blob) => assert forall x :: x in b.order + [id] <==> x in b.order || x == id;
    case Delete(id) =>
      var r := Do(b, op);
      assert forall x :: x in r.order <==> x in b.order && x != id;
    case List(e) => NothingToDoExactlyWhen(b, e);
  }

  /** Runs of saves, deletes and listings from an empty store keep the index right, so no listing ever rewrites it. */
  lemma {:induction false} RunsKeepIndex(b: Backend, ops: seq<Op>)
    requires Indexed(b) && Distinct(b.order) && Faithful(b, ops)
    ensures Indexed(DoAll(b, ops)) && Distinct(DoAll(b, ops).order)
    ensures forall e :: Enumerates(e, DoAll(b, ops).blobs) ==> Resolved(DoAll(b, ops), e) == DoAll(b, ops).order
    decreases |ops|
  {
    if |ops| > 0 {
      DoKeepsIndex(b, ops[0]);
      hide Do, Indexed, Distinct;
      RunsKeepIndex(Do(b, ops[0]), ops[1..]);
    } else {
      forall e | Enumerates(e, b.blobs) ensures Resolved(b, e) == b.order { NothingToDoExactlyWhen(b, e); }
    }
  }

  /** Deleting a host just added restores the store, blobs and order. */
  lemma SaveThenDelete(b: Backend, id: Id, blob: seq<byte>)
    requires Indexed(b) && Distinct(b.order) && id !in b.blobs
    ensures Do(Do(b, Save(id, blob)), Delete(id)) == b
  {
    var saved := Do(b, Save(id, blob));
    assert saved.blobs - {id} == b.blobs;
    DropLast(b.order, id);
  }

  lemma {:induction false} DropLast(s: seq<Id>, id: Id)
    requires id !in s
    ensures Without(s + [id], id) == s
  {
    if |s| == 0 {
      assert s + [id] == [id] && [id][1..] == [];
      assert Drop([], {id}) == [];
    } else {
      assert (s + [id])[1..] == s[1..] + [id];
      DropLast(s[1..], id);
      assert [s[0]] + s[1..] == s;
    }
  }

  // ---- the object ----

  class MemoryBackend {
    var blobs: map<Id, seq<byte>>
    var order: seq<Id>

    function State(): Backend
      reads this
    {
      Backend(blobs, order)
    }

    constructor ()
      ensures State() == Backend(map[], []) && Indexed(State()) && Distinct(order)
    {
      blobs, order := map[], [];
    }

    method SaveHost(id: Id, bytes: seq<byte>) returns (ok: bool)
      modifies this
      ensures ok && State() == Do(old(State()), Save(id, bytes))
    {
      blobs := blobs[id := bytes];
      if id !in order { order := order + [id]; }
      ok := true;
    }

    method DeleteHost(id: Id)
      modifies this
      ensures State() == Do(old(State()), Delete(id))
    {
      blobs := blobs - {id};
      var before := |order|;
      var kept := Without(order, id);
      DropSome(order, id);
      if |kept| != before { order := kept; }
    }

    method ReconcileOrder(enumeration: seq<Id>) returns (resolved: seq<Id>)
      requires Enumerates(enumeration, blobs)
      modifies this
      ensures State() == Do(old(State()), List(enumeration)) && resolved == order
    {
      var validOrdered := Keep(order, blobs.Keys);
      var orphans := Sort(Drop(enumeration, set x | x in validOrdered));
      resolved := validOrdered + orphans;
      if resolved != order { order := resolved; }
    }
  }

  lemma {:induction false} DropSome(s: seq<Id>, id: Id)
    ensures |Without(s, id)| <= |s|
    ensures |Without(s, id)| == |s| ==> Without(s, id) == s
  {
    if |s| > 0 {
      DropSome(s[1..], id);
      assert [s[0]] + s[1..] == s;
    }
  }
}
