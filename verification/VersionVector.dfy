/** Version vectors (internal/protocol/versionvector.go and dropFromVV of internal/reconcile/tombstone.go).

A vector is a list of counters. Its meaning is the function At from device to count (missing = 0);
the list algorithms are proved against that pointwise view. */
module VersionVectors {
  import opened Basics

  type ShortID = U64
  datatype Counter = Counter(id: ShortID, value: U64)
  type VV = seq<Counter>

  datatype Ordering = Equal | Dominates | DominatedBy | Concurrent

  /** Sorted strictly by id and free of zero counters. */
  predicate Canonical(v: VV)
  {
    && (forall i | 0 <= i < |v| :: v[i].value > 0)
    && (forall i, j | 0 <= i < j < |v| :: v[i].id < v[j].id)
  }

  /** The pointwise meaning: the count of a device, 0 when it is absent. */
  function At(v: VV, id: ShortID): (n: U64)
  {
    if v == [] then 0 else if v[0].id == id then v[0].value else At(v[1..], id)
  }

  /** Every counter of a is covered by b; LeqPointwise gives its meaning. */
  predicate Leq(a: VV, b: VV)
  {
    forall i | 0 <= i < |a| :: a[i].value <= At(b, a[i].id)
  }

  /** The causal order, stated on the pointwise view; Compare is proved to decide it. */
  function Order(a: VV, b: VV): (o: Ordering)
  {
    if Leq(a, b) then (if Leq(b, a) then Equal else DominatedBy)
    else if Leq(b, a) then Dominates else Concurrent
  }

  // ---- facts about At ----

  lemma {:induction false} AtMember(v: VV, i: nat)
    requires Canonical(v) && i < |v|
    ensures At(v, v[i].id) == v[i].value
  {
    if i > 0 { AtMember(v[1..], i - 1); }
  }

  lemma {:induction false} AtAbsent(v: VV, id: ShortID)
    requires forall i | 0 <= i < |v| :: v[i].id != id
    ensures At(v, id) == 0
  {
    if v != [] {
      assert forall i | 0 <= i < |v[1..]| :: v[1..][i] == v[i + 1];
      AtAbsent(v[1..], id);
    }
  }

  lemma {:induction false} AtPositive(v: VV, id: ShortID) returns (i: nat)
    requires At(v, id) > 0
    ensures i < |v| && v[i].id == id && v[i].value == At(v, id)
  {
    if v[0].id == id { i := 0; } else {
      i := AtPositive(v[1..], id);
      i := i + 1;
    }
  }

  lemma {:induction false} LeqAt(a: VV, b: VV, id: ShortID)
    requires Leq(a, b)
    ensures At(a, id) <= At(b, id)
  {
    if At(a, id) > 0 { var i := AtPositive(a, id); }
  }

  lemma {:induction false} LeqPointwise(a: VV, b: VV)
    requires Canonical(a)
    ensures Leq(a, b) <==> forall id: ShortID :: At(a, id) <= At(b, id)
  {
    if Leq(a, b) {
      forall id: ShortID ensures At(a, id) <= At(b, id) { LeqAt(a, b, id); }
    } else {
      var i :| 0 <= i < |a| && a[i].value > At(b, a[i].id);
      AtMember(a, i);
    }
  }

  /** Two canonical vectors with one meaning are one list: the representation is unique. */
  lemma {:induction false} Unique(a: VV, b: VV)
    requires Canonical(a) && Canonical(b)
    requires forall id: ShortID :: At(a, id) == At(b, id)
    ensures a == b
  {
    if a == [] || b == [] {
      assert |a| > 0 ==> At(a, a[0].id) > 0;
      assert |b| > 0 ==> At(b, b[0].id) > 0;
    } else {
      assert a[0].id == b[0].id by {
        if a[0].id < b[0].id { AtAbsent(b, a[0].id); }
        if b[0].id < a[0].id { AtAbsent(a, b[0].id); }
      }
      forall id: ShortID ensures At(a[1..], id) == At(b[1..], id) {
        if id == a[0].id { AtAbsent(a[1..], id); AtAbsent(b[1..], id); }
        else { assert At(a, id) == At(b, id); }
      }
      assert At(a, a[0].id) == At(b, a[0].id);
      Unique(a[1..], b[1..]);
      assert a == [a[0]] + a[1..] && b == [b[0]] + b[1..];
    }
  }

  // ---- the order is a partial order on canonical vectors ----

  lemma {:induction false} OrderPointwise(a: VV, b: VV)
    requires Canonical(a) && Canonical(b)
    ensures Order(a, b) == Equal <==> a == b
    ensures Order(a, b) == Dominates <==> a != b && forall id: ShortID :: At(b, id) <= At(a, id)
    ensures Order(a, b) == DominatedBy <==> a != b && forall id: ShortID :: At(a, id) <= At(b, id)
    ensures Order(a, b) == Concurrent <==>
            && (exists id: ShortID :: At(a, id) > At(b, id))
            && (exists id: ShortID :: At(b, id) > At(a, id))
  {
    LeqPointwise(a, b);
    LeqPointwise(b, a);
    if Leq(a, b) && Leq(b, a) {
      forall id: ShortID ensures At(a, id) == At(b, id) {
        assert At(a, id) <= At(b, id) && At(b, id) <= At(a, id);
      }
      Unique(a, b);
    }
  }

  lemma {:induction false} LeqReflexive(a: VV)
    requires Canonical(a)
    ensures Leq(a, a)
  {
    LeqPointwise(a, a);
  }

  lemma {:induction false} LeqTransitive(a: VV, b: VV, c: VV)
    requires Canonical(a) && Canonical(b) && Canonical(c) && Leq(a, b) && Leq(b, c)
    ensures Leq(a, c)
  {
    LeqPointwise(a, b);
    LeqPointwise(b, c);
    forall id: ShortID ensures At(a, id) <= At(c, id) {
      assert At(a, id) <= At(b, id) && At(b, id) <= At(c, id);
    }
    LeqPointwise(a, c);
  }

  lemma {:induction false} LeqAntisymmetric(a: VV, b: VV)
    requires Canonical(a) && Canonical(b) && Leq(a, b) && Leq(b, a)
    ensures a == b
  {
    OrderPointwise(a, b);
  }

  // ---- merge ----

  function Max(a: U64, b: U64): U64 { if a < b then b else a }

  function Merged(a: VV, b: VV): (r: VV)
  {
    if a == [] then b
    else if b == [] then a
    else if a[0].id < b[0].id then [a[0]] + Merged(a[1..], b)
    else if b[0].id < a[0].id then [b[0]] + Merged(a, b[1..])
    else [Counter(a[0].id, Max(a[0].value, b[0].value))] + Merged(a[1..], b[1..])
  }

  lemma {:induction false} MergedAt(a: VV, b: VV, id: ShortID)
    requires Canonical(a) && Canonical(b)
    ensures At(Merged(a, b), id) == Max(At(a, id), At(b, id))
  {
    if a != [] && b != [] {
      if a[0].id < b[0].id {
        MergedAt(a[1..], b, id);
        if id == a[0].id { AtAbsent(b, id); }
      } else if b[0].id < a[0].id {
        MergedAt(a, b[1..], id);
        if id == b[0].id { AtAbsent(a, id); }
      } else {
        MergedAt(a[1..], b[1..], id);
      }
    }
  }

  /** Canonical, from the meaning of the result: ids and positivity are inherited. */
  lemma {:induction false} MergedCanonical(a: VV, b: VV, floor: int)
    requires Canonical(a) && Canonical(b)
    requires forall i | 0 <= i < |a| :: floor < a[i].id
    requires forall i | 0 <= i < |b| :: floor < b[i].id
    ensures Canonical(Merged(a, b))
    ensures forall i | 0 <= i < |Merged(a, b)| :: floor < Merged(a, b)[i].id
  {
    if a != [] && b != [] {
      if a[0].id < b[0].id { MergedCanonical(a[1..], b, a[0].id); }
      else if b[0].id < a[0].id { MergedCanonical(a, b[1..], b[0].id); }
      else { MergedCanonical(a[1..], b[1..], a[0].id); }
    }
  }

  /** Merge is the least upper bound of the causal order. */
  lemma {:induction false} MergedIsLub(a: VV, b: VV)
    requires Canonical(a) && Canonical(b)
    ensures Canonical(Merged(a, b))
    ensures Leq(a, Merged(a, b)) && Leq(b, Merged(a, b))
    ensures forall c | Canonical(c) && Leq(a, c) && Leq(b, c) :: Leq(Merged(a, b), c)
    ensures forall id: ShortID :: At(Merged(a, b), id) == Max(At(a, id), At(b, id))
  {
    var j := Merged(a, b);
    MergedCanonical(a, b, -1);
    forall id: ShortID ensures At(j, id) == Max(At(a, id), At(b, id)) { MergedAt(a, b, id); }
    LeqPointwise(a, j);
    LeqPointwise(b, j);
    forall c | Canonical(c) && Leq(a, c) && Leq(b, c) ensures Leq(j, c) {
      LeqPointwise(a, c);
      LeqPointwise(b, c);
      forall id: ShortID ensures At(j, id) <= At(c, id) {
        assert At(a, id) <= At(c, id) && At(b, id) <= At(c, id);
      }
      LeqPointwise(j, c);
    }
  }

  lemma {:induction false} MergedCommutes(a: VV, b: VV)
    requires Canonical(a) && Canonical(b)
    ensures Merged(a, b) == Merged(b, a)
  {
    MergedIsLub(a, b);
    MergedIsLub(b, a);
    LeqAntisymmetric(Merged(a, b), Merged(b, a));
  }

  lemma {:induction false} MergedAbsorbs(a: VV, b: VV)
    requires Canonical(a) && Canonical(b) && Leq(a, b)
    ensures Merged(a, b) == b
  {
    MergedIsLub(a, b);
    LeqReflexive(b);
    LeqAntisymmetric(Merged(a, b), b);
  }

  // ---- bump ----

  /** The first position whose id is at least id: what sort.Search returns on a sorted vector. */
  function Slot(v: VV, id: ShortID): (i: nat)
    ensures i <= |v|
    ensures forall k | 0 <= k < i :: v[k].id < id
    ensures i < |v| ==> id <= v[i].id
  {
    if v == [] || id <= v[0].id then 0 else 1 + Slot(v[1..], id)
  }

  lemma {:induction false} SlotUnique(v: VV, id: ShortID, i: nat)
    requires i <= |v|
    requires forall k | 0 <= k < i :: v[k].id < id
    requires forall k | i <= k < |v| :: id <= v[k].id
    ensures i == Slot(v, id)
  {
    if i > 0 {
      assert forall k | 0 <= k < i - 1 :: v[1..][k] == v[k + 1];
      SlotUnique(v[1..], id, i - 1);
    }
  }

  /** Go's uint64 increment, which wraps. */
  function Next(n: U64): U64 { if n == TWO64 - 1 then 0 else n + 1 }

  /** Self's counter incremented, or a new counter 1 at its sorted place. */
  function Bumped(v: VV, self: ShortID): (r: VV)
  {
    if v == [] || self < v[0].id then [Counter(self, 1)] + v
    else if v[0].id == self then [Counter(self, Next(v[0].value))] + v[1..]
    else [v[0]] + Bumped(v[1..], self)
  }

  lemma {:induction false} BumpedExisting(v: VV, self: ShortID)
    requires Slot(v, self) < |v| && v[Slot(v, self)].id == self
    ensures var i := Slot(v, self); Bumped(v, self) == v[i := Counter(self, Next(v[i].value))]
  {
    if v[0].id < self {
      BumpedExisting(v[1..], self);
      assert v == [v[0]] + v[1..];
    }
  }

  lemma {:induction false} BumpedFresh(v: VV, self: ShortID)
    requires Slot(v, self) < |v| ==> v[Slot(v, self)].id != self
    ensures Bumped(v, self) == v[..Slot(v, self)] + [Counter(self, 1)] + v[Slot(v, self)..]
  {
    if v != [] && v[0].id < self {
      BumpedFresh(v[1..], self);
      InsertBelowHead(v[0], v[1..], Slot(v[1..], self), Counter(self, 1));
      assert v == [v[0]] + v[1..];
    }
  }

  lemma {:induction false} BumpedAt(v: VV, self: ShortID, id: ShortID)
    requires Canonical(v)
    ensures At(Bumped(v, self), id) == if id == self then Next(At(v, self)) else At(v, id)
  {
    if v != [] && v[0].id < self {
      BumpedAt(v[1..], self, id);
    } else if v == [] || v[0].id != self {
      AtAbsent(v, self);
    }
  }

  lemma {:induction false} BumpedCanonical(v: VV, self: ShortID)
    requires Canonical(v)
    ensures At(v, self) < TWO64 - 1 <==> Canonical(Bumped(v, self))
  {
    var i := Slot(v, self);
    if i < |v| && v[i].id == self {
      BumpedExisting(v, self);
      AtMember(v, i);
      UpdateCanonical(v, i, Next(v[i].value));
    } else {
      BumpedFresh(v, self);
      AtAbsent(v, self);
      InsertCanonical(v, i, Counter(self, 1));
    }
  }

  lemma {:induction false} UpdateCanonical(v: VV, i: nat, n: U64)
    requires Canonical(v) && i < |v|
    ensures Canonical(v[i := Counter(v[i].id, n)]) <==> n > 0
  {
    assert v[i := Counter(v[i].id, n)][i].value == n;
  }

  lemma {:induction false} InsertCanonical(v: VV, i: nat, c: Counter)
    requires Canonical(v) && i <= |v| && c.value > 0
    requires (i > 0 ==> v[i - 1].id < c.id) && (i < |v| ==> c.id < v[i].id)
    ensures Canonical(v[..i] + [c] + v[i..])
  {
    var r := v[..i] + [c] + v[i..];
    forall k | 0 <= k < |r| ensures r[k] == if k < i then v[k] else if k == i then c else v[k - 1] {}
  }

  /** Bump yields a canonical, strictly newer vector exactly when self's counter has not reached 2^64-1. */
  lemma {:induction false} BumpDominates(v: VV, self: ShortID)
    requires Canonical(v)
    ensures At(v, self) < TWO64 - 1 <==> Canonical(Bumped(v, self))
    ensures At(v, self) < TWO64 - 1 <==> Order(Bumped(v, self), v) == Dominates
    ensures forall id: ShortID | id != self :: At(Bumped(v, self), id) == At(v, id)
    ensures At(Bumped(v, self), self) == Next(At(v, self))
  {
    var b := Bumped(v, self);
    BumpedCanonical(v, self);
    forall id: ShortID ensures At(b, id) == if id == self then Next(At(v, self)) else At(v, id) {
      BumpedAt(v, self, id);
    }
    if At(v, self) < TWO64 - 1 {
      OrderPointwise(b, v);
      assert At(b, self) != At(v, self);
    } else {
      assert At(v, self) > At(b, self);
      LeqPointwise(v, b);
    }
  }

  // ---- dropping a device's counter ----

  function Without(v: VV, id: ShortID): (r: VV)
  {
    if v == [] then [] else (if v[0].id == id then [] else [v[0]]) + Without(v[1..], id)
  }

  lemma {:induction false} WithoutMeaning(v: VV, id: ShortID, floor: int)
    requires Canonical(v) && forall i | 0 <= i < |v| :: floor < v[i].id
    ensures Canonical(Without(v, id))
    ensures forall i | 0 <= i < |Without(v, id)| :: floor < Without(v, id)[i].id
    ensures forall x: ShortID :: At(Without(v, id), x) == if x == id then 0 else At(v, x)
  {
    if v != [] {
      WithoutMeaning(v[1..], id, v[0].id);
      if v[0].id == id {
        forall x: ShortID ensures At(Without(v, id), x) == if x == id then 0 else At(v, x) {
          assert Without(v, id) == Without(v[1..], id);
        }
      }
    }
  }

  lemma {:induction false} DropKeepsOrder(a: VV, b: VV, id: ShortID)
    requires Canonical(a) && Canonical(b) && Leq(a, b)
    ensures Leq(Without(a, id), Without(b, id))
  {
    WithoutMeaning(a, id, -1);
    WithoutMeaning(b, id, -1);
    LeqPointwise(a, b);
    LeqPointwise(Without(a, id), Without(b, id));
    forall x: ShortID ensures At(Without(a, id), x) <= At(Without(b, id), x) { assert At(a, x) <= At(b, x); }
  }

  lemma {:induction false} DroppedMergeAt(a: VV, b: VV, id: ShortID, x: ShortID)
    requires Canonical(a) && Canonical(b) && Canonical(Without(a, id)) && Canonical(Without(b, id))
    ensures At(Without(Merged(a, b), id), x) == At(Merged(Without(a, id), Without(b, id)), x)
  {
    MergedAt(a, b, x);
    MergedAt(Without(a, id), Without(b, id), x);
    MergedCanonical(a, b, -1);
    WithoutMeaning(Merged(a, b), id, -1);
    WithoutMeaning(a, id, -1);
    WithoutMeaning(b, id, -1);
  }

  /** Dropping a counter keeps the causal order and commutes with merge. */
  lemma {:induction false} DropIsHomomorphism(a: VV, b: VV, id: ShortID)
    requires Canonical(a) && Canonical(b)
    ensures Canonical(Without(a, id)) && Canonical(Without(b, id))
    ensures Leq(a, b) ==> Leq(Without(a, id), Without(b, id))
    ensures Without(Merged(a, b), id) == Merged(Without(a, id), Without(b, id))
  {
    WithoutMeaning(a, id, -1);
    WithoutMeaning(b, id, -1);
    if Leq(a, b) { DropKeepsOrder(a, b, id); }
    MergedCanonical(a, b, -1);
    WithoutMeaning(Merged(a, b), id, -1);
    MergedCanonical(Without(a, id), Without(b, id), -1);
    forall x: ShortID ensures At(Without(Merged(a, b), id), x) == At(Merged(Without(a, id), Without(b, id)), x) {
      DroppedMergeAt(a, b, id, x);
    }
    Unique(Without(Merged(a, b), id), Merged(Without(a, id), Without(b, id)));
  }

  /** What is left of v once every device outside live is dropped. */
  function Pruned(v: VV, live: set<ShortID>): (r: VV)
  {
    if v == [] then [] else (if v[0].id in live then [v[0]] else []) + Pruned(v[1..], live)
  }

  lemma {:induction false} PrunedAt(v: VV, live: set<ShortID>, x: ShortID)
    ensures At(Pruned(v, live), x) == if x in live then At(v, x) else 0
  {
    if v != [] {
      PrunedAt(v[1..], live, x);
      var rest := Pruned(v[1..], live);
      assert ([v[0]] + rest)[1..] == rest && [] + rest == rest;
    }
  }

  /** Every device of v is above floor. */
  predicate Above(v: VV, floor: int) { forall i | 0 <= i < |v| :: floor < v[i].id }

  lemma {:induction false} CanonicalPrepend(c: Counter, v: VV, floor: int)
    requires Canonical(v) && Above(v, c.id) && floor < c.id && c.value > 0
    ensures Canonical([c] + v) && Above([c] + v, floor)
  {
  }

  lemma {:induction false} CanonicalTail(v: VV)
    requires Canonical(v) && v != []
    ensures Canonical(v[1..]) && Above(v[1..], v[0].id) && v[0].value > 0
  {
  }

  lemma {:induction false} PrunedCanonical(v: VV, live: set<ShortID>, floor: int)
    requires Canonical(v) && Above(v, floor)
    ensures Canonical(Pruned(v, live)) && Above(Pruned(v, live), floor)
  {
    if v != [] {
      CanonicalTail(v);
      PrunedCanonical(v[1..], live, v[0].id);
      if v[0].id in live {
        CanonicalPrepend(v[0], Pruned(v[1..], live), floor);
      } else {
        assert Pruned(v, live) == Pruned(v[1..], live);
      }
    }
  }

  lemma {:induction false} PrunedMeaning(v: VV, live: set<ShortID>, floor: int)
    requires Canonical(v) && forall i | 0 <= i < |v| :: floor < v[i].id
    ensures Canonical(Pruned(v, live))
    ensures forall i | 0 <= i < |Pruned(v, live)| :: floor < Pruned(v, live)[i].id
    ensures forall x: ShortID :: At(Pruned(v, live), x) == if x in live then At(v, x) else 0
  {
    PrunedCanonical(v, live, floor);
    forall x: ShortID ensures At(Pruned(v, live), x) == if x in live then At(v, x) else 0 { PrunedAt(v, live, x); }
  }

  /** What is left of v once the devices in gone are dropped one after the other. */
  function WithoutAll(v: VV, gone: seq<ShortID>): (r: VV)
  {
    if gone == [] then v else Without(WithoutAll(v, gone[..|gone| - 1]), gone[|gone| - 1])
  }

  lemma {:induction false} PrunedWithout(v: VV, live: set<ShortID>, id: ShortID)
    requires id !in live
    ensures Pruned(Without(v, id), live) == Pruned(v, live)
  {
    if v != [] {
      PrunedWithout(v[1..], live, id);
      var w := Without(v[1..], id);
      if v[0].id != id {
        assert ([v[0]] + w)[1..] == w;
        assert Pruned([v[0]] + w, live) == (if v[0].id in live then [v[0]] else []) + Pruned(w, live);
      } else {
        assert Without(v, id) == w && Pruned(v, live) == Pruned(v[1..], live);
      }
    }
  }

  lemma {:induction false} PrunedOfLive(v: VV, live: set<ShortID>)
    requires forall i | 0 <= i < |v| :: v[i].id in live
    ensures Pruned(v, live) == v
  {
    if v != [] { PrunedOfLive(v[1..], live); }
  }

  lemma {:induction false} WithoutMembers(v: VV, id: ShortID)
    ensures forall c | c in Without(v, id) :: c in v && c.id != id
  {
    if v != [] { WithoutMembers(v[1..], id); }
  }

  lemma {:induction false} WithoutAllMembers(v: VV, gone: seq<ShortID>)
    ensures forall c | c in WithoutAll(v, gone) :: c in v && c.id !in gone
  {
    if gone != [] {
      WithoutAllMembers(v, gone[..|gone| - 1]);
      WithoutMembers(WithoutAll(v, gone[..|gone| - 1]), gone[|gone| - 1]);
    }
  }

  lemma {:induction false} PrunedWithoutAll(v: VV, live: set<ShortID>, gone: seq<ShortID>)
    requires forall id | id in gone :: id !in live
    ensures Pruned(WithoutAll(v, gone), live) == Pruned(v, live)
  {
    if gone != [] {
      var init := gone[..|gone| - 1];
      PrunedWithoutAll(v, live, init);
      assert gone[|gone| - 1] in gone;
      PrunedWithout(WithoutAll(v, init), live, gone[|gone| - 1]);
    }
  }

  /** Dropping all devices outside live, in any order, is pruning; the vector need not be canonical. */
  lemma {:induction false} DropsArePruned(v: VV, live: set<ShortID>, gone: seq<ShortID>)
    requires forall id | id in gone :: id !in live
    requires forall i | 0 <= i < |v| :: v[i].id in live || v[i].id in gone
    ensures WithoutAll(v, gone) == Pruned(v, live)
  {
    WithoutAllMembers(v, gone);
    var w := WithoutAll(v, gone);
    forall i | 0 <= i < |w| ensures w[i].id in live { assert w[i] in w; }
    PrunedOfLive(w, live);
    PrunedWithoutAll(v, live, gone);
  }

  /** Pruned vectors are ordered by the live devices alone: a dropped device can no longer make two of them
      concurrent, and no order among live devices is lost. */
  lemma {:induction false} PrunedOrder(a: VV, b: VV, live: set<ShortID>)
    requires Canonical(a) && Canonical(b)
    ensures Leq(Pruned(a, live), Pruned(b, live)) <==> forall x | x in live :: At(a, x) <= At(b, x)
  {
    PrunedMeaning(a, live, -1);
    PrunedMeaning(b, live, -1);
    LeqPointwise(Pruned(a, live), Pruned(b, live));
    if forall x | x in live :: At(a, x) <= At(b, x) {
      forall x: ShortID ensures At(Pruned(a, live), x) <= At(Pruned(b, live), x) {}
    }
    if Leq(Pruned(a, live), Pruned(b, live)) {
      forall x | x in live ensures At(a, x) <= At(b, x) {
        assert At(Pruned(a, live), x) <= At(Pruned(b, live), x);
      }
    }
  }

  // ---- the algorithms ----

  /** sort.Search: binary search for the first index whose id is at least id. */
  method Search(v: VV, id: ShortID) returns (i: nat)
    requires Canonical(v)
    ensures i == Slot(v, id)
  {
    i := 0;
    var j: nat := |v|;
    while i < j
      invariant i <= j <= |v|
      invariant forall k | 0 <= k < i :: v[k].id < id
      invariant forall k | j <= k < |v| :: id <= v[k].id
    {
      var h := (i + j) / 2;
      if v[h].id < id { i := h + 1; } else { j := h; }
    }
    SlotUnique(v, id, i);
  }

  method Get(v: VV, id: ShortID) returns (n: U64)
    requires Canonical(v)
    ensures n == At(v, id)
  {
    var i := Search(v, id);
    if i < |v| && v[i].id == id {
      AtMember(v, i);
      return v[i].value;
    }
    AtAbsent(v, id);
    return 0;
  }

  method Bump(v: VV, self: ShortID) returns (out: VV)
    requires Canonical(v)
    ensures out == Bumped(v, self)
  {
    var i := Search(v, self);
    if i < |v| && v[i].id == self {
      BumpedExisting(v, self);
      out := v;
      out := out[i := Counter(self, Next(out[i].value))];
    } else {
      BumpedFresh(v, self);
      out := v[..i];
      out := out + [Counter(self, 1)];
      out := out + v[i..];
    }
  }

  /** One turn of Merge's loop: the counter it emits is the head of what is left to merge. */
  lemma {:induction false} MergedStep(v: VV, other: VV, i: nat, j: nat)
    requires i < |v| && j < |other|
    ensures v[i].id < other[j].id ==> Merged(v[i..], other[j..]) == [v[i]] + Merged(v[i + 1..], other[j..])
    ensures v[i].id > other[j].id ==> Merged(v[i..], other[j..]) == [other[j]] + Merged(v[i..], other[j + 1..])
    ensures v[i].id == other[j].id ==>
              Merged(v[i..], other[j..])
              == [Counter(v[i].id, Max(v[i].value, other[j].value))] + Merged(v[i + 1..], other[j + 1..])
  {
    assert v[i..][1..] == v[i + 1..] && other[j..][1..] == other[j + 1..];
  }

  method Merge(v: VV, other: VV) returns (out: VV)
    ensures out == Merged(v, other)
  {
    out := [];
    var i, j := 0, 0;
    ghost var left := Merged(v, other);
    while i < |v| && j < |other|
      invariant 0 <= i <= |v| && 0 <= j <= |other|
      invariant left == Merged(v[i..], other[j..])
      invariant out + left == Merged(v, other)
      decreases |v| - i + |other| - j
    {
      MergedStep(v, other, i, j);
      Regroup(out, left[0], left[1..]);
      assert left == [left[0]] + left[1..];
      if v[i].id < other[j].id {
        out := out + [v[i]];
        i := i + 1;
      } else if v[i].id > other[j].id {
        out := out + [other[j]];
        j := j + 1;
      } else {
        var n := v[i].value;
        if other[j].value > n { n := other[j].value; }
        out := out + [Counter(v[i].id, n)];
        i, j := i + 1, j + 1;
      }
      left := left[1..];
    }
    out := out + v[i..];
    out := out + other[j..];
  }

  /** Separated prefixes: everything already passed on one side lies below everything left on the other. */
  ghost predicate Passed(a: VV, i: int, b: VV, j: int)
    requires 0 <= i <= |a| && 0 <= j <= |b|
  {
    && (forall k, l | 0 <= k < i && j <= l < |b| :: a[k].id < b[l].id)
    && (forall k, l | 0 <= k < j && i <= l < |a| :: b[k].id < a[l].id)
  }

  ghost predicate Exceeds(a: VV, i: int, b: VV)
    requires i <= |a|
  {
    exists k | 0 <= k < i :: a[k].value > At(b, a[k].id)
  }

  lemma {:induction false} ExceedsStep(a: VV, i: nat, b: VV)
    requires i < |a|
    ensures Exceeds(a, i + 1, b) <==> Exceeds(a, i, b) || a[i].value > At(b, a[i].id)
    ensures Exceeds(a, i + 1, b) ==> !Leq(a, b)
  {
  }

  /** The smaller head is absent on the other side. */
  lemma {:induction false} PassLeft(a: VV, i: nat, b: VV, j: nat)
    requires Canonical(a) && Canonical(b) && i < |a| && j <= |b| && Passed(a, i, b, j)
    requires j < |b| ==> a[i].id < b[j].id
    ensures Passed(a, i + 1, b, j) && At(b, a[i].id) == 0 && Exceeds(a, i + 1, b)
  {
    forall l | 0 <= l < |b| ensures b[l].id != a[i].id { if l > j { assert b[j].id < b[l].id; } }
    AtAbsent(b, a[i].id);
    ExceedsStep(a, i, b);
  }

  lemma {:induction false} PassedSwap(a: VV, i: nat, b: VV, j: nat)
    requires i <= |a| && j <= |b| && Passed(a, i, b, j)
    ensures Passed(b, j, a, i)
  {
  }

  lemma {:induction false} PassBoth(a: VV, i: nat, b: VV, j: nat)
    requires Canonical(a) && Canonical(b) && i < |a| && j < |b| && Passed(a, i, b, j) && a[i].id == b[j].id
    ensures Passed(a, i + 1, b, j + 1)
    ensures Exceeds(a, i + 1, b) <==> Exceeds(a, i, b) || a[i].value > b[j].value
    ensures Exceeds(b, j + 1, a) <==> Exceeds(b, j, a) || b[j].value > a[i].value
  {
    AtMember(a, i);
    AtMember(b, j);
    ExceedsStep(a, i, b);
    ExceedsStep(b, j, a);
  }

  lemma {:induction false} ExceedsAll(a: VV, i: nat, b: VV)
    requires i <= |a|
    ensures Exceeds(a, i, b) ==> !Leq(a, b)
    ensures i == |a| && !Exceeds(a, i, b) ==> Leq(a, b)
  {
  }

  method Compare(v: VV, other: VV) returns (o: Ordering)
    requires Canonical(v) && Canonical(other)
    ensures o == Order(v, other)
  {
    var aGreater, bGreater := false, false;
    var i: nat, j: nat := 0, 0;
    while i < |v| && j < |other|
      invariant i <= |v| && j <= |other| && Passed(v, i, other, j)
      invariant aGreater <==> Exceeds(v, i, other)
      invariant bGreater <==> Exceeds(other, j, v)
      decreases |v| - i + |other| - j
    {
      if v[i].id < other[j].id {
        PassLeft(v, i, other, j);
        aGreater := true;
        i := i + 1;
      } else if v[i].id > other[j].id {
        PassedSwap(v, i, other, j);
        PassLeft(other, j, v, i);
        PassedSwap(other, j + 1, v, i);
        bGreater := true;
        j := j + 1;
      } else {
        PassBoth(v, i, other, j);
        if v[i].value > other[j].value { aGreater := true; }
        else if v[i].value < other[j].value { bGreater := true; }
        i, j := i + 1, j + 1;
      }
      ExceedsAll(v, i, other);
      ExceedsAll(other, j, v);
      if aGreater && bGreater { return Concurrent; }
    }
    ExceedsAll(v, i, other);
    ExceedsAll(other, j, v);
    if i < |v| {
      PassLeft(v, i, other, j);
      ExceedsAll(v, i + 1, other);
      aGreater := true;
    }
    if j < |other| {
      PassedSwap(v, i, other, j);
      PassLeft(other, j, v, i);
      ExceedsAll(other, j + 1, v);
      bGreater := true;
    }
    if !aGreater && !bGreater { o := Equal; }
    else if aGreater && !bGreater { o := Dominates; }
    else if !aGreater && bGreater { o := DominatedBy; }
    else { o := Concurrent; }
  }

  method IsEqual(v: VV, other: VV) returns (eq: bool)
    ensures eq <==> v == other
    ensures Canonical(v) && Canonical(other) ==> (eq <==> Order(v, other) == Equal)
  {
    if Canonical(v) && Canonical(other) { OrderPointwise(v, other); }
    if |v| != |other| { return false; }
    for i := 0 to |v|
      invariant v[..i] == other[..i]
    {
      if v[i] != other[i] { return false; }
    }
    return true;
  }

  lemma {:induction false} WithoutStep(v: VV, i: nat, id: ShortID, out: VV)
    requires i < |v|
    ensures out + Without(v[i..], id) ==
            (if v[i].id != id then out + [v[i]] else out) + Without(v[i + 1..], id)
  {
    assert v[i..][1..] == v[i + 1..];
  }

  method DropFromVV(v: VV, id: ShortID) returns (out: VV)
    ensures out == Without(v, id)
    ensures Canonical(v) ==> Canonical(out) && forall x: ShortID :: At(out, x) == if x == id then 0 else At(v, x)
  {
    out := [];
    for i := 0 to |v|
      invariant out + Without(v[i..], id) == Without(v, id)
    {
      WithoutStep(v, i, id, out);
      if v[i].id != id { out := out + [v[i]]; }
    }
    assert out + [] == out;
    if Canonical(v) { WithoutMeaning(v, id, -1); }
  }
}
