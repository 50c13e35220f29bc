/** Roots as the oracle of convergence: what equal root hashes tell two peers (the root short-circuit of
    onPeerConnected in internal/reconcile/engine.go), and how roots relate to rest. */
module Convergence {
  import opened Basics
  import opened Paths
  import opened VersionVectors
  import opened FileInfos
  import opened Trees
  import opened TreeBuild
  import opened RootOracle
  import opened Conflict
  import opened Resolve
  import opened Tombstones

  /** The same paths, agreeing leaves, and the same mode byte at each. */
  ghost predicate Replicas(A: Record, B: Record)
  {
    A.Keys == B.Keys && forall p | p in A :: Agree(A[p], B[p]) && ModeByte(A[p]) == ModeByte(B[p])
  }

  lemma {:induction false} ReplicaEssences(A: Record, B: Record)
    requires SaneRecord(A) && SaneRecord(B) && Replicas(A, B)
    ensures PathEssences(A.Values) <= PathEssences(B.Values)
  {
    forall f | f in A.Values ensures (f.path, EssenceOf(f)) in PathEssences(B.Values) {
      assert f.path in A;
      assert B[f.path] in B.Values;
      assert (B[f.path].path, EssenceOf(B[f.path])) in PathEssences(B.Values);
    }
  }

  lemma {:induction false} EssencesAreReplicas(A: Record, B: Record, p: Path)
    requires SaneRecord(A) && SaneRecord(B) && PathEssences(A.Values) <= PathEssences(B.Values) && p in A
    ensures p in B && Agree(A[p], B[p]) && ModeByte(A[p]) == ModeByte(B[p])
  {
    assert A[p] in A.Values;
    assert (p, EssenceOf(A[p])) in PathEssences(A.Values);
    var g :| g in B.Values && (g.path, EssenceOf(g)) == (p, EssenceOf(A[p]));
    assert g.path in B;
  }

  lemma {:induction false} SameEssencesAreReplicas(A: Record, B: Record)
    requires SaneRecord(A) && SaneRecord(B)
    ensures Replicas(A, B) <==> PathEssences(A.Values) == PathEssences(B.Values)
  {
    if Replicas(A, B) {
      ReplicaEssences(A, B);
      ReplicaEssences(B, A);
    }
    if PathEssences(A.Values) == PathEssences(B.Values) {
      forall p | p in A ensures p in B && Agree(A[p], B[p]) && ModeByte(A[p]) == ModeByte(B[p]) {
        EssencesAreReplicas(A, B, p);
      }
      forall p | p in B ensures p in A { EssencesAreReplicas(B, A, p); }
    }
  }

  /** Equal roots mean replicas, and replicas have equal roots, or (x, y) is a collision inside the two trees. */
  lemma {:induction false} RootsTellReplicas(H: Hasher, A: Record, B: Record, t: Node, u: Node) returns (x: Bytes, y: Bytes)
    requires SaneRecord(A) && SaneRecord(B) && TreeOf(H, t, A.Values) && TreeOf(H, u, B.Values)
    ensures Replicas(A, B) ==> t.hash == u.hash
    ensures t.hash == u.hash ==> Replicas(A, B) || CollisionBetween(H, t, u, x, y)
  {
    x, y := RootIsFaithful(H, t, u, A.Values, B.Values);
    SameEssencesAreReplicas(A, B);
  }

  /** What keeps two records at rest apart: a tombstone only one side knows, an unnameable conflict, a mode byte. */
  ghost predicate Residue(N: Naming, a: Option<FileInfo>, b: Option<FileInfo>)
  {
    match (a, b)
    case (None, None) => false
    case (Some(f), None) => f.deleted
    case (None, Some(g)) => g.deleted
    case (Some(f), Some(g)) => NamingFails(N, f, g) || (Agree(f, g) && ModeByte(f) != ModeByte(g))
  }

  /** Replicas are exactly the records at rest without any such residue: skipping the index exchange when the
      roots are equal never leaves work undone. */
  lemma {:induction false} RestIsReplicas(N: Naming, A: Record, B: Record)
    requires SaneRecord(A) && SaneRecord(B)
    ensures Replicas(A, B) <==> AtRest(N, A, B) && forall p :: !Residue(N, Find(A, p), Find(B, p))
  {
    RestIsConvergence(N, A, B);
    if Replicas(A, B) {
      forall p ensures Settled(N, Find(A, p), Find(B, p)) && !Residue(N, Find(A, p), Find(B, p)) {
        if p in A { assert Agree(A[p], B[p]); }
      }
    }
    if AtRest(N, A, B) && forall p :: !Residue(N, Find(A, p), Find(B, p)) {
      forall p ensures p in A <==> p in B {
        assert Settled(N, Find(A, p), Find(B, p)) && !Residue(N, Find(A, p), Find(B, p));
      }
      forall p | p in A ensures Agree(A[p], B[p]) && ModeByte(A[p]) == ModeByte(B[p]) {
        assert Settled(N, Find(A, p), Find(B, p)) && !Residue(N, Find(A, p), Find(B, p));
      }
    }
  }

  /** The short-circuit is sound: with equal roots neither peer has anything to do, or (x, y) collide. */
  lemma {:induction false} ShortCircuitIsSound(H: Hasher, N: Naming, A: Record, B: Record, t: Node, u: Node) returns (x: Bytes, y: Bytes)
    requires SaneRecord(A) && SaneRecord(B) && TreeOf(H, t, A.Values) && TreeOf(H, u, B.Values)
    ensures t.hash == u.hash ==> AtRest(N, A, B) || CollisionBetween(H, t, u, x, y)
    ensures AtRest(N, A, B) && (forall p :: !Residue(N, Find(A, p), Find(B, p))) ==> t.hash == u.hash
  {
    x, y := RootsTellReplicas(H, A, B, t, u);
    RestIsReplicas(N, A, B);
  }

  /** Both peers mint the same conflict copies. */
  lemma {:induction false} CopiesAgree(N: Naming, A: Record, B: Record, p: Path)
    requires SaneRecord(A) && SaneRecord(B)
    ensures CopyOf(Decide(N, Find(A, p), Find(B, p))) == CopyOf(Decide(N, Find(B, p), Find(A, p)))
  {
    if p in A && p in B {
      OrderPointwise(A[p].version, B[p].version);
      OrderPointwise(B[p].version, A[p].version);
      if InConflict(A[p], B[p]) { ConflictSymmetric(N, A[p], B[p]); }
    }
  }
}
