/** The root hash as convergence oracle (internal/merkle/node.go, codec.go).

Equal hashes mean equal leaves, or else two distinct strings that were hashed while building these very trees
collide. The collision is exhibited: its strings are among HashedIn of the two trees. */
module RootOracle {
  import opened Basics
  import opened Paths
  import opened FileInfos
  import opened StructuralCodec
  import opened Trees
  import opened TreeBuild

  /** The byte string hashed for node n. */
  ghost function Preimage(n: Node): (x: Bytes)
  {
    match n
    case Leaf(fi, _) => [LEAF_PREFIX] + LeafEncoding(fi)
    case Dir(ch, _) => [NODE_PREFIX] + NodeEncoding(Entries(ch))
  }

  /** x was hashed while building the tree below n. */
  ghost predicate HashedIn(n: Node, x: Bytes)
  {
    x == Preimage(n) || (n.Dir? && exists k | k in n.children :: HashedIn(n.children[k], x))
  }

  ghost predicate CollisionBetween(H: Hasher, n: Node, m: Node, x: Bytes, y: Bytes)
  {
    HashedIn(n, x) && HashedIn(m, y) && x != y && H(x) == H(y)
  }

  ghost predicate NoCollision(H: Hasher, n: Node, m: Node)
  {
    forall x, y | HashedIn(n, x) && HashedIn(m, y) && H(x) == H(y) :: x == y
  }

  lemma {:induction false} NoCollisionBelow(H: Hasher, n: Node, m: Node, k: Name)
    requires NoCollision(H, n, m) && n.Dir? && m.Dir? && k in n.children && k in m.children
    ensures NoCollision(H, n.children[k], m.children[k])
  {
    forall x, y | HashedIn(n.children[k], x) && HashedIn(m.children[k], y) && H(x) == H(y) ensures x == y {
      assert HashedIn(n, x) && HashedIn(m, y);
    }
  }

  // ---- structural sameness ----

  ghost function EssenceAt(n: Node, cs: seq<Name>): (e: Option<Essence>)
  {
    var f := Lookup(n, cs); if f.Some? then Some(EssenceOf(f.value)) else None
  }

  /** Same paths, same (content hash, mode byte, deleted, vector) at each. */
  ghost predicate SameEssence(n: Node, m: Node)
  {
    forall cs :: EssenceAt(n, cs) == EssenceAt(m, cs)
  }

  ghost predicate SameStruct(n: Node, m: Node)
  {
    match n
    case Leaf(fi, _) => m.Leaf? && EssenceOf(fi) == EssenceOf(m.fi)
    case Dir(ch, _) =>
      m.Dir? && ch.Keys == m.children.Keys && forall k | k in ch :: SameStruct(ch[k], m.children[k])
  }

  lemma {:induction false} StructGivesEssence(n: Node, m: Node, cs: seq<Name>)
    requires SameStruct(n, m)
    ensures EssenceAt(n, cs) == EssenceAt(m, cs)
    decreases cs
  {
    if cs != [] && n.Dir? && cs[0] in n.children { StructGivesEssence(n.children[cs[0]], m.children[cs[0]], cs[1..]); }
  }

  lemma {:induction false} EssenceKeys(n: Node, m: Node)
    requires n.Dir? && m.Dir? && Shape(n) && SameEssence(n, m)
    ensures n.children.Keys <= m.children.Keys
  {
    forall k | k in n.children ensures k in m.children {
      var cs := SomeLeaf(n.children[k]);
      LookupChild(n, k, cs);
      LookupChild(m, k, cs);
      assert EssenceAt(n, [k] + cs) == EssenceAt(m, [k] + cs);
    }
  }

  lemma {:induction false} EssenceBelow(n: Node, m: Node, k: Name)
    requires n.Dir? && m.Dir? && SameEssence(n, m) && k in n.children && k in m.children
    ensures SameEssence(n.children[k], m.children[k])
  {
    forall cs ensures EssenceAt(n.children[k], cs) == EssenceAt(m.children[k], cs) {
      LookupChild(n, k, cs);
      LookupChild(m, k, cs);
      assert EssenceAt(n, [k] + cs) == EssenceAt(m, [k] + cs);
    }
  }

  lemma {:induction false} EssenceGivesStruct(n: Node, m: Node)
    requires Shape(n) && Shape(m) && SameEssence(n, m)
    ensures SameStruct(n, m)
  {
    assert EssenceAt(n, []) == EssenceAt(m, []);
    if n.Dir? {
      EssenceKeys(n, m);
      EssenceKeys(m, n);
      forall k | k in n.children ensures SameStruct(n.children[k], m.children[k]) {
        EssenceBelow(n, m, k);
        EssenceGivesStruct(n.children[k], m.children[k]);
      }
    }
  }

  // ---- hashes against structure ----

  /** The entry list of a directory, by position. */
  lemma {:induction false} EntryOf(ch: map<Name, Node>, i: nat)
    requires i < |SortedOf(ch.Keys)|
    ensures |Entries(ch)| == |SortedOf(ch.Keys)| && SortedOf(ch.Keys)[i] in ch
    ensures Entries(ch)[i] == ChildEntry(SortedOf(ch.Keys)[i], ch[SortedOf(ch.Keys)[i]].hash)
  {
    assert SortedOf(ch.Keys)[i] in SortedOf(ch.Keys);
    EntryAt(ch, SortedOf(ch.Keys), i);
  }

  lemma {:induction false} EntriesGiveKeys(a: map<Name, Node>, b: map<Name, Node>)
    requires Entries(a) == Entries(b)
    ensures a.Keys == b.Keys
  {
    var na, nb := SortedOf(a.Keys), SortedOf(b.Keys);
    assert |na| == |Entries(a)| == |nb|;
    forall i | 0 <= i < |na| ensures na[i] == nb[i] { EntryOf(a, i); EntryOf(b, i); }
    assert na == nb;
    forall k ensures k in a <==> k in b { assert k in a.Keys <==> k in na; }
  }

  lemma {:induction false} EntriesAgree(a: map<Name, Node>, b: map<Name, Node>)
    ensures Entries(a) == Entries(b) <==> a.Keys == b.Keys && forall k | k in a :: a[k].hash == b[k].hash
  {
    var na := SortedOf(a.Keys);
    if Entries(a) == Entries(b) {
      EntriesGiveKeys(a, b);
      forall k | k in a ensures a[k].hash == b[k].hash {
        assert k in na;
        var i :| 0 <= i < |na| && na[i] == k;
        EntryOf(a, i);
        EntryOf(b, i);
      }
    }
    if a.Keys == b.Keys && forall k | k in a :: a[k].hash == b[k].hash {
      forall i | 0 <= i < |na| ensures Entries(a)[i] == Entries(b)[i] { EntryOf(a, i); EntryOf(b, i); }
    }
  }

  lemma {:induction false} EntryNamesGood(n: Node)
    requires n.Dir? && Shape(n)
    ensures forall e | e in Entries(n.children) :: |e.name| <= 0xFFFF
  {
    forall e | e in Entries(n.children) ensures |e.name| <= 0xFFFF {
      var i :| 0 <= i < |Entries(n.children)| && Entries(n.children)[i] == e;
      EntryOf(n.children, i);
    }
  }

  lemma {:induction false} StructGivesHash(H: Hasher, n: Node, m: Node)
    requires Hashed(H, n) && Hashed(H, m) && SameStruct(n, m)
    ensures n.hash == m.hash
  {
    if n.Leaf? {
      LeafEncodingInjective(n.fi, m.fi);
    } else {
      forall k | k in n.children ensures n.children[k].hash == m.children[k].hash {
        StructGivesHash(H, n.children[k], m.children[k]);
      }
      EntriesAgree(n.children, m.children);
    }
  }

  lemma {:induction false} PreimagesGiveLevel(n: Node, m: Node)
    requires Shape(n) && Shape(m) && Preimage(n) == Preimage(m)
    ensures n.Leaf? <==> m.Leaf?
    ensures n.Leaf? ==> EssenceOf(n.fi) == EssenceOf(m.fi)
    ensures n.Dir? ==> n.children.Keys == m.children.Keys
                       && forall k | k in n.children :: n.children[k].hash == m.children[k].hash
  {
    assert Preimage(n)[0] == Preimage(m)[0];
    if n.Leaf? {
      assert LeafEncoding(n.fi) == Preimage(n)[1..] == Preimage(m)[1..] == LeafEncoding(m.fi);
      LeafEncodingInjective(n.fi, m.fi);
    } else {
      var a, b := Entries(n.children), Entries(m.children);
      assert NodeEncoding(a) == Preimage(n)[1..] == Preimage(m)[1..] == NodeEncoding(b);
      EntryNamesGood(n);
      EntryNamesGood(m);
      NodeEncodingInjective(a, b);
      EntriesAgree(n.children, m.children);
    }
  }

  lemma {:induction false} HashIsOfPreimage(H: Hasher, n: Node)
    requires Hashed(H, n)
    ensures n.hash == H(Preimage(n)) && HashedIn(n, Preimage(n))
  {
  }

  lemma {:induction false} HashGivesStruct(H: Hasher, n: Node, m: Node)
    requires Shape(n) && Shape(m) && Hashed(H, n) && Hashed(H, m) && NoCollision(H, n, m)
    requires n.hash == m.hash
    ensures SameStruct(n, m)
  {
    HashIsOfPreimage(H, n);
    HashIsOfPreimage(H, m);
    PreimagesGiveLevel(n, m);
    if n.Dir? {
      forall k | k in n.children ensures SameStruct(n.children[k], m.children[k]) {
        NoCollisionBelow(H, n, m, k);
        HashGivesStruct(H, n.children[k], m.children[k]);
      }
    }
  }

  /** Node hashes are equal exactly when the leaves below agree, or (x, y) is a collision inside these trees. */
  lemma {:induction false} EqualHashes(H: Hasher, n: Node, m: Node) returns (x: Bytes, y: Bytes)
    requires Shape(n) && Shape(m) && Hashed(H, n) && Hashed(H, m)
    ensures SameEssence(n, m) ==> n.hash == m.hash
    ensures n.hash == m.hash ==> SameEssence(n, m) || CollisionBetween(H, n, m, x, y)
  {
    x, y := [], [];
    if SameEssence(n, m) {
      EssenceGivesStruct(n, m);
      StructGivesHash(H, n, m);
    }
    if n.hash == m.hash {
      if NoCollision(H, n, m) {
        HashGivesStruct(H, n, m);
        forall cs ensures EssenceAt(n, cs) == EssenceAt(m, cs) { StructGivesEssence(n, m, cs); }
      } else {
        x, y :| HashedIn(n, x) && HashedIn(m, y) && H(x) == H(y) && x != y;
      }
    }
  }

  // ---- the same on leaf sets ----

  ghost function PathEssences(S: set<FileInfo>): (R: set<(Path, Essence)>)
  {
    set f | f in S :: (f.path, EssenceOf(f))
  }

  lemma {:induction false} EssencesIncluded(t: Node, u: Node, S: set<FileInfo>, R: set<FileInfo>)
    requires Holds(t, S) && Holds(u, R) && PathEssences(S) == PathEssences(R)
    ensures forall cs | Lookup(t, cs).Some? :: EssenceAt(t, cs) == EssenceAt(u, cs)
  {
    forall cs | Lookup(t, cs).Some? ensures EssenceAt(t, cs) == EssenceAt(u, cs) {
      var f := Lookup(t, cs).value;
      assert (f.path, EssenceOf(f)) in PathEssences(S);
      var g :| g in R && (g.path, EssenceOf(g)) == (f.path, EssenceOf(f));
      assert Lookup(u, Split(g.path)) == Some(g);
    }
  }

  lemma {:induction false} EssencesFromTrees(t: Node, u: Node, S: set<FileInfo>, R: set<FileInfo>)
    requires Holds(t, S) && Holds(u, R) && SameEssence(t, u)
    ensures PathEssences(S) <= PathEssences(R)
  {
    forall f | f in S ensures (f.path, EssenceOf(f)) in PathEssences(R) {
      var cs := Split(f.path);
      assert Lookup(t, cs) == Some(f);
      assert EssenceAt(t, cs) == EssenceAt(u, cs);
      var g := Lookup(u, cs).value;
      SplitInjective(f.path, g.path);
      assert (g.path, EssenceOf(g)) in PathEssences(R);
    }
  }

  /** Roots are equal exactly when the two sets map the same paths to the same hashed fields, or (x, y) collide. */
  lemma {:induction false} RootIsFaithful(H: Hasher, t: Node, u: Node, S: set<FileInfo>, R: set<FileInfo>) returns (x: Bytes, y: Bytes)
    requires TreeOf(H, t, S) && TreeOf(H, u, R)
    ensures PathEssences(S) == PathEssences(R) ==> t.hash == u.hash
    ensures t.hash == u.hash ==> PathEssences(S) == PathEssences(R) || CollisionBetween(H, t, u, x, y)
  {
    x, y := EqualHashes(H, t, u);
    if PathEssences(S) == PathEssences(R) {
      EssencesIncluded(t, u, S, R);
      EssencesIncluded(u, t, R, S);
      forall cs ensures EssenceAt(t, cs) == EssenceAt(u, cs) {
        if Lookup(t, cs).None? && Lookup(u, cs).Some? { assert EssenceAt(u, cs) == EssenceAt(t, cs); }
      }
    }
    if SameEssence(t, u) {
      EssencesFromTrees(t, u, S, R);
      EssencesFromTrees(u, t, R, S);
    }
  }

  /** Replacing one leaf by another of different hashed fields at its path changes the root, or (x, y) collide. */
  lemma {:induction false} RootSeesLeaf(H: Hasher, t: Node, u: Node, S: set<FileInfo>, f: FileInfo, g: FileInfo)
    returns (x: Bytes, y: Bytes)
    requires f in S && f.path == g.path && EssenceOf(f) != EssenceOf(g)
    requires TreeOf(H, t, S) && TreeOf(H, u, S - {f} + {g})
    ensures t.hash != u.hash || CollisionBetween(H, t, u, x, y)
  {
    var R := S - {f} + {g};
    x, y := RootIsFaithful(H, t, u, S, R);
    assert (f.path, EssenceOf(f)) in PathEssences(S);
    forall h | h in R ensures (h.path, EssenceOf(h)) != (f.path, EssenceOf(f)) {
      assert Lookup(u, Split(h.path)) == Some(h) && Lookup(u, Split(g.path)) == Some(g);
    }
  }

  /** A file that becomes executable, or stops being so, changes the root, or (x, y) collide. */
  lemma {:induction false} RootSeesExecutability(H: Hasher, t: Node, u: Node, S: set<FileInfo>, f: FileInfo, mode: U32)
    returns (x: Bytes, y: Bytes)
    requires f in S && (Executable(f) <==> !Executable(f.(mode := mode)))
    requires TreeOf(H, t, S) && TreeOf(H, u, S - {f} + {f.(mode := mode)})
    ensures t.hash != u.hash || CollisionBetween(H, t, u, x, y)
  {
    ModeByteTells(f, f.(mode := mode));
    x, y := RootSeesLeaf(H, t, u, S, f, f.(mode := mode));
  }

  lemma {:induction false} RootIgnoresRest(H: Hasher, t: Node, u: Node, S: set<FileInfo>, f: FileInfo, g: FileInfo)
    requires f in S && f.path == g.path && EssenceOf(f) == EssenceOf(g)
    requires TreeOf(H, t, S) && TreeOf(H, u, S - {f} + {g})
    ensures t.hash == u.hash
  {
    SwapIsSame(S, f, g);
    var _, _ := RootIsFaithful(H, t, u, S, S - {f} + {g});
  }

  lemma {:induction false} SwapIsSame(S: set<FileInfo>, f: FileInfo, g: FileInfo)
    requires f in S && f.path == g.path && EssenceOf(f) == EssenceOf(g)
    ensures PathEssences(S) == PathEssences(S - {f} + {g})
  {
    SwapEssences(S, S - {f} + {g}, f, g);
    SwapEssences(S - {f} + {g}, S, g, f);
  }

  /** No other change of the mode shows in the root. */
  lemma {:induction false} RootIgnoresOtherModeBits(H: Hasher, t: Node, u: Node, S: set<FileInfo>, f: FileInfo, mode: U32)
    requires f in S && (Executable(f) <==> Executable(f.(mode := mode)))
    requires TreeOf(H, t, S) && TreeOf(H, u, S - {f} + {f.(mode := mode)})
    ensures t.hash == u.hash
  {
    ModeByteTells(f, f.(mode := mode));
    RootIgnoresRest(H, t, u, S, f, f.(mode := mode));
  }

  lemma {:induction false} SwapEssences(S: set<FileInfo>, R: set<FileInfo>, f: FileInfo, g: FileInfo)
    requires (forall h | h in S && h != f :: h in R) && g in R && f.path == g.path && EssenceOf(f) == EssenceOf(g)
    ensures PathEssences(S) <= PathEssences(R)
  {
    forall h | h in S ensures (h.path, EssenceOf(h)) in PathEssences(R) {
      var k := if h == f then g else h;
      assert (k.path, EssenceOf(k)) in PathEssences(R);
    }
  }
}
