/** The Merkle tree: full build and incremental copy-on-write update (internal/merkle/tree.go, node.go).

SHA-256 is a parameter H: nothing about it is assumed. A tree's meaning is Lookup, the map from component
lists to leaves; TreeUnique says that a well-formed tree is determined by it, hashes included. */
module Trees {
  import opened Basics
  import opened Paths
  import opened FileInfos
  import opened StructuralCodec

  type Hasher = Bytes -> Digest

  datatype Node = Leaf(fi: FileInfo, hash: Digest) | Dir(children: map<Name, Node>, hash: Digest)

  const EmptyDir: Node := Dir(map[], ZeroDigest)

  // ---- hashes ----

  const LEAF_PREFIX: Byte := 0x00
  const NODE_PREFIX: Byte := 0x01

  function LeafHash(H: Hasher, fi: FileInfo): (h: Digest) { H([LEAF_PREFIX] + LeafEncoding(fi)) }

  ghost function Entries(ch: map<Name, Node>): (es: seq<ChildEntry>)
  {
    EntriesFrom(ch, SortedOf(ch.Keys))
  }

  function EntriesFrom(ch: map<Name, Node>, names: seq<Name>): (es: seq<ChildEntry>)
    requires forall k | k in names :: k in ch
    ensures |es| == |names|
  {
    if names == [] then [] else
      EntriesFrom(ch, names[..|names| - 1]) + [ChildEntry(names[|names| - 1], ch[names[|names| - 1]].hash)]
  }

  lemma {:induction false} EntriesSnoc(ch: map<Name, Node>, names: seq<Name>, i: nat)
    requires (forall k | k in names :: k in ch) && i < |names|
    ensures EntriesFrom(ch, names[..i + 1]) == EntriesFrom(ch, names[..i]) + [ChildEntry(names[i], ch[names[i]].hash)]
  {
    assert names[..i + 1][..i] == names[..i];
  }

  lemma {:induction false} EntryAt(ch: map<Name, Node>, names: seq<Name>, i: nat)
    requires (forall k | k in names :: k in ch) && i < |names|
    ensures EntriesFrom(ch, names)[i] == ChildEntry(names[i], ch[names[i]].hash)
  {
    if i < |names| - 1 { EntryAt(ch, names[..|names| - 1], i); }
  }

  ghost function DirHash(H: Hasher, ch: map<Name, Node>): (h: Digest)
  {
    H([NODE_PREFIX] + NodeEncoding(Entries(ch)))
  }

  // ---- well-formed trees ----

  predicate NonEmpty(n: Node) { n.Leaf? || n.children != map[] }

  predicate GoodName(c: Name) { c != [] && |c| <= 0xFFFF && SLASH !in c }

  /** Directories below the root exist only on the way to a leaf. */
  predicate Shape(n: Node)
  {
    n.Dir? ==> forall k | k in n.children :: GoodName(k) && NonEmpty(n.children[k]) && Shape(n.children[k])
  }

  ghost predicate Hashed(H: Hasher, n: Node)
  {
    match n
    case Leaf(fi, h) => h == LeafHash(H, fi)
    case Dir(ch, h) => h == DirHash(H, ch) && forall k | k in ch :: Hashed(H, ch[k])
  }

  ghost predicate WellFormed(H: Hasher, t: Node)
  {
    t.Dir? && Shape(t) && Hashed(H, t)
  }

  // ---- the meaning of a tree ----

  function Lookup(n: Node, cs: seq<Name>): (r: Option<FileInfo>)
    decreases cs
  {
    if cs == [] then (if n.Leaf? then Some(n.fi) else None)
    else if n.Dir? && cs[0] in n.children then Lookup(n.children[cs[0]], cs[1..])
    else None
  }

  lemma {:induction false} LookupChild(n: Node, k: Name, cs: seq<Name>)
    requires n.Dir?
    ensures Lookup(n, [k] + cs) == if k in n.children then Lookup(n.children[k], cs) else None
  {
    assert ([k] + cs)[1..] == cs;
  }

  lemma {:induction false} SomeLeaf(n: Node) returns (cs: seq<Name>)
    requires Shape(n) && NonEmpty(n)
    ensures Lookup(n, cs).Some?
  {
    if n.Leaf? { cs := []; } else {
      var k :| k in n.children;
      cs := SomeLeaf(n.children[k]);
      LookupChild(n, k, cs);
      cs := [k] + cs;
    }
  }

  ghost predicate SameLookup(n: Node, m: Node)
  {
    forall cs :: Lookup(n, cs) == Lookup(m, cs)
  }

  lemma {:induction false} SameLookupChild(n: Node, m: Node, k: Name)
    requires n.Dir? && m.Dir? && SameLookup(n, m) && k in n.children && k in m.children
    ensures SameLookup(n.children[k], m.children[k])
  {
    forall cs ensures Lookup(n.children[k], cs) == Lookup(m.children[k], cs) {
      LookupChild(n, k, cs);
      LookupChild(m, k, cs);
      assert Lookup(n, [k] + cs) == Lookup(m, [k] + cs);
    }
  }

  lemma {:induction false} SameLookupKeys(n: Node, m: Node, k: Name)
    requires n.Dir? && m.Dir? && Shape(n) && SameLookup(n, m) && k in n.children
    ensures k in m.children
  {
    var cs := SomeLeaf(n.children[k]);
    LookupChild(n, k, cs);
    LookupChild(m, k, cs);
    assert Lookup(n, [k] + cs) == Lookup(m, [k] + cs);
  }

  lemma {:induction false} SameKeys(n: Node, m: Node)
    requires n.Dir? && m.Dir? && Shape(n) && Shape(m) && SameLookup(n, m)
    ensures n.children.Keys == m.children.Keys
  {
    forall k ensures k in n.children <==> k in m.children {
      if k in n.children { SameLookupKeys(n, m, k); }
      if k in m.children { SameLookupKeys(m, n, k); }
    }
  }

  /** A tree is determined by its leaves, and so are all its node hashes. */
  lemma {:induction false} TreeUnique(H: Hasher, n: Node, m: Node)
    requires Shape(n) && Shape(m) && Hashed(H, n) && Hashed(H, m)
    requires SameLookup(n, m)
    ensures n == m
  {
    assert Lookup(n, []) == Lookup(m, []);
    if n.Dir? {
      SameKeys(n, m);
      var nc, mc := n.children, m.children;
      forall k | k in nc ensures nc[k] == mc[k] {
        SameLookupChild(n, m, k);
        TreeUnique(H, nc[k], mc[k]);
      }
      assert nc == mc;
    }
  }

  // ---- which paths exclude each other ----

  /** One component list is a prefix of the other (or equal): both cannot be leaves of one tree. */
  ghost predicate Blocks(ds: seq<Name>, cs: seq<Name>) { ds <= cs || cs <= ds }

  lemma {:induction false} BlocksTail(ds: seq<Name>, cs: seq<Name>)
    requires ds != [] && cs != []
    ensures Blocks(ds, cs) <==> ds[0] == cs[0] && Blocks(ds[1..], cs[1..])
  {
    assert ds == [ds[0]] + ds[1..] && cs == [cs[0]] + cs[1..];
  }

  lemma {:induction false} LeavesExclude(n: Node, cs: seq<Name>, ds: seq<Name>)
    requires Lookup(n, cs).Some? && Lookup(n, ds).Some? && cs != ds
    ensures !Blocks(cs, ds)
  {
    if cs != [] && ds != [] {
      BlocksTail(cs, ds);
      if cs[0] == ds[0] {
        assert cs == [cs[0]] + cs[1..] && ds == [ds[0]] + ds[1..];
        LeavesExclude(n.children[cs[0]], cs[1..], ds[1..]);
      }
    }
  }

  lemma {:induction false} LeafNamesGood(n: Node, cs: seq<Name>)
    requires Shape(n) && Lookup(n, cs).Some?
    ensures forall c | c in cs :: GoodName(c)
  {
    if cs != [] { LeafNamesGood(n.children[cs[0]], cs[1..]); }
  }

  ghost predicate Free(n: Node, cs: seq<Name>)
  {
    forall ds | Lookup(n, ds).Some? :: !Blocks(ds, cs)
  }

  ghost predicate FreeExceptSelf(n: Node, cs: seq<Name>)
  {
    forall ds | Lookup(n, ds).Some? && ds != cs :: !Blocks(ds, cs)
  }

  lemma {:induction false} FreeChild(n: Node, cs: seq<Name>)
    requires n.Dir? && cs != []
    ensures Free(n, cs) <==> (cs[0] in n.children ==> Free(n.children[cs[0]], cs[1..]))
    ensures FreeExceptSelf(n, cs) <==> (cs[0] in n.children ==> FreeExceptSelf(n.children[cs[0]], cs[1..]))
  {
    if cs[0] in n.children {
      var c := n.children[cs[0]];
      assert cs == [cs[0]] + cs[1..];
      forall ds | Lookup(c, ds).Some?
        ensures Lookup(n, [cs[0]] + ds).Some? && (Blocks([cs[0]] + ds, cs) <==> Blocks(ds, cs[1..]))
      {
        LookupChild(n, cs[0], ds);
        BlocksTail([cs[0]] + ds, cs);
        assert ([cs[0]] + ds)[1..] == ds;
      }
      forall ds | Lookup(n, ds).Some? && Blocks(ds, cs)
        ensures Lookup(c, ds[1..]).Some? && Blocks(ds[1..], cs[1..]) && (ds != cs ==> ds[1..] != cs[1..])
      {
        BlocksTail(ds, cs);
        assert ds == [ds[0]] + ds[1..];
      }
    } else {
      forall ds | Lookup(n, ds).Some? ensures !Blocks(ds, cs) { BlocksTail(ds, cs); }
    }
  }

  // ---- insertion, as BuildTree does it for one leaf ----

  /** Places a new leaf; None is ErrTreeConflict. Hashes are filled in afterwards. */
  function Insert(n: Node, cs: seq<Name>, fi: FileInfo): (r: Option<Node>)
    requires n.Dir? && cs != []
    ensures r.Some? ==> r.value.Dir?
    decreases cs
  {
    if |cs| == 1 then
      if cs[0] in n.children then None
      else Some(Dir(n.children[cs[0] := Leaf(fi, ZeroDigest)], n.hash))
    else
      var child := if cs[0] in n.children then n.children[cs[0]] else EmptyDir;
      if child.Leaf? then None
      else match Insert(child, cs[1..], fi)
        case None => None
        case Some(c) => Some(Dir(n.children[cs[0] := c], n.hash))
  }

  /** r holds fi at cs and is otherwise n. */
  ghost predicate Placed(r: Node, n: Node, cs: seq<Name>, fi: FileInfo)
  {
    forall ds :: Lookup(r, ds) == if ds == cs then Some(fi) else Lookup(n, ds)
  }

  lemma {:induction false} EmptyFree(cs: seq<Name>)
    ensures Free(EmptyDir, cs) && FreeExceptSelf(EmptyDir, cs)
  {
    forall ds ensures Lookup(EmptyDir, ds) == None { EmptyLookup(ds); }
  }

  /** n with child k replaced by c, where c holds fi at cs and nothing else new. */
  lemma {:induction false} LookupReplaced(n: Node, k: Name, c: Node, cs: seq<Name>, fi: FileInfo, h: Digest)
    requires n.Dir?
    requires if k in n.children then Placed(c, n.children[k], cs, fi) else Placed(c, EmptyDir, cs, fi)
    ensures Placed(Dir(n.children[k := c], h), n, [k] + cs, fi)
  {
    var r := Dir(n.children[k := c], h);
    forall ds ensures Lookup(r, ds) == if ds == [k] + cs then Some(fi) else Lookup(n, ds) {
      if ds != [] {
        assert ds == [ds[0]] + ds[1..];
        LookupChild(r, ds[0], ds[1..]);
        LookupChild(n, ds[0], ds[1..]);
        EmptyLookup(ds[1..]);
      }
    }
  }

  lemma {:induction false} LeafPlaced(fi: FileInfo, h: Digest, n: Node)
    requires n == EmptyDir || n.Leaf?
    ensures Placed(Leaf(fi, h), n, [], fi)
  {
    forall ds ensures Lookup(Leaf(fi, h), ds) == if ds == [] then Some(fi) else Lookup(n, ds) {}
  }

  lemma {:induction false} EmptyLookup(ds: seq<Name>)
    ensures Lookup(EmptyDir, ds) == None
  {
  }

  lemma {:induction false} InsertMeaning(n: Node, cs: seq<Name>, fi: FileInfo)
    requires n.Dir? && Shape(n) && cs != [] && forall c | c in cs :: GoodName(c)
    ensures Insert(n, cs, fi).Some? <==> Free(n, cs)
    ensures Insert(n, cs, fi).Some? ==>
              && Shape(Insert(n, cs, fi).value) && NonEmpty(Insert(n, cs, fi).value)
              && Placed(Insert(n, cs, fi).value, n, cs, fi)
    decreases cs
  {
    var k := cs[0];
    assert cs == [k] + cs[1..];
    FreeChild(n, cs);
    if |cs| == 1 {
      if k in n.children {
        var ds := SomeLeaf(n.children[k]);
        assert Blocks(ds, cs[1..]);
      } else {
        LeafPlaced(fi, ZeroDigest, EmptyDir);
        LookupReplaced(n, k, Leaf(fi, ZeroDigest), [], fi, n.hash);
      }
    } else {
      var child := if k in n.children then n.children[k] else EmptyDir;
      if child.Leaf? {
        assert Lookup(child, []).Some? && Blocks([], cs[1..]);
      } else {
        assert forall c | c in cs[1..] :: c in cs;
        InsertMeaning(child, cs[1..], fi);
        EmptyFree(cs[1..]);
        if Insert(child, cs[1..], fi).Some? {
          LookupReplaced(n, k, Insert(child, cs[1..], fi).value, cs[1..], fi, n.hash);
        }
      }
    }
  }

  // ---- rehash ----

  ghost function Rehashed(H: Hasher, n: Node): (r: Node)
    ensures r.Leaf? <==> n.Leaf?
    ensures r.Dir? ==> r.children.Keys == n.children.Keys
  {
    match n
    case Leaf(fi, _) => Leaf(fi, LeafHash(H, fi))
    case Dir(ch, _) =>
      var ch' := map k | k in ch :: Rehashed(H, ch[k]);
      Dir(ch', DirHash(H, ch'))
  }

  lemma {:induction false} RehashedShape(H: Hasher, n: Node)
    requires Shape(n)
    ensures Shape(Rehashed(H, n)) && Hashed(H, Rehashed(H, n))
    ensures NonEmpty(n) <==> NonEmpty(Rehashed(H, n))
  {
    if n.Dir? {
      var r := Rehashed(H, n);
      assert n.children != map[] <==> n.children.Keys != {};
      assert r.children != map[] <==> r.children.Keys != {};
      forall k | k in n.children
        ensures Shape(r.children[k]) && Hashed(H, r.children[k]) && NonEmpty(r.children[k])
      {
        RehashedShape(H, n.children[k]);
      }
    }
  }

  lemma {:induction false} RehashedLookup(H: Hasher, n: Node, cs: seq<Name>)
    ensures Lookup(Rehashed(H, n), cs) == Lookup(n, cs)
    decreases cs
  {
    if cs != [] && n.Dir? && cs[0] in n.children { RehashedLookup(H, n.children[cs[0]], cs[1..]); }
  }

  // ---- copy-on-write upsert, as Update does it ----

  ghost function Upserted(H: Hasher, n: Node, cs: seq<Name>, fi: FileInfo): (r: Option<Node>)
    requires cs != []
    ensures r.Some? ==> r.value.Dir?
    decreases cs
  {
    if n.Leaf? then None
    else if |cs| == 1 then
      if cs[0] in n.children && n.children[cs[0]].Dir? then None
      else
        var kids := n.children[cs[0] := Leaf(fi, LeafHash(H, fi))];
        Some(Dir(kids, DirHash(H, kids)))
    else
      var child := if cs[0] in n.children then n.children[cs[0]] else EmptyDir;
      match Upserted(H, child, cs[1..], fi)
      case None => None
      case Some(c) =>
        var kids := n.children[cs[0] := c];
        Some(Dir(kids, DirHash(H, kids)))
  }

  lemma {:induction false} ReplacedWellFormed(H: Hasher, n: Node, k: Name, c: Node)
    requires n.Dir? && Shape(n) && forall x | x in n.children :: Hashed(H, n.children[x])
    requires GoodName(k) && NonEmpty(c) && Shape(c) && Hashed(H, c)
    ensures var r := Dir(n.children[k := c], DirHash(H, n.children[k := c])); WellFormed(H, r) && NonEmpty(r)
  {
    assert k in n.children[k := c];
  }

  /** r is a well-formed tree that holds fi at cs and is otherwise n. */
  ghost predicate UpsertedTo(H: Hasher, r: Node, n: Node, cs: seq<Name>, fi: FileInfo)
  {
    WellFormed(H, r) && NonEmpty(r) && Placed(r, n, cs, fi)
  }

  ghost predicate Upsertable(H: Hasher, n: Node)
  {
    n.Dir? && Shape(n) && forall k | k in n.children :: Hashed(H, n.children[k])
  }

  lemma {:induction false} UpsertChild(H: Hasher, n: Node, k: Name, c: Node, rest: seq<Name>, fi: FileInfo)
    requires Upsertable(H, n) && GoodName(k)
    requires UpsertedTo(H, c, if k in n.children then n.children[k] else EmptyDir, rest, fi)
    ensures var kids := n.children[k := c]; UpsertedTo(H, Dir(kids, DirHash(H, kids)), n, [k] + rest, fi)
  {
    ReplacedWellFormed(H, n, k, c);
    LookupReplaced(n, k, c, rest, fi, DirHash(H, n.children[k := c]));
  }

  /** Upsert succeeds exactly when no other leaf excludes the path. */
  lemma {:induction false} UpsertSucceeds(H: Hasher, n: Node, cs: seq<Name>, fi: FileInfo)
    requires n.Dir? && Shape(n) && cs != []
    ensures Upserted(H, n, cs, fi).Some? <==> FreeExceptSelf(n, cs)
    decreases cs
  {
    FreeChild(n, cs);
    var k, rest := cs[0], cs[1..];
    if k in n.children {
      var child := n.children[k];
      if |cs| == 1 {
        if child.Dir? {
          var ds := SomeLeaf(child);
          assert Blocks(ds, rest);
        } else {
          assert forall ds | Lookup(child, ds).Some? :: ds == [];
        }
      } else if child.Leaf? {
        assert Lookup(child, []).Some? && Blocks([], rest);
      } else {
        UpsertSucceeds(H, child, rest, fi);
      }
    } else if |cs| > 1 {
      EmptyFree(rest);
      UpsertSucceeds(H, EmptyDir, rest, fi);
    }
  }

  /** A successful upsert changes only the leaf at cs, and rebuilds the hashes on its path. */
  lemma {:induction false} UpsertMeaning(H: Hasher, n: Node, cs: seq<Name>, fi: FileInfo)
    requires Upsertable(H, n) && cs != [] && forall c | c in cs :: GoodName(c)
    requires Upserted(H, n, cs, fi).Some?
    ensures UpsertedTo(H, Upserted(H, n, cs, fi).value, n, cs, fi)
    decreases cs
  {
    var k, rest := cs[0], cs[1..];
    assert cs == [k] + rest;
    var child := if k in n.children then n.children[k] else EmptyDir;
    if |cs| == 1 {
      var leaf := Leaf(fi, LeafHash(H, fi));
      LeafPlaced(fi, leaf.hash, child);
      LeafWellFormed(H, n, k, leaf, fi);
    } else {
      assert forall c | c in rest :: c in cs;
      UpsertMeaning(H, child, rest, fi);
      UpsertChild(H, n, k, Upserted(H, child, rest, fi).value, rest, fi);
    }
  }

  lemma {:induction false} LeafWellFormed(H: Hasher, n: Node, k: Name, leaf: Node, fi: FileInfo)
    requires Upsertable(H, n) && GoodName(k) && leaf == Leaf(fi, LeafHash(H, fi))
    requires Placed(leaf, if k in n.children then n.children[k] else EmptyDir, [], fi)
    ensures var kids := n.children[k := leaf]; UpsertedTo(H, Dir(kids, DirHash(H, kids)), n, [k], fi)
  {
    ReplacedWellFormed(H, n, k, leaf);
    LookupReplaced(n, k, leaf, [], fi, DirHash(H, n.children[k := leaf]));
  }
}
