/** The pruned tree diff (internal/merkle/differ.go) against the naive comparison of two leaf maps. */
module Diff {
  import opened Basics
  import opened Paths
  import opened FileInfos
  import opened Trees
  import opened TreeBuild
  import opened RootOracle

  type Side = Option<Node>

  datatype DiffEntry = DiffEntry(
    comps: seq<Name>, local: Option<FileInfo>, remote: Option<FileInfo>, localDir: bool, remoteDir: bool)

  predicate IsLeaf(n: Side) { n.Some? && n.value.Leaf? }
  predicate IsDir(n: Side) { n.Some? && n.value.Dir? }

  function LeafOf(n: Side): (f: Option<FileInfo>) { if IsLeaf(n) then Some(n.value.fi) else None }

  function ChildOf(n: Side, name: Name): (c: Side)
  {
    if IsDir(n) && name in n.value.children then Some(n.value.children[name]) else None
  }

  function KidNames(n: Side): (s: set<Name>) { if IsDir(n) then n.value.children.Keys else {} }

  // ---- termination: the height of a tree ----

  ghost function Height(n: Node): (h: nat)
    ensures n.Dir? ==> h > 0 && forall k | k in n.children :: Height(n.children[k]) < h
    decreases n, 1, 0
  {
    if n.Leaf? then 0 else 1 + MaxHeight(n, n.children.Keys)
  }

  ghost function MaxHeight(n: Node, ks: set<Name>): (h: nat)
    requires n.Dir? && ks <= n.children.Keys
    ensures forall k | k in ks :: Height(n.children[k]) <= h
    decreases n, 0, |ks|
  {
    if ks == {} then 0 else
      var k :| k in ks;
      var rest := MaxHeight(n, ks - {k});
      if Height(n.children[k]) > rest then Height(n.children[k]) else rest
  }

  ghost function SideHeight(n: Side): (h: nat) { if n.Some? then Height(n.value) else 0 }

  lemma {:induction false} ChildHeight(l: Side, r: Side, name: Name)
    requires IsDir(l) || IsDir(r)
    requires !IsLeaf(l) && !IsLeaf(r)
    ensures SideHeight(ChildOf(l, name)) + SideHeight(ChildOf(r, name)) < SideHeight(l) + SideHeight(r)
  {
  }

  // ---- the pruned walk ----

  /** One side a file leaf, the other a directory, at the same path. */
  predicate Clash(l: Side, r: Side) { (IsLeaf(l) && IsDir(r)) || (IsDir(l) && IsLeaf(r)) }

  function Entry(path: seq<Name>, l: Side, r: Side): (e: DiffEntry)
  {
    DiffEntry(path, LeafOf(l), LeafOf(r), Clash(l, r) && IsDir(l), Clash(l, r) && IsDir(r))
  }

  ghost function DiffNodes(pre: seq<Name>, l: Side, r: Side): (out: seq<DiffEntry>)
    decreases SideHeight(l) + SideHeight(r), 1, 0
  {
    if l.None? && r.None? then []
    else if l.Some? && r.Some? && l.value.hash == r.value.hash then []
    else if !IsDir(l) && !IsDir(r) then [Entry(pre, l, r)]
    else if Clash(l, r) then [Entry(pre, l, r)]
    else DiffChildren(pre, l, r, SortedOf(KidNames(l) + KidNames(r)))
  }

  ghost function DiffChildren(pre: seq<Name>, l: Side, r: Side, names: seq<Name>): (out: seq<DiffEntry>)
    requires (IsDir(l) || IsDir(r)) && !IsLeaf(l) && !IsLeaf(r)
    decreases SideHeight(l) + SideHeight(r), 0, |names|
  {
    if names == [] then [] else
      ChildHeight(l, r, names[0]);
      DiffNodes(pre + [names[0]], ChildOf(l, names[0]), ChildOf(r, names[0])) + DiffChildren(pre, l, r, names[1..])
  }

  // ---- the naive diff ----

  function NodeAt(n: Side, cs: seq<Name>): (r: Side)
    decreases cs
  {
    if cs == [] then n else NodeAt(ChildOf(n, cs[0]), cs[1..])
  }

  function EssenceOpt(f: Option<FileInfo>): (e: Option<Essence>)
  {
    if f.Some? then Some(EssenceOf(f.value)) else None
  }

  ghost predicate BelowClash(l: Side, r: Side, cs: seq<Name>)
  {
    exists k | 0 <= k < |cs| :: Clash(NodeAt(l, cs[..k]), NodeAt(r, cs[..k]))
  }

  /** What a comparison of the two leaf maps reports at cs: a pair that differs in the hashed fields, or a clash. */
  function EntryFor(path: seq<Name>, a: Side, b: Side): (e: Option<DiffEntry>)
  {
    if Clash(a, b) then Some(Entry(path, a, b))
    else if EssenceOpt(LeafOf(a)) != EssenceOpt(LeafOf(b)) then Some(Entry(path, a, b))
    else None
  }

  ghost function Naive(pre: seq<Name>, l: Side, r: Side, cs: seq<Name>): (e: Option<DiffEntry>)
  {
    if BelowClash(l, r, cs) then None else EntryFor(pre + cs, NodeAt(l, cs), NodeAt(r, cs))
  }

  lemma {:induction false} NaiveBelow(pre: seq<Name>, l: Side, r: Side, k: Name, cs: seq<Name>)
    requires !Clash(l, r)
    ensures Naive(pre, l, r, [k] + cs) == Naive(pre + [k], ChildOf(l, k), ChildOf(r, k), cs)
  {
    var ks, lc, rc := [k] + cs, ChildOf(l, k), ChildOf(r, k);
    assert ks[1..] == cs;
    assert pre + ks == pre + [k] + cs;
    forall j | 0 <= j < |cs|
      ensures NodeAt(l, ks[..j + 1]) == NodeAt(lc, cs[..j]) && NodeAt(r, ks[..j + 1]) == NodeAt(rc, cs[..j])
    {
      assert ks[..j + 1][1..] == cs[..j] && ks[..j + 1][0] == k;
    }
    if BelowClash(l, r, ks) {
      var j :| 0 <= j < |ks| && Clash(NodeAt(l, ks[..j]), NodeAt(r, ks[..j]));
      assert j > 0;
      assert Clash(NodeAt(lc, cs[..j - 1]), NodeAt(rc, cs[..j - 1]));
    }
    if BelowClash(lc, rc, cs) {
      var j :| 0 <= j < |cs| && Clash(NodeAt(lc, cs[..j]), NodeAt(rc, cs[..j]));
      assert Clash(NodeAt(l, ks[..j + 1]), NodeAt(r, ks[..j + 1]));
    }
  }

  // ---- the hypotheses: well-formed sides without a collision between them ----

  ghost predicate GoodSide(H: Hasher, n: Side) { n.Some? ==> Shape(n.value) && Hashed(H, n.value) }

  ghost predicate Comparable(H: Hasher, l: Side, r: Side)
  {
    && GoodSide(H, l) && GoodSide(H, r)
    && (l.Some? && r.Some? ==> NoCollision(H, l.value, r.value))
  }

  lemma {:induction false} ComparableBelow(H: Hasher, l: Side, r: Side, k: Name)
    requires Comparable(H, l, r)
    ensures Comparable(H, ChildOf(l, k), ChildOf(r, k))
  {
    if ChildOf(l, k).Some? && ChildOf(r, k).Some? { NoCollisionBelow(H, l.value, r.value, k); }
  }

  lemma {:induction false} NothingAt(cs: seq<Name>)
    ensures NodeAt(None, cs) == None
    decreases cs
  {
    if cs != [] { NothingAt(cs[1..]); }
  }

  /** Equal hashes mean there is nothing to report anywhere below: the prune loses nothing. */
  lemma {:induction false} PruneIsSafe(n: Node, m: Node, cs: seq<Name>)
    requires SameStruct(n, m)
    ensures var a, b := NodeAt(Some(n), cs), NodeAt(Some(m), cs);
            !Clash(a, b) && EssenceOpt(LeafOf(a)) == EssenceOpt(LeafOf(b))
    decreases cs
  {
    if cs != [] {
      if n.Dir? && cs[0] in n.children {
        PruneIsSafe(n.children[cs[0]], m.children[cs[0]], cs[1..]);
      } else {
        NothingAt(cs[1..]);
      }
    }
  }

  lemma {:induction false} NaiveOfPruned(H: Hasher, pre: seq<Name>, l: Side, r: Side, cs: seq<Name>)
    requires Comparable(H, l, r)
    requires (l.None? && r.None?) || (l.Some? && r.Some? && l.value.hash == r.value.hash)
    ensures Naive(pre, l, r, cs) == None
  {
    if l.Some? {
      HashGivesStruct(H, l.value, r.value);
      PruneIsSafe(l.value, r.value, cs);
    } else {
      NothingAt(cs);
    }
  }

  lemma {:induction false} NaiveOfLeaves(H: Hasher, pre: seq<Name>, l: Side, r: Side, cs: seq<Name>)
    requires Comparable(H, l, r) && !IsDir(l) && !IsDir(r) && (l.Some? || r.Some?)
    requires l.Some? && r.Some? ==> l.value.hash != r.value.hash
    ensures Naive(pre, l, r, cs) == if cs == [] then Some(Entry(pre, l, r)) else None
  {
    if cs == [] {
      assert pre + cs == pre;
      if l.Some? && r.Some? && EssenceOf(l.value.fi) == EssenceOf(r.value.fi) {
        StructGivesHash(H, l.value, r.value);
      }
    } else {
      NothingAt(cs[1..]);
    }
  }

  lemma {:induction false} NaiveOfClash(pre: seq<Name>, l: Side, r: Side, cs: seq<Name>)
    requires Clash(l, r)
    ensures Naive(pre, l, r, cs) == if cs == [] then Some(Entry(pre, l, r)) else None
  {
    if cs == [] { assert pre + cs == pre; } else { assert cs[..0] == []; }
  }

  // ---- pruned walk == naive diff ----

  predicate Terminal(l: Side, r: Side)
  {
    || (l.None? && r.None?) || (l.Some? && r.Some? && l.value.hash == r.value.hash)
    || (!IsDir(l) && !IsDir(r)) || Clash(l, r)
  }

  lemma {:induction false} CompleteAtTop(H: Hasher, pre: seq<Name>, l: Side, r: Side, cs: seq<Name>)
    requires Comparable(H, l, r) && Naive(pre, l, r, cs).Some? && Terminal(l, r)
    ensures Naive(pre, l, r, cs).value in DiffNodes(pre, l, r)
  {
    if (l.None? && r.None?) || (l.Some? && r.Some? && l.value.hash == r.value.hash) {
      NaiveOfPruned(H, pre, l, r, cs);
    } else if !IsDir(l) && !IsDir(r) {
      NaiveOfLeaves(H, pre, l, r, cs);
    } else {
      NaiveOfClash(pre, l, r, cs);
    }
  }

  lemma {:induction false} NothingAtDirs(pre: seq<Name>, l: Side, r: Side)
    requires !Terminal(l, r)
    ensures Naive(pre, l, r, []) == None
  {
  }

  lemma {:induction false} DiffComplete(H: Hasher, pre: seq<Name>, l: Side, r: Side, cs: seq<Name>)
    requires Comparable(H, l, r) && Naive(pre, l, r, cs).Some?
    ensures Naive(pre, l, r, cs).value in DiffNodes(pre, l, r)
    decreases cs, 0
  {
    if Terminal(l, r) {
      CompleteAtTop(H, pre, l, r, cs);
    } else if cs == [] {
      NothingAtDirs(pre, l, r);
    } else {
      HeadTail(cs);
      DiffCompleteBelow(H, pre, l, r, cs[0], cs[1..]);
    }
  }

  lemma {:induction false} DiffCompleteBelow(H: Hasher, pre: seq<Name>, l: Side, r: Side, k: Name, rest: seq<Name>)
    requires Comparable(H, l, r) && Naive(pre, l, r, [k] + rest).Some? && !Terminal(l, r)
    ensures Naive(pre, l, r, [k] + rest).value in DiffNodes(pre, l, r)
    decreases rest, 1
  {
    NaiveOfUnknownName(pre, l, r, k, rest);
    NaiveBelow(pre, l, r, k, rest);
    ComparableBelow(H, l, r, k);
    DiffComplete(H, pre + [k], ChildOf(l, k), ChildOf(r, k), rest);
    ChildContributes(pre, l, r, SortedOf(KidNames(l) + KidNames(r)), k);
  }

  lemma {:induction false} NaiveOfUnknownName(pre: seq<Name>, l: Side, r: Side, k: Name, rest: seq<Name>)
    requires !Clash(l, r) && Naive(pre, l, r, [k] + rest).Some?
    ensures k in SortedOf(KidNames(l) + KidNames(r))
  {
    NaiveBelow(pre, l, r, k, rest);
    NothingAt(rest);
  }

  lemma {:induction false} ChildContributes(pre: seq<Name>, l: Side, r: Side, names: seq<Name>, k: Name)
    requires (IsDir(l) || IsDir(r)) && !IsLeaf(l) && !IsLeaf(r) && k in names
    ensures forall e | e in DiffNodes(pre + [k], ChildOf(l, k), ChildOf(r, k)) :: e in DiffChildren(pre, l, r, names)
  {
    if names[0] != k { ChildContributes(pre, l, r, names[1..], k); }
  }

  lemma {:induction false} DiffSound(H: Hasher, pre: seq<Name>, l: Side, r: Side, e: DiffEntry) returns (cs: seq<Name>)
    requires Comparable(H, l, r) && e in DiffNodes(pre, l, r)
    ensures Naive(pre, l, r, cs) == Some(e)
    decreases SideHeight(l) + SideHeight(r), 1, 0
  {
    cs := [];
    if !IsDir(l) && !IsDir(r) {
      NaiveOfLeaves(H, pre, l, r, []);
    } else if Clash(l, r) {
      NaiveOfClash(pre, l, r, []);
    } else {
      cs := ChildSound(H, pre, l, r, SortedOf(KidNames(l) + KidNames(r)), e);
    }
  }

  lemma {:induction false} ChildSound(H: Hasher, pre: seq<Name>, l: Side, r: Side, names: seq<Name>, e: DiffEntry)
    returns (cs: seq<Name>)
    requires Comparable(H, l, r) && (IsDir(l) || IsDir(r)) && !IsLeaf(l) && !IsLeaf(r)
    requires e in DiffChildren(pre, l, r, names)
    ensures Naive(pre, l, r, cs) == Some(e)
    decreases SideHeight(l) + SideHeight(r), 0, |names|
  {
    var k := names[0];
    ChildHeight(l, r, k);
    if e in DiffNodes(pre + [k], ChildOf(l, k), ChildOf(r, k)) {
      ComparableBelow(H, l, r, k);
      cs := DiffSound(H, pre + [k], ChildOf(l, k), ChildOf(r, k), e);
      NaiveBelow(pre, l, r, k, cs);
      cs := [k] + cs;
    } else {
      cs := ChildSound(H, pre, l, r, names[1..], e);
    }
  }

  // ---- order: component-wise sorted, so no path twice ----

  predicate CompsLess(a: seq<Name>, b: seq<Name>)
  {
    b != [] && (a == [] || Less(a[0], b[0]) || (a[0] == b[0] && CompsLess(a[1..], b[1..])))
  }

  lemma {:induction false} CompsLessIrreflexive(a: seq<Name>)
    ensures !CompsLess(a, a)
  {
    if a != [] { LessTotal(a[0], a[0]); CompsLessIrreflexive(a[1..]); }
  }

  lemma {:induction false} CompsLessAt(pre: seq<Name>, a: Name, b: Name, x: seq<Name>, y: seq<Name>)
    requires Less(a, b) && pre + [a] <= x && pre + [b] <= y
    ensures CompsLess(x, y)
  {
    if pre == [] {
      assert x[0] == a && y[0] == b;
    } else {
      assert x[0] == pre[0] == y[0];
      assert pre[1..] + [a] == (pre + [a])[1..] <= x[1..];
      assert pre[1..] + [b] == (pre + [b])[1..] <= y[1..];
      CompsLessAt(pre[1..], a, b, x[1..], y[1..]);
    }
  }

  ghost predicate SortedEntries(out: seq<DiffEntry>)
  {
    forall i, j | 0 <= i < j < |out| :: CompsLess(out[i].comps, out[j].comps)
  }

  lemma {:induction false} DiffSorted(pre: seq<Name>, l: Side, r: Side)
    ensures SortedEntries(DiffNodes(pre, l, r))
    ensures forall e | e in DiffNodes(pre, l, r) :: pre <= e.comps
    decreases SideHeight(l) + SideHeight(r), 1, 0
  {
    if (IsDir(l) || IsDir(r)) && !Clash(l, r) {
      ChildrenSorted(pre, l, r, SortedOf(KidNames(l) + KidNames(r)));
    }
  }

  /** Entries below child k come before the entries below later children. */
  lemma {:induction false} ChildBeforeRest(pre: seq<Name>, names: seq<Name>, a: seq<DiffEntry>, b: seq<DiffEntry>)
    requires names != [] && Sorted(names) && SortedEntries(a) && SortedEntries(b)
    requires forall e | e in a :: pre + [names[0]] <= e.comps
    requires forall e | e in b :: pre < e.comps && e.comps[|pre|] in names[1..]
    ensures SortedEntries(a + b)
  {
    forall i, j | 0 <= i < |a| && 0 <= j < |b| ensures CompsLess(a[i].comps, b[j].comps) {
      assert a[i] in a && b[j] in b;
      var k' := b[j].comps[|pre|];
      assert Less(names[0], k') by { var n :| 0 <= n < |names[1..]| && names[1..][n] == k'; assert names[n + 1] == k'; }
      PrefixSnoc(pre, b[j].comps);
      CompsLessAt(pre, names[0], k', a[i].comps, b[j].comps);
    }
  }

  lemma {:induction false} ChildrenSorted(pre: seq<Name>, l: Side, r: Side, names: seq<Name>)
    requires (IsDir(l) || IsDir(r)) && !IsLeaf(l) && !IsLeaf(r) && Sorted(names)
    ensures SortedEntries(DiffChildren(pre, l, r, names))
    ensures forall e | e in DiffChildren(pre, l, r, names) ::
              pre < e.comps && e.comps[|pre|] in names
    decreases SideHeight(l) + SideHeight(r), 0, |names|
  {
    if names != [] {
      var k := names[0];
      ChildHeight(l, r, k);
      DiffSorted(pre + [k], ChildOf(l, k), ChildOf(r, k));
      ChildrenSorted(pre, l, r, names[1..]);
      var a, b := DiffNodes(pre + [k], ChildOf(l, k), ChildOf(r, k)), DiffChildren(pre, l, r, names[1..]);
      ChildBeforeRest(pre, names, a, b);
      forall e: DiffEntry | e in a + b ensures pre < e.comps && e.comps[|pre|] in names {
        if e in a { assert e.comps[|pre|] == (pre + [k])[|pre|]; } else { assert e in b; }
      }
    }
  }

  // ---- main results ----

  ghost predicate DiffIsNaive(l: Side, r: Side)
  {
    && SortedEntries(DiffNodes([], l, r))
    && forall e :: e in DiffNodes([], l, r) <==> exists cs :: Naive([], l, r, cs) == Some(e)
  }

  /** The pruned diff reports exactly what the naive one does, once each and in order, or (x, y) collide. */
  lemma {:induction false} DiffCorrect(H: Hasher, l: Side, r: Side) returns (x: Bytes, y: Bytes)
    requires GoodSide(H, l) && GoodSide(H, r)
    ensures DiffIsNaive(l, r) || (l.Some? && r.Some? && CollisionBetween(H, l.value, r.value, x, y))
  {
    x, y := [], [];
    if Comparable(H, l, r) {
      DiffSorted([], l, r);
      forall e ensures e in DiffNodes([], l, r) <==> exists cs :: Naive([], l, r, cs) == Some(e) {
        if e in DiffNodes([], l, r) { var cs := DiffSound(H, [], l, r, e); }
        if exists cs :: Naive([], l, r, cs) == Some(e) {
          var cs :| Naive([], l, r, cs) == Some(e);
          DiffComplete(H, [], l, r, cs);
        }
      }
    } else {
      x, y :| HashedIn(l.value, x) && HashedIn(r.value, y) && H(x) == H(y) && x != y;
    }
  }

  lemma {:induction false} NodeAtLookup(n: Side, cs: seq<Name>)
    ensures LeafOf(NodeAt(n, cs)) == if n.Some? then Lookup(n.value, cs) else None
    decreases cs
  {
    if cs != [] {
      NodeAtLookup(ChildOf(n, cs[0]), cs[1..]);
    }
  }

  /** Every path whose hashed fields differ is reported with the true leaf of each side, unless it lies
      strictly below a path reported as a clash. */
  lemma {:induction false} NothingMissed(l: Node, r: Node, cs: seq<Name>) returns (k: nat)
    requires DiffIsNaive(Some(l), Some(r)) && EssenceAt(l, cs) != EssenceAt(r, cs)
    ensures k <= |cs|
    ensures exists e | e in DiffNodes([], Some(l), Some(r)) ::
              && e.comps == cs[..k] && e.local == Lookup(l, cs[..k]) && e.remote == Lookup(r, cs[..k])
              && (k < |cs| ==> e.localDir || e.remoteDir)
  {
    var a, b: Side := Some(l), Some(r);
    if !BelowClash(a, b, cs) {
      k := |cs|;
    } else {
      k :| 0 <= k < |cs| && Clash(NodeAt(a, cs[..k]), NodeAt(b, cs[..k]));
      k := FirstClash(a, b, cs, k);
    }
    var ds := cs[..k];
    NodeAtLookup(a, ds);
    NodeAtLookup(b, ds);
    NodeAtLookup(a, cs);
    NodeAtLookup(b, cs);
    assert k == |cs| ==> ds == cs;
    var e := Entry([] + ds, NodeAt(a, ds), NodeAt(b, ds));
    assert Naive([], a, b, ds) == Some(e);
    assert e in DiffNodes([], a, b);
    assert [] + ds == ds;
  }

  lemma {:induction false} FirstClash(l: Side, r: Side, cs: seq<Name>, k: nat) returns (f: nat)
    requires k < |cs| && Clash(NodeAt(l, cs[..k]), NodeAt(r, cs[..k]))
    ensures f <= k && Clash(NodeAt(l, cs[..f]), NodeAt(r, cs[..f])) && !BelowClash(l, r, cs[..f])
    decreases k
  {
    if BelowClash(l, r, cs[..k]) {
      var j :| 0 <= j < k && Clash(NodeAt(l, cs[..k][..j]), NodeAt(r, cs[..k][..j]));
      assert cs[..k][..j] == cs[..j];
      f := FirstClash(l, r, cs, j);
    } else {
      f := k;
    }
  }

  // ---- where an entry comes from, collision or not ----

  /** An entry shows the two trees at one place that is in at least one of them. */
  ghost predicate ShowsPlace(e: DiffEntry, pre: seq<Name>, l: Side, r: Side, cs: seq<Name>)
  {
    var a, b := NodeAt(l, cs), NodeAt(r, cs);
    e == Entry(pre + cs, a, b) && (a.Some? || b.Some?)
  }

  lemma {:induction false} PlaceBelow(pre: seq<Name>, l: Side, r: Side, k: Name, ds: seq<Name>, e: DiffEntry)
    requires ShowsPlace(e, pre + [k], ChildOf(l, k), ChildOf(r, k), ds)
    ensures ShowsPlace(e, pre, l, r, [k] + ds)
  {
    assert ([k] + ds)[1..] == ds && pre + [k] + ds == pre + ([k] + ds);
  }

  lemma {:induction false} DiffOrigin(pre: seq<Name>, l: Side, r: Side, e: DiffEntry) returns (cs: seq<Name>)
    requires e in DiffNodes(pre, l, r)
    ensures ShowsPlace(e, pre, l, r, cs)
    decreases SideHeight(l) + SideHeight(r), 1, 0
  {
    cs := [];
    if (!IsDir(l) && !IsDir(r)) || Clash(l, r) {
      assert pre + [] == pre;
    } else {
      cs := ChildOrigin(pre, l, r, SortedOf(KidNames(l) + KidNames(r)), e);
    }
  }

  lemma {:induction false} ChildOrigin(pre: seq<Name>, l: Side, r: Side, names: seq<Name>, e: DiffEntry)
    returns (cs: seq<Name>)
    requires (IsDir(l) || IsDir(r)) && !IsLeaf(l) && !IsLeaf(r) && e in DiffChildren(pre, l, r, names)
    ensures ShowsPlace(e, pre, l, r, cs)
    decreases SideHeight(l) + SideHeight(r), 0, |names|
  {
    var k := names[0];
    ChildHeight(l, r, k);
    if e in DiffNodes(pre + [k], ChildOf(l, k), ChildOf(r, k)) {
      var ds := DiffOrigin(pre + [k], ChildOf(l, k), ChildOf(r, k), e);
      PlaceBelow(pre, l, r, k, ds, e);
      cs := [k] + ds;
    } else {
      cs := ChildOrigin(pre, l, r, names[1..], e);
    }
  }

  lemma {:induction false} NodeNamesGood(n: Side, cs: seq<Name>)
    requires ShapedSide(n) && NodeAt(n, cs).Some?
    ensures forall c | c in cs :: GoodName(c)
    decreases cs
  {
    if cs != [] {
      NothingAt(cs[1..]);
      NodeNamesGood(ChildOf(n, cs[0]), cs[1..]);
      HeadTail(cs);
    }
  }

  // ---- the imperative walk over string paths ----

  datatype PathEntry = PathEntry(
    path: Path, local: Option<FileInfo>, remote: Option<FileInfo>, localDir: bool, remoteDir: bool)

  function Rendered(e: DiffEntry): (p: PathEntry)
  {
    PathEntry(Join(e.comps), e.local, e.remote, e.localDir, e.remoteDir)
  }

  function RenderAll(es: seq<DiffEntry>): (ps: seq<PathEntry>)
    ensures |ps| == |es| && forall i | 0 <= i < |es| :: ps[i] == Rendered(es[i])
  {
    if es == [] then [] else [Rendered(es[0])] + RenderAll(es[1..])
  }

  lemma {:induction false} RenderConcat(a: seq<DiffEntry>, b: seq<DiffEntry>)
    ensures RenderAll(a + b) == RenderAll(a) + RenderAll(b)
  {
  }

  ghost predicate Named(cs: seq<Name>) { forall c | c in cs :: c != [] }

  lemma {:induction false} ChildPath(path: Path, pre: seq<Name>, l: Side, r: Side, name: Name)
    requires name in KidNames(l) + KidNames(r) && ShapedSide(l) && ShapedSide(r)
    requires path == Join(pre) && Named(pre)
    ensures Named(pre + [name]) && Join(pre + [name]) == if path != [] then path + [SLASH] + name else name
    ensures ShapedSide(ChildOf(l, name)) && ShapedSide(ChildOf(r, name))
  {
    JoinSnoc(pre, name);
  }

  ghost function RenderedFrom(pre: seq<Name>, l: Side, r: Side, names: seq<Name>): (ps: seq<PathEntry>)
    requires (IsDir(l) || IsDir(r)) && !IsLeaf(l) && !IsLeaf(r)
  {
    RenderAll(DiffChildren(pre, l, r, names))
  }

  lemma {:induction false} RenderStep(pre: seq<Name>, l: Side, r: Side, names: seq<Name>, i: nat)
    requires (IsDir(l) || IsDir(r)) && !IsLeaf(l) && !IsLeaf(r) && i < |names|
    ensures RenderedFrom(pre, l, r, names[i..])
            == RenderAll(DiffNodes(pre + [names[i]], ChildOf(l, names[i]), ChildOf(r, names[i])))
               + RenderedFrom(pre, l, r, names[i + 1..])
  {
    assert names[i..][1..] == names[i + 1..];
    RenderConcat(DiffNodes(pre + [names[i]], ChildOf(l, names[i]), ChildOf(r, names[i])),
                 DiffChildren(pre, l, r, names[i + 1..]));
  }

  method UnionChildren(l: Side, r: Side) returns (names: seq<Name>)
    ensures names == SortedOf(KidNames(l) + KidNames(r))
  {
    var s: set<Name> := {};
    if IsDir(l) { s := s + l.value.children.Keys; }
    if IsDir(r) { s := s + r.value.children.Keys; }
    assert s == KidNames(l) + KidNames(r);
    names := SortNames(s);
  }

  ghost predicate ShapedSide(n: Side) { n.Some? ==> Shape(n.value) }

  /** The accumulator walk: it appends exactly the entries of the specification, under joined string paths. */
  method WalkDiff(path: Path, ghost pre: seq<Name>, l: Side, r: Side, out: seq<PathEntry>) returns (res: seq<PathEntry>)
    requires ShapedSide(l) && ShapedSide(r)
    requires path == Join(pre) && Named(pre)
    ensures res == out + RenderAll(DiffNodes(pre, l, r))
    decreases SideHeight(l) + SideHeight(r)
  {
    if l.None? && r.None? { return out; }
    if l.Some? && r.Some? && l.value.hash == r.value.hash { return out; }
    if !IsDir(l) && !IsDir(r) {
      return out + [PathEntry(path, LeafOf(l), LeafOf(r), false, false)];
    }
    if IsLeaf(l) && IsDir(r) { return out + [PathEntry(path, LeafOf(l), None, false, true)]; }
    if IsDir(l) && IsLeaf(r) { return out + [PathEntry(path, None, LeafOf(r), true, false)]; }
    var names := UnionChildren(l, r);
    res := WalkChildren(path, pre, l, r, names, out);
  }

  method WalkChildren(path: Path, ghost pre: seq<Name>, l: Side, r: Side, names: seq<Name>, out: seq<PathEntry>)
    returns (res: seq<PathEntry>)
    requires (IsDir(l) || IsDir(r)) && !IsLeaf(l) && !IsLeaf(r)
    requires (forall name | name in names :: name in KidNames(l) + KidNames(r)) && ShapedSide(l) && ShapedSide(r)
    requires path == Join(pre) && Named(pre)
    ensures res == out + RenderAll(DiffChildren(pre, l, r, names))
    decreases SideHeight(l) + SideHeight(r), 0, 1
  {
    res := out;
    ghost var total, todo := RenderedFrom(pre, l, r, names), RenderedFrom(pre, l, r, names);
    assert names[0..] == names;
    for i := 0 to |names|
      invariant todo == RenderedFrom(pre, l, r, names[i..])
      invariant res + todo == out + total
    {
      RenderStep(pre, l, r, names, i);
      ghost var before := res;
      ghost var here := RenderAll(DiffNodes(pre + [names[i]], ChildOf(l, names[i]), ChildOf(r, names[i])));
      res := WalkChild(path, pre, l, r, names[i], res);
      todo := RenderedFrom(pre, l, r, names[i + 1..]);
      Assoc(before, here, todo);
    }
  }

  method WalkChild(path: Path, ghost pre: seq<Name>, l: Side, r: Side, name: Name, out: seq<PathEntry>)
    returns (res: seq<PathEntry>)
    requires (IsDir(l) || IsDir(r)) && !IsLeaf(l) && !IsLeaf(r)
    requires name in KidNames(l) + KidNames(r) && ShapedSide(l) && ShapedSide(r)
    requires path == Join(pre) && Named(pre)
    ensures res == out + RenderAll(DiffNodes(pre + [name], ChildOf(l, name), ChildOf(r, name)))
    decreases SideHeight(l) + SideHeight(r), 0, 0
  {
    ChildPath(path, pre, l, r, name);
    ChildHeight(l, r, name);
    var child := name;
    if path != [] { child := path + [SLASH] + name; }
    res := WalkDiff(child, pre + [name], ChildOf(l, name), ChildOf(r, name), out);
  }

  method DiffTrees(local: Side, remote: Side) returns (out: seq<PathEntry>)
    requires ShapedSide(local) && ShapedSide(remote)
    ensures out == RenderAll(DiffNodes([], local, remote))
  {
    ghost var top: seq<Name> := [];
    out := [];
    EmptyLeft(RenderAll(DiffNodes(top, local, remote)));
    out := WalkDiff([], top, local, remote, out);
  }
}
