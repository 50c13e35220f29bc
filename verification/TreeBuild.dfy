/** BuildTree, Update and Lookup (internal/merkle/tree.go) against the set of leaves they represent. */
module TreeBuild {
  import opened Basics
  import opened Paths
  import opened FileInfos
  import opened StructuralCodec
  import opened Trees

  // ---- which leaf sets have a tree ----

  ghost predicate Exclude(f: FileInfo, g: FileInfo) { Blocks(Split(f.path), Split(g.path)) }

  /** Well-formed paths, pairwise distinct and none a proper component-prefix of another. */
  ghost predicate Buildable(fis: seq<FileInfo>)
  {
    && (forall i | 0 <= i < |fis| :: GoodPath(fis[i].path))
    && (forall i, j | 0 <= i < j < |fis| :: !Exclude(fis[i], fis[j]))
  }

  ghost predicate BuildableSet(S: set<FileInfo>)
  {
    && (forall f | f in S :: GoodPath(f.path))
    && (forall f, g | f in S && g in S && f != g :: !Exclude(f, g))
  }

  ghost function SetOf(fis: seq<FileInfo>): (S: set<FileInfo>) { set i | 0 <= i < |fis| :: fis[i] }

  /** The leaves of t are exactly S, each at its own path. */
  ghost predicate Holds(t: Node, S: set<FileInfo>)
  {
    && (forall f | f in S :: Lookup(t, Split(f.path)) == Some(f))
    && (forall cs | Lookup(t, cs).Some? :: Lookup(t, cs).value in S && Split(Lookup(t, cs).value.path) == cs)
  }

  ghost predicate TreeOf(H: Hasher, t: Node, S: set<FileInfo>)
  {
    WellFormed(H, t) && Holds(t, S)
  }

  lemma {:induction false} GoodPathNames(p: Path)
    requires GoodPath(p)
    ensures forall c | c in Split(p) :: GoodName(c)
  {
  }

  /** Two trees of one leaf set are the same tree with the same hash at every node: input order is irrelevant. */
  lemma {:induction false} TreeOfUnique(H: Hasher, t: Node, u: Node, S: set<FileInfo>)
    requires TreeOf(H, t, S) && TreeOf(H, u, S)
    ensures t == u
  {
    forall cs ensures Lookup(t, cs) == Lookup(u, cs) {
      if Lookup(t, cs).Some? { assert Lookup(u, Split(Lookup(t, cs).value.path)) == Lookup(t, cs); }
      if Lookup(u, cs).Some? { assert Lookup(t, Split(Lookup(u, cs).value.path)) == Lookup(u, cs); }
    }
    TreeUnique(H, t, u);
  }

  /** Having a tree and being buildable are the same thing (BuildTree gives the other direction). */
  lemma {:induction false} TreeOfBuildable(H: Hasher, t: Node, S: set<FileInfo>)
    requires TreeOf(H, t, S)
    ensures BuildableSet(S)
  {
    forall f | f in S ensures GoodPath(f.path) {
      assert Lookup(t, Split(f.path)).Some?;
      LeafNamesGood(t, Split(f.path));
      assert Split([])[0] == [];
    }
    forall f, g | f in S && g in S && f != g ensures !Exclude(f, g) {
      assert Lookup(t, Split(f.path)) == Some(f) && Lookup(t, Split(g.path)) == Some(g);
      LeavesExclude(t, Split(f.path), Split(g.path));
    }
  }

  // ---- BuildTree ----

  lemma {:induction false} InsertOne(n: Node, S: set<FileInfo>, fi: FileInfo)
    requires n.Dir? && Shape(n) && Holds(n, S) && GoodPath(fi.path)
    ensures var r := Insert(n, Split(fi.path), fi);
            && (r.Some? <==> forall f | f in S :: !Exclude(f, fi))
            && (r.Some? ==> r.value.Dir? && Shape(r.value) && Holds(r.value, S + {fi}))
  {
    var cs := Split(fi.path);
    GoodPathNames(fi.path);
    InsertMeaning(n, cs, fi);
    var r := Insert(n, cs, fi);
    if forall f | f in S :: !Exclude(f, fi) {
      forall ds | Lookup(n, ds).Some? ensures !Blocks(ds, cs) {
        assert !Exclude(Lookup(n, ds).value, fi);
      }
    } else {
      var f :| f in S && Exclude(f, fi);
      assert Lookup(n, Split(f.path)).Some?;
    }
    if r.Some? {
      forall f | f in S + {fi} ensures Lookup(r.value, Split(f.path)) == Some(f) {
        if f in S { assert Lookup(n, Split(f.path)).Some?; }
      }
      forall ds | Lookup(r.value, ds).Some?
        ensures Lookup(r.value, ds).value in S + {fi} && Split(Lookup(r.value, ds).value.path) == ds
      {
        if ds != cs { assert Lookup(n, ds).Some?; }
      }
    }
  }

  lemma {:induction false} RehashHolds(H: Hasher, n: Node, S: set<FileInfo>)
    requires n.Dir? && Shape(n) && Holds(n, S)
    ensures TreeOf(H, Rehashed(H, n), S)
  {
    RehashedShape(H, n);
    forall cs ensures Lookup(Rehashed(H, n), cs) == Lookup(n, cs) { RehashedLookup(H, n, cs); }
  }

  /** sort.Slice over the child names. */
  method SortNames(names: set<Name>) returns (out: seq<Name>)
    ensures out == SortedOf(names)
  {
    out := [];
    var todo := names;
    while todo != {}
      invariant todo <= names && Sorted(out) && |out| + |todo| == |names|
      invariant forall x :: x in out <==> x in names - todo
      decreases todo
    {
      var x :| x in todo;
      var k := 0;
      while k < |out| && Less(out[k], x)
        invariant k <= |out| && forall j | 0 <= j < k :: Less(out[j], x)
      {
        k := k + 1;
      }
      InsertSorted(out, k, x);
      out := out[..k] + [x] + out[k..];
      todo := todo - {x};
    }
    SortedUnique(out, SortedOf(names));
  }

  lemma {:induction false} InsertedAt(s: seq<Name>, k: nat, x: Name, i: nat)
    requires k <= |s| && i <= |s|
    ensures (s[..k] + [x] + s[k..])[i] == if i < k then s[i] else if i == k then x else s[i - 1]
  {
  }

  lemma {:induction false} InsertedHas(s: seq<Name>, k: nat, x: Name)
    requires k <= |s|
    ensures forall y :: y in s[..k] + [x] + s[k..] <==> y == x || y in s
  {
    assert s == s[..k] + s[k..];
  }

  lemma {:induction false} InsertSorted(s: seq<Name>, k: nat, x: Name)
    requires Sorted(s) && k <= |s| && x !in s
    requires forall j | 0 <= j < k :: Less(s[j], x)
    requires k < |s| ==> !Less(s[k], x)
    ensures Sorted(s[..k] + [x] + s[k..])
    ensures forall y :: y in s[..k] + [x] + s[k..] <==> y == x || y in s
  {
    var r := s[..k] + [x] + s[k..];
    InsertedHas(s, k, x);
    forall j | k <= j < |s| ensures Less(x, s[j]) {
      LessTotal(s[k], x);
      if j > k { LessTransitive(x, s[k], s[j]); }
    }
    forall i, j | 0 <= i < j < |r| ensures Less(r[i], r[j]) {
      InsertedAt(s, k, x, i);
      InsertedAt(s, k, x, j);
    }
  }

  method HashFromChildren(H: Hasher, children: map<Name, Node>) returns (h: Digest)
    ensures h == DirHash(H, children)
  {
    var names := SortNames(children.Keys);
    var entries: seq<ChildEntry> := [];
    for i := 0 to |names|
      invariant entries == EntriesFrom(children, names[..i])
    {
      EntriesSnoc(children, names, i);
      entries := entries + [ChildEntry(names[i], children[names[i]].hash)];
    }
    assert names[..|names|] == names;
    h := H([NODE_PREFIX] + NodeEncoding(entries));
  }

  method Rehash(H: Hasher, n: Node) returns (r: Node)
    ensures r == Rehashed(H, n)
    decreases n, 1
  {
    if n.Leaf? { return Leaf(n.fi, LeafHash(H, n.fi)); }
    var kids := RehashChildren(H, n);
    var h := HashFromChildren(H, kids);
    return Dir(kids, h);
  }

  method RehashChildren(H: Hasher, n: Node) returns (done: map<Name, Node>)
    requires n.Dir?
    ensures done == Rehashed(H, n).children
    decreases n, 0
  {
    done := map[];
    var todo := n.children.Keys;
    while todo != {}
      invariant todo <= n.children.Keys && done.Keys == n.children.Keys - todo
      invariant forall k | k in done :: done[k] == Rehashed(H, n.children[k])
      decreases todo
    {
      var k :| k in todo;
      var c := Rehash(H, n.children[k]);
      done := done[k := c];
      todo := todo - {k};
    }
    RehashedKids(H, n, done);
  }

  lemma {:induction false} RehashedKids(H: Hasher, n: Node, done: map<Name, Node>)
    requires n.Dir? && done.Keys == n.children.Keys
    requires forall k | k in done :: done[k] == Rehashed(H, n.children[k])
    ensures done == Rehashed(H, n).children
  {
    assert done == map k | k in n.children :: Rehashed(H, n.children[k]);
  }

  /** Succeeds exactly on buildable input, and then returns the tree of the input's leaves. */
  method BuildTree(H: Hasher, fis: seq<FileInfo>) returns (r: Option<Node>)
    ensures r.Some? <==> Buildable(fis)
    ensures r.Some? ==> TreeOf(H, r.value, SetOf(fis))
  {
    var root := EmptyDir;
    for i := 0 to |fis|
      invariant root.Dir? && Shape(root) && Holds(root, SetOf(fis[..i]))
      invariant Buildable(fis[..i])
    {
      var comps := SplitPathComponents(fis[i].path);
      if comps.None? { return None; }
      InsertOne(root, SetOf(fis[..i]), fis[i]);
      BuildableStep(fis, i);
      var next := Insert(root, comps.value, fis[i]);
      if next.None? { return None; }
      root := next.value;
    }
    assert fis[..|fis|] == fis;
    RehashHolds(H, root, SetOf(fis));
    var t := Rehash(H, root);
    return Some(t);
  }

  lemma {:induction false} SetOfStep(fis: seq<FileInfo>, i: nat)
    requires i < |fis|
    ensures SetOf(fis[..i + 1]) == SetOf(fis[..i]) + {fis[i]}
  {
    var a, b := fis[..i], fis[..i + 1];
    forall f ensures f in SetOf(b) <==> f in SetOf(a) + {fis[i]} {
      if f in SetOf(b) {
        var k :| 0 <= k < |b| && b[k] == f;
        if k < i { assert a[k] in SetOf(a); }
      }
      if f == fis[i] { assert b[i] in SetOf(b); }
      if f in SetOf(a) {
        var k :| 0 <= k < |a| && a[k] == f;
        assert b[k] in SetOf(b);
      }
    }
  }

  lemma {:induction false} BuildableSnoc(a: seq<FileInfo>, fi: FileInfo)
    requires Buildable(a)
    ensures Buildable(a + [fi]) <==> GoodPath(fi.path) && forall k | 0 <= k < |a| :: !Exclude(a[k], fi)
  {
    var b := a + [fi];
    assert b[|a|] == fi && forall k | 0 <= k < |a| :: b[k] == a[k];
  }

  lemma {:induction false} ExcludedByNone(a: seq<FileInfo>, fi: FileInfo)
    ensures (forall f | f in SetOf(a) :: !Exclude(f, fi)) <==> (forall k | 0 <= k < |a| :: !Exclude(a[k], fi))
  {
    if forall f | f in SetOf(a) :: !Exclude(f, fi) {
      forall k | 0 <= k < |a| ensures !Exclude(a[k], fi) { assert a[k] in SetOf(a); }
    }
  }

  lemma {:induction false} BuildablePrefix(fis: seq<FileInfo>, i: nat)
    requires i <= |fis| && Buildable(fis)
    ensures Buildable(fis[..i])
  {
  }

  lemma {:induction false} BuildableWith(a: seq<FileInfo>, fi: FileInfo, b: seq<FileInfo>)
    requires Buildable(a) && b == a + [fi]
    ensures GoodPath(fi.path) && (forall f | f in SetOf(a) :: !Exclude(f, fi)) <==> Buildable(b)
  {
    BuildableSnoc(a, fi);
    ExcludedByNone(a, fi);
  }

  lemma {:induction false} BuildableStep(fis: seq<FileInfo>, i: nat)
    requires i < |fis| && Buildable(fis[..i])
    ensures SetOf(fis[..i + 1]) == SetOf(fis[..i]) + {fis[i]}
    ensures GoodPath(fis[i].path) && (forall f | f in SetOf(fis[..i]) :: !Exclude(f, fis[i])) <==> Buildable(fis[..i + 1])
    ensures Buildable(fis) ==> Buildable(fis[..i + 1])
  {
    SetOfStep(fis, i);
    TakeSnoc(fis, i);
    BuildableWith(fis[..i], fis[i], fis[..i + 1]);
    if Buildable(fis) { BuildablePrefix(fis, i + 1); }
  }

  // ---- Update ----

  ghost function Upsert(S: set<FileInfo>, fi: FileInfo): (R: set<FileInfo>)
  {
    (set f | f in S && f.path != fi.path) + {fi}
  }

  lemma {:induction false} SplitInjective(p: Path, q: Path)
    requires Split(p) == Split(q)
    ensures p == q
  {
    JoinOfSplit(p);
    JoinOfSplit(q);
  }

  lemma {:induction false} FreeMeansNoExclusion(t: Node, S: set<FileInfo>, fi: FileInfo)
    requires Holds(t, S)
    ensures FreeExceptSelf(t, Split(fi.path)) <==> forall f | f in S && f.path != fi.path :: !Exclude(f, fi)
  {
    var cs := Split(fi.path);
    if FreeExceptSelf(t, cs) {
      forall f | f in S && f.path != fi.path ensures !Exclude(f, fi) {
        if Split(f.path) == cs { SplitInjective(f.path, fi.path); }
        assert Lookup(t, Split(f.path)).Some?;
      }
    }
    if forall f | f in S && f.path != fi.path :: !Exclude(f, fi) {
      forall ds | Lookup(t, ds).Some? && ds != cs ensures !Blocks(ds, cs) {
        assert !Exclude(Lookup(t, ds).value, fi);
      }
    }
  }

  lemma {:induction false} UpsertBuildable(S: set<FileInfo>, fi: FileInfo)
    requires BuildableSet(S) && GoodPath(fi.path)
    ensures (forall f | f in S && f.path != fi.path :: !Exclude(f, fi)) <==> BuildableSet(Upsert(S, fi))
  {
    var R := Upsert(S, fi);
    if BuildableSet(R) {
      forall f | f in S && f.path != fi.path ensures !Exclude(f, fi) { assert f in R && fi in R; }
    }
  }

  lemma {:induction false} UpsertHolds(t: Node, u: Node, S: set<FileInfo>, fi: FileInfo)
    requires Holds(t, S) && Placed(u, t, Split(fi.path), fi)
    ensures Holds(u, Upsert(S, fi))
  {
    var cs, R := Split(fi.path), Upsert(S, fi);
    forall f | f in R ensures Lookup(u, Split(f.path)) == Some(f) {
      if f != fi && Split(f.path) == cs { SplitInjective(f.path, fi.path); }
    }
    forall ds | Lookup(u, ds).Some?
      ensures Lookup(u, ds).value in R && Split(Lookup(u, ds).value.path) == ds
    {
      if ds != cs { assert Lookup(t, ds).Some?; }
    }
  }

  /** What a possibly nil tree stands for: nil is the empty set. */
  ghost predicate StandsFor(H: Hasher, t: Option<Node>, S: set<FileInfo>)
  {
    match t
    case None => S == {}
    case Some(n) => TreeOf(H, n, S)
  }

  /** Tree.Update as a value, from a tree or from nil: None is ErrTreeConflict. */
  ghost function UpdateOne(H: Hasher, t: Option<Node>, fi: FileInfo): (r: Option<Node>)
  {
    if GoodPath(fi.path) then Upserted(H, if t.Some? then t.value else EmptyDir, Split(fi.path), fi) else None
  }

  lemma {:induction false} StandingIsUpsertable(H: Hasher, t: Option<Node>, S: set<FileInfo>)
    requires StandsFor(H, t, S)
    ensures var n := if t.Some? then t.value else EmptyDir; Upsertable(H, n) && Holds(n, S) && BuildableSet(S)
  {
    if t.Some? {
      TreeOfBuildable(H, t.value, S);
    } else {
      forall cs ensures Lookup(EmptyDir, cs) == None { EmptyLookup(cs); }
    }
  }

  /** One Update: it fails exactly when BuildTree of the upserted set would, and otherwise gives that tree. */
  lemma {:induction false} UpdateIsRebuild(H: Hasher, t: Option<Node>, S: set<FileInfo>, fi: FileInfo)
    requires StandsFor(H, t, S)
    ensures match UpdateOne(H, t, fi)
            case None => !BuildableSet(Upsert(S, fi))
            case Some(u) => BuildableSet(Upsert(S, fi)) && TreeOf(H, u, Upsert(S, fi))
  {
    assert fi in Upsert(S, fi);
    if GoodPath(fi.path) {
      var n, cs := if t.Some? then t.value else EmptyDir, Split(fi.path);
      StandingIsUpsertable(H, t, S);
      GoodPathNames(fi.path);
      UpsertSucceeds(H, n, cs, fi);
      FreeMeansNoExclusion(n, S, fi);
      UpsertBuildable(S, fi);
      var r := Upserted(H, n, cs, fi);
      if r.Some? {
        UpsertMeaning(H, n, cs, fi);
        UpsertHolds(n, r.value, S, fi);
      }
    }
  }

  /** A run of updates; None when one of them fails. */
  ghost function UpdateAll(H: Hasher, t: Option<Node>, fis: seq<FileInfo>): (r: Option<Option<Node>>)
    decreases |fis|
  {
    if fis == [] then Some(t)
    else
      var u := UpdateOne(H, t, fis[0]);
      if u.None? then None else UpdateAll(H, u, fis[1..])
  }

  ghost function UpsertAll(S: set<FileInfo>, fis: seq<FileInfo>): (R: set<FileInfo>)
    decreases |fis|
  {
    if fis == [] then S else UpsertAll(Upsert(S, fis[0]), fis[1..])
  }

  /** BuildTree would succeed on the starting set and after each upsert. */
  ghost predicate AlwaysBuildable(S: set<FileInfo>, fis: seq<FileInfo>)
    decreases |fis|
  {
    BuildableSet(S) && (fis != [] ==> AlwaysBuildable(Upsert(S, fis[0]), fis[1..]))
  }

  /** Any run of Updates, from a tree or from nil, equals one BuildTree of the set it upserts; it stops exactly
      where a rebuild would fail. */
  lemma {:induction false} UpdatesAreRebuild(H: Hasher, t: Option<Node>, S: set<FileInfo>, fis: seq<FileInfo>)
    requires StandsFor(H, t, S)
    ensures UpdateAll(H, t, fis).Some? <==> AlwaysBuildable(S, fis)
    ensures UpdateAll(H, t, fis).Some? ==> StandsFor(H, UpdateAll(H, t, fis).value, UpsertAll(S, fis))
    decreases |fis|
  {
    StandingIsUpsertable(H, t, S);
    if fis != [] {
      UpdateIsRebuild(H, t, S, fis[0]);
      var u := UpdateOne(H, t, fis[0]);
      if u.Some? { UpdatesAreRebuild(H, u, Upsert(S, fis[0]), fis[1..]); }
    }
  }

  /** The copy-on-write recursion of cowUpsert. */
  method CowUpsert(H: Hasher, dir: Node, comps: seq<Name>, leaf: FileInfo) returns (r: Option<Node>)
    requires comps != []
    ensures r == Upserted(H, dir, comps, leaf)
    decreases comps
  {
    if dir.Leaf? { return None; }
    var kids, head := dir.children, comps[0];
    if |comps| == 1 {
      if head in kids && kids[head].Dir? { return None; }
      kids := kids[head := Leaf(leaf, LeafHash(H, leaf))];
    } else {
      var child := EmptyDir;
      if head in kids { child := kids[head]; }
      var newChild := CowUpsert(H, child, comps[1..], leaf);
      if newChild.None? { return None; }
      kids := kids[head := newChild.value];
    }
    var h := HashFromChildren(H, kids);
    return Some(Dir(kids, h));
  }

  method Update(H: Hasher, t: Option<Node>, fi: FileInfo) returns (r: Option<Node>)
    ensures r == UpdateOne(H, t, fi)
  {
    var comps := SplitPathComponents(fi.path);
    if comps.None? { return None; }
    var oldRoot := EmptyDir;
    if t.Some? { oldRoot := t.value; }
    r := CowUpsert(H, oldRoot, comps.value, fi);
  }

  /** Tree.Lookup on a string path. */
  method LookupPath(t: Option<Node>, path: Path) returns (r: Option<FileInfo>)
    ensures r == if t.None? || path == [] then None else Lookup(t.value, Split(path))
  {
    if t.None? || path == [] { return None; }
    var cur, comps := t.value, Split(path);
    for i := 0 to |comps|
      invariant Lookup(cur, comps[i..]) == Lookup(t.value, comps)
    {
      assert comps[i..][1..] == comps[i + 1..];
      if cur.Leaf? || comps[i] !in cur.children { return None; }
      cur := cur.children[comps[i]];
    }
    if cur.Dir? { return None; }
    return Some(cur.fi);
  }
}
