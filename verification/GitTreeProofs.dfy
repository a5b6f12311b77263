/** What the tree root says about the enumeration. */
module GitTreeProofs {
  import opened Common
  import opened ByteOrder
  import opened GitTree

  /** A blob in a tree: the components of its path, its mode and object id. */
  datatype Leaf = Leaf(path: seq<Name>, mode: Bytes, oid: Oid)

  function Under(name: Name, leaves: seq<Leaf>): seq<Leaf> {
    seq(|leaves|, i requires 0 <= i < |leaves| => leaves[i].(path := [name] + leaves[i].path))
  }

  function FlatChild(c: Child): seq<Leaf>
    decreases c
  {
    match c.node
    case File(mode, oid) => [Leaf([c.name], mode, oid)]
    case Dir(sub) => Under(c.name, Flat(sub))
  }

  /** The blobs of a tree in order. */
  function Flat(children: seq<Child>): seq<Leaf>
    decreases children
  {
    if children == [] then [] else FlatChild(children[0]) + Flat(children[1..])
  }

  predicate NodeOk(node: Node)
    decreases node
  {
    match node
    case File(mode, oid) => mode == MODE_FILE || mode == MODE_EXECUTABLE
    case Dir(sub) => sub != [] && WellFormed(sub)
  }

  /** A tree as dictionaries can hold it: valid and unique names, no empty directory. */
  predicate WellFormed(children: seq<Child>)
    decreases children
  {
    (forall i, j :: 0 <= i < j < |children| ==> children[i].name != children[j].name) &&
    (forall i :: 0 <= i < |children| ==> ValidName(children[i].name) && NodeOk(children[i].node))
  }

  lemma TailOk(children: seq<Child>)
    requires children != []
    ensures WellFormed(children) ==> WellFormed(children[1..])
    ensures Canonical(children) ==> Canonical(children[1..])
  {
    assert forall i :: 0 <= i < |children| - 1 ==> children[1..][i] == children[i + 1];
  }

  lemma {:induction false} LeafHasChild(children: seq<Child>, leaf: Leaf) returns (k: nat)
    requires leaf in Flat(children)
    ensures k < |children| && leaf in FlatChild(children[k])
    decreases |children|
  {
    if leaf in FlatChild(children[0]) {
      k := 0;
    } else {
      k := LeafHasChild(children[1..], leaf);
      k := k + 1;
    }
  }

  lemma LeafOfChild(c: Child, leaf: Leaf)
    requires leaf in FlatChild(c)
    ensures leaf.path != [] && leaf.path[0] == c.name
    ensures c.node.File? ==> leaf == Leaf([c.name], c.node.mode, c.node.oid)
    ensures c.node.Dir? ==> leaf.(path := leaf.path[1..]) in Flat(c.node.children)
  {
    if c.node.Dir? {
      var leaves := Flat(c.node.children);
      var i :| 0 <= i < |leaves| && Under(c.name, leaves)[i] == leaf;
      assert leaf.path[1..] == leaves[i].path;
    }
  }

  lemma UnderHas(name: Name, leaves: seq<Leaf>, leaf: Leaf)
    requires leaf in leaves
    ensures leaf.(path := [name] + leaf.path) in Under(name, leaves)
  {
    var i :| 0 <= i < |leaves| && leaves[i] == leaf;
    assert Under(name, leaves)[i] == leaf.(path := [name] + leaf.path);
  }

  lemma {:induction false} FlatNotEmpty(c: Child)
    requires NodeOk(c.node)
    ensures FlatChild(c) != []
    decreases c
  {
    if c.node.File? {
    } else {
      FlatNotEmpty(c.node.children[0]);
    }
  }

  lemma {:induction false} LeafPathNotEmpty(children: seq<Child>, leaf: Leaf)
    requires leaf in Flat(children)
    ensures leaf.path != []
  {
    var k := LeafHasChild(children, leaf);
    LeafOfChild(children[k], leaf);
  }

  // ----- inserting -----

  predicate ValidParts(parts: seq<Name>) {
    forall i :: 0 <= i < |parts| ==> ValidName(parts[i])
  }

  predicate IsBlob(blob: Node) { blob.File? && NodeOk(blob) }

  lemma {:induction false} FreshFacts(name: Name, parts: seq<Name>, blob: Node)
    requires ValidName(name) && ValidParts(parts) && IsBlob(blob)
    ensures FlatChild(Child(name, Fresh(parts, blob))) == [Leaf([name] + parts, blob.mode, blob.oid)]
    ensures NodeOk(Fresh(parts, blob))
    ensures Fresh(parts, blob).Dir? ==> Canonical(Fresh(parts, blob).children)
    decreases |parts|
  {
    if parts == [] {
      assert [name] + parts == [name];
    } else {
      var below := Child(parts[0], Fresh(parts[1..], blob));
      FreshFacts(parts[0], parts[1..], blob);
      assert [parts[0]] + parts[1..] == parts;
      assert Flat([below]) == FlatChild(below);
    }
  }

  /** Inserting adds exactly one blob and keeps the tree well formed. */
  lemma {:induction false} InsertAdds(children: seq<Child>, parts: seq<Name>, blob: Node)
    requires WellFormed(children) && parts != [] && ValidParts(parts) && IsBlob(blob)
    requires Insert(children, parts, blob).Some?
    ensures var after := Insert(children, parts, blob).value;
            && after != [] && WellFormed(after)
            && (forall i :: 0 <= i < |after| ==>
                after[i].name == parts[0] || exists j :: 0 <= j < |children| && children[j].name == after[i].name)
            && (forall leaf :: leaf in Flat(after) <==>
                leaf in Flat(children) || leaf == Leaf(parts, blob.mode, blob.oid))
    decreases children
  {
    var after := Insert(children, parts, blob).value;
    assert [parts[0]] + parts[1..] == parts;
    if children == [] {
      FreshFacts(parts[0], parts[1..], blob);
      assert Flat(after) == FlatChild(after[0]);
    } else {
      TailOk(children);
      if children[0].name == parts[0] {
        InsertBelow(children, parts, blob);
      } else {
        InsertAdds(children[1..], parts, blob);
        InsertFurther(children, Insert(children[1..], parts, blob).value, parts, blob);
      }
    }
  }

  lemma InsertFurther(children: seq<Child>, rest: seq<Child>, parts: seq<Name>, blob: Node)
    requires WellFormed(children) && children != [] && parts != [] && children[0].name != parts[0] && blob.File?
    requires rest != [] && WellFormed(rest)
    requires forall i :: 0 <= i < |rest| ==>
             rest[i].name == parts[0] || exists j :: 0 < j < |children| && children[j].name == rest[i].name
    requires forall leaf :: leaf in Flat(rest) <==>
             leaf in Flat(children[1..]) || leaf == Leaf(parts, blob.mode, blob.oid)
    ensures var after := [children[0]] + rest;
            && WellFormed(after)
            && (forall i :: 0 <= i < |after| ==>
                after[i].name == parts[0] || exists j :: 0 <= j < |children| && children[j].name == after[i].name)
            && (forall leaf :: leaf in Flat(after) <==>
                leaf in Flat(children) || leaf == Leaf(parts, blob.mode, blob.oid))
  {
    var after := [children[0]] + rest;
    assert after[1..] == rest;
    assert forall i :: 0 < i < |after| ==> after[i] == rest[i - 1];
  }

  lemma {:induction false} InsertBelow(children: seq<Child>, parts: seq<Name>, blob: Node)
    requires WellFormed(children) && |parts| > 1 && ValidParts(parts) && IsBlob(blob)
    requires children != [] && children[0].name == parts[0] && children[0].node.Dir?
    requires Insert(children[0].node.children, parts[1..], blob).Some?
    ensures var after := [Child(parts[0], Dir(Insert(children[0].node.children, parts[1..], blob).value))] +
            children[1..];
            && WellFormed(after)
            && (forall leaf :: leaf in Flat(after) <==>
                leaf in Flat(children) || leaf == Leaf(parts, blob.mode, blob.oid))
    decreases children, 0
  {
    var c := children[0];
    var sub := Insert(c.node.children, parts[1..], blob).value;
    var d := Child(parts[0], Dir(sub));
    var after := [d] + children[1..];
    InsertAdds(c.node.children, parts[1..], blob);
    assert after[1..] == children[1..];
    var added := Leaf(parts, blob.mode, blob.oid);
    assert [parts[0]] + parts[1..] == parts;
    forall leaf ensures leaf in FlatChild(d) <==> leaf in FlatChild(c) || leaf == added {
      if leaf in FlatChild(d) {
        LeafOfChild(d, leaf);
        var inner := leaf.(path := leaf.path[1..]);
        assert leaf.path == [d.name] + inner.path;
        if inner in Flat(c.node.children) { UnderHas(c.name, Flat(c.node.children), inner); }
      }
      if leaf in FlatChild(c) {
        LeafOfChild(c, leaf);
        var inner := leaf.(path := leaf.path[1..]);
        assert leaf.path == [d.name] + inner.path;
        UnderHas(d.name, Flat(sub), inner);
      }
      if leaf == added {
        UnderHas(d.name, Flat(sub), Leaf(parts[1..], blob.mode, blob.oid));
      }
    }
  }

  function LeafOf(e: Entry): Leaf { Leaf(Split(e.path), e.mode, e.oid) }

  function Leaves(entries: seq<Entry>): seq<Leaf> {
    seq(|entries|, i requires 0 <= i < |entries| => LeafOf(entries[i]))
  }

  /** The tree of an enumeration holds exactly its blobs. */
  lemma {:induction false} BuildContents(entries: seq<Entry>)
    requires ValidEntries(entries) && Build(entries).Some?
    ensures WellFormed(Build(entries).value)
    ensures forall leaf :: leaf in Flat(Build(entries).value) <==> leaf in Leaves(entries)
  {
    if entries == [] {
    } else {
      var n := |entries| - 1;
      BuildContents(entries[..n]);
      InsertAdds(Build(entries[..n]).value, Split(entries[n].path), File(entries[n].mode, entries[n].oid));
      assert Leaves(entries) == Leaves(entries[..n]) + [LeafOf(entries[n])];
    }
  }

  // ----- order -----

  ghost predicate SortedLeaves(leaves: seq<Leaf>)
    requires forall i :: 0 <= i < |leaves| ==> leaves[i].path != []
  {
    forall i, j :: 0 <= i < j < |leaves| ==> Less(Join(leaves[i].path), Join(leaves[j].path))
  }

  ghost predicate Pathed(leaves: seq<Leaf>) {
    forall i :: 0 <= i < |leaves| ==> leaves[i].path != []
  }

  lemma FlatPathed(children: seq<Child>)
    ensures Pathed(Flat(children))
  {
    forall i | 0 <= i < |Flat(children)| ensures Flat(children)[i].path != [] {
      LeafPathNotEmpty(children, Flat(children)[i]);
    }
  }

  /** A blob's path starts with the sort key of the child it lies under. */
  lemma LeafKey(c: Child, leaf: Leaf)
    requires leaf in FlatChild(c)
    ensures leaf.path != [] && SortKey(c) <= Join(leaf.path)
    ensures c.node.File? ==> Join(leaf.path) == SortKey(c)
    ensures c.node.Dir? ==> |leaf.path| > 1 && Join(leaf.path) == SortKey(c) + Join(leaf.path[1..])
  {
    LeafOfChild(c, leaf);
    if c.node.Dir? {
      LeafPathNotEmpty(c.node.children, leaf.(path := leaf.path[1..]));
      assert Join(leaf.path) == SortKey(c) + Join(leaf.path[1..]);
    }
  }

  /** A directory's sort key is a prefix of no other child's. */
  lemma DirKeyPrefix(x: Child, y: Child)
    requires ValidName(x.name) && ValidName(y.name) && x.node.Dir? && SortKey(x) <= SortKey(y)
    ensures x.name == y.name
  {
    var n := |x.name|;
    assert SortKey(y)[n] == SLASH;
    assert forall i :: 0 <= i < |y.name| ==> SortKey(y)[i] == y.name[i];
    assert y.name == SortKey(y)[..n] == x.name;
  }

  /** Blobs under an earlier child come before blobs under a later one. */
  lemma AcrossChildren(x: Child, y: Child, a: Leaf, b: Leaf)
    requires ValidName(x.name) && ValidName(y.name) && x.name != y.name && Less(SortKey(x), SortKey(y))
    requires a in FlatChild(x) && b in FlatChild(y)
    ensures a.path != [] && b.path != [] && Less(Join(a.path), Join(b.path))
  {
    LeafKey(x, a);
    LeafKey(y, b);
    var kx, ky, pa, pb := SortKey(x), SortKey(y), Join(a.path), Join(b.path);
    assert pa == kx + pa[|kx|..] && pb == ky + pb[|ky|..];
    if kx <= ky {
      if x.node.Dir? { DirKeyPrefix(x, y); }
      LessIrreflexive(kx);
      assert pb == pa + pb[|pa|..];
      PrefixLess(pa, pb[|pa|..]);
    } else {
      LessExtended(kx, pa[|kx|..], ky, pb[|ky|..]);
    }
  }

  lemma {:induction false} KeysAscend(children: seq<Child>, i: nat, j: nat)
    requires Canonical(children) && i < j < |children|
    ensures Less(SortKey(children[i]), SortKey(children[j]))
  {
    if i == j - 1 {
    } else {
      KeysAscend(children, i, j - 1);
      LessTransitive(SortKey(children[i]), SortKey(children[j - 1]), SortKey(children[j]));
    }
  }

  lemma {:induction false} ChildSorted(c: Child)
    requires NodeOk(c.node) && (c.node.Dir? ==> Canonical(c.node.children))
    ensures Pathed(FlatChild(c)) && SortedLeaves(FlatChild(c))
    decreases c
  {
    if c.node.File? {
    } else {
      var inner, outer := Flat(c.node.children), FlatChild(c);
      FlatSorted(c.node.children);
      forall i, j | 0 <= i < j < |outer| ensures Less(Join(outer[i].path), Join(outer[j].path)) {
        LeafKey(c, outer[i]);
        LeafKey(c, outer[j]);
        assert outer[i].path[1..] == inner[i].path && outer[j].path[1..] == inner[j].path;
        LessCommonPrefix(SortKey(c), Join(inner[i].path), Join(inner[j].path));
      }
    }
  }

  /** A canonical tree lists its blobs in byte order of their paths. */
  lemma {:induction false} FlatSorted(children: seq<Child>)
    requires WellFormed(children) && Canonical(children)
    ensures Pathed(Flat(children)) && SortedLeaves(Flat(children))
    decreases children
  {
    FlatPathed(children);
    if children == [] {
    } else {
      var first, rest := FlatChild(children[0]), Flat(children[1..]);
      TailOk(children);
      ChildSorted(children[0]);
      FlatSorted(children[1..]);
      forall a, b | a in first && b in rest ensures a.path != [] && b.path != [] && Less(Join(a.path), Join(b.path)) {
        var k := LeafHasChild(children[1..], b);
        KeysAscend(children, 0, k + 1);
        AcrossChildren(children[0], children[k + 1], a, b);
      }
      assert Flat(children) == first + rest;
    }
  }

  /** Two sorted listings of the same blobs are the same listing. */
  lemma {:induction false} SortedUnique(a: seq<Leaf>, b: seq<Leaf>)
    requires Pathed(a) && Pathed(b) && SortedLeaves(a) && SortedLeaves(b)
    requires forall leaf :: leaf in a <==> leaf in b
    ensures a == b
  {
    assert a != [] ==> a[0] in a;
    assert b != [] ==> b[0] in b;
    if a == [] || b == [] {
    } else {
      HeadsAgree(a, b);
      forall leaf ensures leaf in a[1..] <==> leaf in b[1..] {
        LessIrreflexive(Join(a[0].path));
        assert leaf in a <==> leaf == a[0] || leaf in a[1..];
        assert leaf in b <==> leaf == b[0] || leaf in b[1..];
      }
      SortedUnique(a[1..], b[1..]);
      assert a == [a[0]] + a[1..] && b == [b[0]] + b[1..];
    }
  }

  lemma HeadsAgree(a: seq<Leaf>, b: seq<Leaf>)
    requires a != [] && b != [] && Pathed(a) && Pathed(b) && SortedLeaves(a) && SortedLeaves(b)
    requires a[0] in b && b[0] in a
    ensures a[0] == b[0]
  {
    if a[0] != b[0] {
      LessTransitive(Join(a[0].path), Join(b[0].path), Join(a[0].path));
      LessIrreflexive(Join(a[0].path));
    }
  }

  // ----- a listing determines its tree -----

  /** A tree can be read back from its listing. */
  lemma {:induction false} FlatInjective(a: seq<Child>, b: seq<Child>)
    requires WellFormed(a) && WellFormed(b) && Flat(a) == Flat(b)
    ensures a == b
    decreases a
  {
    if a == [] {
    } else {
      FlatNotEmpty(a[0]);
    }
    if b != [] { FlatNotEmpty(b[0]); }
    if a != [] && b != [] {
      FirstBlocksAgree(a, b);
      ChildInjective(a[0], b[0]);
      TailOk(a);
      TailOk(b);
      FlatInjective(a[1..], b[1..]);
      assert a == [a[0]] + a[1..] && b == [b[0]] + b[1..];
    }
  }

  lemma FirstBlocksAgree(a: seq<Child>, b: seq<Child>)
    requires WellFormed(a) && WellFormed(b) && Flat(a) == Flat(b) && a != [] && b != []
    ensures a[0].name == b[0].name && FlatChild(a[0]) == FlatChild(b[0]) && Flat(a[1..]) == Flat(b[1..])
  {
    FlatNotEmpty(a[0]);
    FlatNotEmpty(b[0]);
    var fa, fb := FlatChild(a[0]), FlatChild(b[0]);
    LeafOfChild(a[0], fa[0]);
    LeafOfChild(b[0], fb[0]);
    assert fa[0] == Flat(a)[0] && fb[0] == Flat(b)[0];
    BlockEnds(a, b);
    BlockEnds(b, a);
    assert fa == Flat(a)[..|fa|] == fb;
    assert Flat(a[1..]) == Flat(a)[|fa|..] == Flat(b[1..]);
  }

  /** The blobs under the first child are the longest run with its name. */
  lemma BlockEnds(a: seq<Child>, b: seq<Child>)
    requires WellFormed(a) && WellFormed(b) && Flat(a) == Flat(b) && a != [] && b != [] && a[0].name == b[0].name
    ensures |FlatChild(a[0])| >= |FlatChild(b[0])|
  {
    var n := |FlatChild(a[0])|;
    if n < |FlatChild(b[0])| {
      var leaf := FlatChild(b[0])[n];
      assert leaf == Flat(b)[n] == Flat(a)[n] == Flat(a[1..])[0];
      LeafOfChild(b[0], leaf);
      var k := LeafHasChild(a[1..], leaf);
      LeafOfChild(a[1..][k], leaf);
    }
  }

  lemma {:induction false} ChildInjective(x: Child, y: Child)
    requires NodeOk(x.node) && NodeOk(y.node) && x.name == y.name && FlatChild(x) == FlatChild(y)
    ensures x == y
    decreases x
  {
    FlatNotEmpty(x);
    LeafKey(x, FlatChild(x)[0]);
    LeafKey(y, FlatChild(y)[0]);
    LeafOfChild(x, FlatChild(x)[0]);
    LeafOfChild(y, FlatChild(y)[0]);
    if x.node.Dir? {
      var fx, fy := Flat(x.node.children), Flat(y.node.children);
      assert |fx| == |FlatChild(x)| == |fy|;
      forall i | 0 <= i < |fx| ensures fx[i] == fy[i] {
        assert Under(x.name, fx)[i] == Under(y.name, fy)[i];
        assert ([x.name] + fx[i].path)[1..] == fx[i].path && ([y.name] + fy[i].path)[1..] == fy[i].path;
      }
      assert fx == fy;
      FlatInjective(x.node.children, y.node.children);
    }
  }

  lemma JoinSplit(path: Bytes)
    ensures Join(Split(path)) == path
  {
    JoinSplitOn(path, SLASH);
  }

  /** Two accepted enumerations of the same blobs build the same tree. */
  lemma SameBlobsSameTree(a: seq<Entry>, b: seq<Entry>)
    requires ValidEntries(a) && ValidEntries(b) && Accepted(a) && Accepted(b)
    requires forall e :: e in a <==> e in b
    ensures Build(a) == Build(b)
  {
    var ta, tb := Build(a).value, Build(b).value;
    BuildContents(a);
    BuildContents(b);
    forall leaf ensures leaf in Flat(ta) <==> leaf in Flat(tb) {
      if i :| 0 <= i < |a| && Leaves(a)[i] == leaf { LeavesHas(b, a[i]); }
      if i :| 0 <= i < |b| && Leaves(b)[i] == leaf { LeavesHas(a, b[i]); }
    }
    FlatSorted(ta);
    FlatSorted(tb);
    SortedUnique(Flat(ta), Flat(tb));
    FlatInjective(ta, tb);
  }

  lemma LeavesHas(entries: seq<Entry>, e: Entry)
    ensures e in entries <==> LeafOf(e) in Leaves(entries)
  {
    if i :| 0 <= i < |entries| && entries[i] == e { assert Leaves(entries)[i] == LeafOf(e); }
    if i :| 0 <= i < |entries| && Leaves(entries)[i] == LeafOf(e) {
      JoinSplit(e.path);
      JoinSplit(entries[i].path);
      assert entries[i] == e;
    }
  }

  // ----- sorted enumerations are accepted -----

  ghost predicate ByteSorted(entries: seq<Entry>) {
    forall i, j :: 0 <= i < j < |entries| ==> Less(entries[i].path, entries[j].path)
  }

  /** No path is a directory of another: no component list is a prefix of another. */
  ghost predicate NoCollision(entries: seq<Entry>) {
    forall i, j :: 0 <= i < |entries| && 0 <= j < |entries| && i != j ==>
      !(Split(entries[i].path) <= Split(entries[j].path))
  }

  /** A path that may be inserted: beyond every blob there is, and colliding with none. */
  ghost predicate Beyond(children: seq<Child>, parts: seq<Name>)
    requires parts != []
  {
    forall leaf :: leaf in Flat(children) ==>
      leaf.path != [] && Less(Join(leaf.path), Join(parts)) && !(leaf.path <= parts) && !(parts <= leaf.path)
  }

  lemma KeyDeterminesName(x: Child, y: Child)
    requires ValidName(x.name) && ValidName(y.name) && SortKey(x) == SortKey(y)
    ensures x.name == y.name
  {
    if x.node.Dir? {
      DirKeyPrefix(x, y);
    } else if y.node.Dir? {
      DirKeyPrefix(y, x);
    }
  }

  /** A new child for a path beyond the blobs of another child sorts after that child. */
  lemma NewChildSortsLast(y: Child, z: Child, leaf: Leaf, fresh': Leaf)
    requires ValidName(y.name) && ValidName(z.name) && y.name != z.name
    requires leaf in FlatChild(y) && fresh' in FlatChild(z)
    requires leaf.path != [] && fresh'.path != [] && Less(Join(leaf.path), Join(fresh'.path))
    ensures Less(SortKey(y), SortKey(z))
  {
    LessTotal(SortKey(y), SortKey(z));
    if SortKey(y) == SortKey(z) {
      KeyDeterminesName(y, z);
    } else if Less(SortKey(z), SortKey(y)) {
      AcrossChildren(z, y, fresh', leaf);
      LessTransitive(Join(leaf.path), Join(fresh'.path), Join(leaf.path));
      LessIrreflexive(Join(leaf.path));
    }
  }

  lemma BeyondTail(children: seq<Child>, parts: seq<Name>)
    requires parts != [] && children != [] && Beyond(children, parts)
    ensures Beyond(children[1..], parts)
  {
  }

  /** Below an existing directory the rest of the path is again beyond everything. */
  lemma BeyondBelow(children: seq<Child>, parts: seq<Name>)
    requires WellFormed(children) && children != [] && parts != [] && Beyond(children, parts) &&
             children[0].name == parts[0]
    ensures children[0].node.Dir? && |parts| > 1 && Beyond(children[0].node.children, parts[1..])
  {
    var c := children[0];
    FlatNotEmpty(c);
    var some := FlatChild(c)[0];
    assert some in Flat(children);
    LeafOfChild(c, some);
    assert parts == [c.name] + parts[1..];
    assert |parts| > 1 by { assert some.path == [c.name] + some.path[1..]; }
    if c.node.Dir? {
      forall leaf | leaf in Flat(c.node.children)
        ensures leaf.path != [] && Less(Join(leaf.path), Join(parts[1..])) && !(leaf.path <= parts[1..]) &&
                !(parts[1..] <= leaf.path)
      {
        var outer := leaf.(path := [c.name] + leaf.path);
        UnderHas(c.name, Flat(c.node.children), leaf);
        assert outer in Flat(children);
        LeafPathNotEmpty(c.node.children, leaf);
        assert outer.path[1..] == leaf.path;
        LeafKey(c, outer);
        assert Join(parts) == SortKey(c) + Join(parts[1..]);
        LessCommonPrefix(SortKey(c), Join(leaf.path), Join(parts[1..]));
        assert leaf.path <= parts[1..] ==> outer.path <= parts;
        assert parts[1..] <= leaf.path ==> parts <= outer.path;
      }
    }
  }

  lemma CanonicalCons(c: Child, rest: seq<Child>)
    requires Canonical(rest) && (c.node.Dir? ==> Canonical(c.node.children))
    requires rest != [] ==> Less(SortKey(c), SortKey(rest[0]))
    ensures Canonical([c] + rest)
  {
    var all := [c] + rest;
    assert forall i :: 0 < i < |all| ==> all[i] == rest[i - 1];
  }

  /** Inserting a path beyond all others succeeds and keeps every directory in order. */
  lemma {:induction false} InsertBeyond(children: seq<Child>, parts: seq<Name>, blob: Node)
    requires WellFormed(children) && Canonical(children) && parts != [] && ValidParts(parts) && IsBlob(blob)
    requires Beyond(children, parts)
    ensures var after := Insert(children, parts, blob);
            && after.Some? && after.value != [] && Canonical(after.value)
            && (if children == [] then after.value[0] == Child(parts[0], Fresh(parts[1..], blob))
                else after.value[0].name == children[0].name && SortKey(after.value[0]) == SortKey(children[0]))
    decreases children
  {
    FreshFacts(parts[0], parts[1..], blob);
    if children == [] {
    } else {
      TailOk(children);
      if children[0].name == parts[0] {
        BeyondBelow(children, parts);
        InsertBeyond(children[0].node.children, parts[1..], blob);
        var sub := Insert(children[0].node.children, parts[1..], blob).value;
        var changed := Child(parts[0], Dir(sub));
        assert SortKey(changed) == SortKey(children[0]);
        CanonicalCons(changed, children[1..]);
        assert Insert(children, parts, blob) == Some([changed] + children[1..]);
      } else {
        BeyondTail(children, parts);
        InsertBeyond(children[1..], parts, blob);
        var rest := Insert(children[1..], parts, blob).value;
        if children[1..] == [] {
          FlatNotEmpty(children[0]);
          var leaf := FlatChild(children[0])[0];
          assert leaf in Flat(children) && [parts[0]] + parts[1..] == parts;
          NewChildSortsLast(children[0], rest[0], leaf, FlatChild(rest[0])[0]);
        }
        CanonicalCons(children[0], rest);
      }
    }
  }

  lemma {:induction false} SortedBuilds(entries: seq<Entry>)
    requires ValidEntries(entries) && ByteSorted(entries) && NoCollision(entries)
    ensures Accepted(entries)
  {
    if entries == [] {
    } else {
      var n := |entries| - 1;
      var before, last := entries[..n], entries[n];
      assert forall i :: 0 <= i < n ==> before[i] == entries[i];
      SortedBuilds(before);
      BuildContents(before);
      var tree, parts := Build(before).value, Split(last.path);
      forall leaf | leaf in Flat(tree)
        ensures leaf.path != [] && Less(Join(leaf.path), Join(parts)) && !(leaf.path <= parts) && !(parts <= leaf.path)
      {
        var i :| 0 <= i < n && Leaves(before)[i] == leaf;
        JoinSplit(before[i].path);
        JoinSplit(last.path);
      }
      InsertBeyond(tree, parts, File(last.mode, last.oid));
    }
  }

  /** In a tree no blob's path runs through another blob. */
  lemma {:induction false} NoBlobInsideBlob(children: seq<Child>, a: Leaf, b: Leaf)
    requires WellFormed(children) && a in Flat(children) && b in Flat(children) && a.path <= b.path
    ensures a == b
    decreases children
  {
    var i := LeafHasChild(children, a);
    var j := LeafHasChild(children, b);
    LeafOfChild(children[i], a);
    LeafOfChild(children[j], b);
    assert i == j;
    if children[i].node.Dir? {
      NoBlobInsideBlob(children[i].node.children, a.(path := a.path[1..]), b.(path := b.path[1..]));
      assert a.path == [a.path[0]] + a.path[1..] && b.path == [b.path[0]] + b.path[1..];
    }
  }

  /** A byte-sorted enumeration is accepted exactly when no path runs through another, and then
      listing its tree gives the enumeration back, blob by blob. */
  lemma SortedAcceptedIff(entries: seq<Entry>)
    requires ValidEntries(entries) && ByteSorted(entries)
    ensures Accepted(entries) <==> NoCollision(entries)
    ensures Accepted(entries) ==> Flat(Build(entries).value) == Leaves(entries)
  {
    if NoCollision(entries) { SortedBuilds(entries); }
    if Accepted(entries) {
      var tree := Build(entries).value;
      BuildContents(entries);
      forall i, j | 0 <= i < |entries| && 0 <= j < |entries| && i != j
        ensures !(Split(entries[i].path) <= Split(entries[j].path))
      {
        var a, b := LeafOf(entries[i]), LeafOf(entries[j]);
        assert Leaves(entries)[i] == a && Leaves(entries)[j] == b;
        JoinSplit(entries[i].path);
        JoinSplit(entries[j].path);
        LessIrreflexive(entries[i].path);
        if a.path <= b.path { NoBlobInsideBlob(tree, a, b); }
      }
      FlatSorted(tree);
      forall i | 0 <= i < |entries| ensures Join(Leaves(entries)[i].path) == entries[i].path {
        JoinSplit(entries[i].path);
      }
      SortedUnique(Flat(tree), Leaves(entries));
    }
  }

  // ----- the root hash -----

  /** Everything hashed for a tree: the pre-image of each of its directories. */
  ghost function TreePreImages(sha1: Bytes -> Oid, children: seq<Child>): set<Bytes>
    decreases children
  {
    if children == [] then {}
    else
      (match children[0].node
       case File(_, _) => {}
       case Dir(sub) => {TreePreImage(Body(sha1, sub))} + TreePreImages(sha1, sub)) + TreePreImages(sha1, children[1..])
  }

  ghost function RootPreImages(sha1: Bytes -> Oid, children: seq<Child>): set<Bytes> {
    {TreePreImage(Body(sha1, children))} + TreePreImages(sha1, children)
  }

  lemma {:induction false} DecimalHasNoNul(n: nat)
    ensures 0 !in Decimal(n)
  {
    if n < 10 {
    } else {
      DecimalHasNoNul(n / 10);
    }
  }

  lemma TreePreImageInjective(a: Bytes, b: Bytes)
    requires TreePreImage(a) == TreePreImage(b)
    ensures a == b
  {
    var da, db := Decimal(|a|), Decimal(|b|);
    assert da + [0] + a == TreePreImage(a)[5..] && db + [0] + b == TreePreImage(b)[5..];
    DecimalHasNoNul(|a|);
    DecimalHasNoNul(|b|);
    DelimitedSplit(da, a, db, b, 0);
  }

  /** One directory row ends where its fields say, whatever follows. */
  lemma EntryBytesPrefixFree(m: Bytes, n: Name, o: Oid, x: Bytes, m': Bytes, n': Name, o': Oid, x': Bytes)
    requires EntryBytes(m, n, o) + x == EntryBytes(m', n', o') + x'
    requires 32 !in m && 32 !in m' && 0 !in n && 0 !in n'
    ensures m == m' && n == n' && o == o' && x == x'
  {
    assert m + [32] + (n + [0] + (o + x)) == EntryBytes(m, n, o) + x;
    assert m' + [32] + (n' + [0] + (o' + x')) == EntryBytes(m', n', o') + x';
    DelimitedSplit(m, n + [0] + (o + x), m', n' + [0] + (o' + x'), 32);
    DelimitedSplit(n, o + x, n', o' + x', 0);
    assert o == (o + x)[..20] && o' == (o' + x')[..20] && x == (o + x)[20..] && x' == (o' + x')[20..];
  }

  function RowMode(node: Node): Bytes { if node.File? then node.mode else MODE_TREE }

  function RowOid(sha1: Bytes -> Oid, node: Node): Oid {
    if node.File? then node.oid else TreeOid(sha1, node.children)
  }

  lemma BodyUnfold(sha1: Bytes -> Oid, children: seq<Child>)
    requires children != []
    ensures Body(sha1, children) ==
            EntryBytes(RowMode(children[0].node), children[0].name, RowOid(sha1, children[0].node)) +
              Body(sha1, children[1..])
  {
  }

  lemma RowModeFacts(x: Node, y: Node)
    requires NodeOk(x) && NodeOk(y)
    ensures 32 !in RowMode(x)
    ensures RowMode(x) == RowMode(y) ==> x.File? == y.File?
  {
    assert MODE_TREE[0] != MODE_FILE[0] && MODE_TREE[0] != MODE_EXECUTABLE[0];
  }

  lemma RowsAgree(sha1: Bytes -> Oid, a: seq<Child>, b: seq<Child>)
    requires a != [] && b != [] && WellFormed(a) && WellFormed(b) && Body(sha1, a) == Body(sha1, b)
    ensures a[0].name == b[0].name && a[0].node.File? == b[0].node.File? && RowMode(a[0].node) == RowMode(b[0].node)
    ensures RowOid(sha1, a[0].node) == RowOid(sha1, b[0].node) && Body(sha1, a[1..]) == Body(sha1, b[1..])
  {
    BodyUnfold(sha1, a);
    BodyUnfold(sha1, b);
    RowModeFacts(a[0].node, b[0].node);
    RowModeFacts(b[0].node, a[0].node);
    EntryBytesPrefixFree(RowMode(a[0].node), a[0].name, RowOid(sha1, a[0].node), Body(sha1, a[1..]),
                         RowMode(b[0].node), b[0].name, RowOid(sha1, b[0].node), Body(sha1, b[1..]));
  }

  lemma EmptyBody(sha1: Bytes -> Oid, a: seq<Child>)
    requires Body(sha1, a) == []
    ensures a == []
  {
    if a != [] { BodyUnfold(sha1, a); }
  }

  /** Without a collision among the directories hashed, equal bodies are equal trees. */
  lemma {:induction false} BodyInjective(sha1: Bytes -> Oid, a: seq<Child>, b: seq<Child>, hashed: set<Bytes>)
    requires WellFormed(a) && WellFormed(b) && Body(sha1, a) == Body(sha1, b)
    requires CollisionFree(sha1, hashed) && TreePreImages(sha1, a) <= hashed && TreePreImages(sha1, b) <= hashed
    ensures a == b
    decreases a
  {
    if a == [] {
      EmptyBody(sha1, b);
    } else if b == [] {
      EmptyBody(sha1, a);
    } else {
      RowsAgree(sha1, a, b);
      if a[0].node.Dir? {
        var x, y := a[0].node.children, b[0].node.children;
        TreePreImageInjective(Body(sha1, x), Body(sha1, y));
        BodyInjective(sha1, x, y, hashed);
      }
      TailOk(a);
      TailOk(b);
      BodyInjective(sha1, a[1..], b[1..], hashed);
      assert a == [a[0]] + a[1..] && b == [b[0]] + b[1..];
    }
  }

  /** The Merkle root fixes the tree: two accepted enumerations have the same root exactly when
      they hold the same paths with the same modes and object ids, in whatever order listed. */
  lemma RootFixesEntries(sha1: Bytes -> Oid, a: seq<Entry>, b: seq<Entry>)
    requires ValidEntries(a) && ValidEntries(b) && Accepted(a) && Accepted(b)
    requires CollisionFree(sha1, RootPreImages(sha1, Build(a).value) + RootPreImages(sha1, Build(b).value))
    ensures TreeOid(sha1, Build(a).value) == TreeOid(sha1, Build(b).value) <==> (forall e :: e in a <==> e in b)
  {
    var ta, tb := Build(a).value, Build(b).value;
    BuildContents(a);
    BuildContents(b);
    if TreeOid(sha1, ta) == TreeOid(sha1, tb) {
      TreePreImageInjective(Body(sha1, ta), Body(sha1, tb));
      BodyInjective(sha1, ta, tb, RootPreImages(sha1, ta) + RootPreImages(sha1, tb));
      forall e ensures e in a <==> e in b {
        LeavesHas(a, e);
        LeavesHas(b, e);
      }
    }
    if forall e :: e in a <==> e in b { SameBlobsSameTree(a, b); }
  }
}
