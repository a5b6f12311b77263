/** The Git tree root of a flat enumeration: `git_tree_oid` of `verify_inventory.py`. The nested
    dictionaries become a tree whose children keep their insertion order. */
module GitTree {
  import opened Common
  import opened ByteOrder

  type Oid = b: Bytes | |b| == 20 witness seq(20, _ => 0)
  type Name = Bytes

  const SLASH: Byte := 47
  const MODE_FILE: Bytes := [49, 48, 48, 54, 52, 52]
  const MODE_EXECUTABLE: Bytes := [49, 48, 48, 55, 53, 53]
  const MODE_TREE: Bytes := [52, 48, 48, 48, 48]

  /** One enumerated blob: its path, mode and object id. */
  datatype Entry = Entry(path: Bytes, mode: Bytes, oid: Oid)

  datatype Node = File(mode: Bytes, oid: Oid) | Dir(children: seq<Child>)
  datatype Child = Child(name: Name, node: Node)

  /** `text.split(delimiter)`: always at least one part. */
  function SplitOn(text: Bytes, delimiter: Byte): (parts: seq<Bytes>)
    ensures parts != []
  {
    if text == [] then [[]]
    else
      var rest := SplitOn(text[1..], delimiter);
      if text[0] == delimiter then [[]] + rest else [[text[0]] + rest[0]] + rest[1..]
  }

  function JoinWith(parts: seq<Bytes>, delimiter: Byte): Bytes
    requires parts != []
  {
    if |parts| == 1 then parts[0] else parts[0] + [delimiter] + JoinWith(parts[1..], delimiter)
  }

  /** A path's components. */
  function Split(path: Bytes): (parts: seq<Name>)
    ensures parts != []
  {
    SplitOn(path, SLASH)
  }

  function Join(parts: seq<Name>): Bytes
    requires parts != []
  {
    JoinWith(parts, SLASH)
  }

  lemma {:induction false} JoinSplitOn(text: Bytes, d: Byte)
    ensures JoinWith(SplitOn(text, d), d) == text
  {
    if text == [] {
    } else {
      JoinSplitOn(text[1..], d);
      var rest := SplitOn(text[1..], d);
      if text[0] == d {
        assert ([[]] + rest)[1..] == rest;
      } else {
        var parts := [[text[0]] + rest[0]] + rest[1..];
        if |rest| > 1 {
          assert parts[1..] == rest[1..];
          assert JoinWith(parts, d) == [text[0]] + (rest[0] + [d] + JoinWith(rest[1..], d));
        }
      }
      assert text == [text[0]] + text[1..];
    }
  }

  /** A component that `path_bytes` admits: not empty, no slash, no NUL. */
  predicate ValidName(name: Name) { name != [] && SLASH !in name && 0 !in name }

  /** What `parse_enumeration` guarantees of every entry. */
  predicate ValidEntry(e: Entry) {
    (forall i :: 0 <= i < |Split(e.path)| ==> ValidName(Split(e.path)[i])) &&
    (e.mode == MODE_FILE || e.mode == MODE_EXECUTABLE)
  }

  ghost predicate ValidEntries(entries: seq<Entry>) {
    forall i :: 0 <= i < |entries| ==> ValidEntry(entries[i])
  }

  /** The chain of new directories down to a blob. */
  function Fresh(parts: seq<Name>, blob: Node): Node {
    if parts == [] then blob else Dir([Child(parts[0], Fresh(parts[1..], blob))])
  }

  /** Insert one blob, creating directories as needed; no value on a file/directory collision. */
  function Insert(children: seq<Child>, parts: seq<Name>, blob: Node): Option<seq<Child>>
    requires parts != []
    decreases children
  {
    if children == [] then Some([Child(parts[0], Fresh(parts[1..], blob))])
    else if children[0].name == parts[0] then
      if |parts| == 1 || children[0].node.File? then None
      else
        var sub := Insert(children[0].node.children, parts[1..], blob);
        if sub.None? then None else Some([Child(parts[0], Dir(sub.value))] + children[1..])
    else
      var rest := Insert(children[1..], parts, blob);
      if rest.None? then None else Some([children[0]] + rest.value)
  }

  /** The tree of an enumeration, its entries inserted in order. */
  function Build(entries: seq<Entry>): Option<seq<Child>> {
    if entries == [] then Some([])
    else
      var n := |entries| - 1;
      var before := Build(entries[..n]);
      if before.None? then None
      else Insert(before.value, Split(entries[n].path), File(entries[n].mode, entries[n].oid))
  }

  /** The key under which Git sorts a child: a directory sorts as if its name ended in a slash. */
  function SortKey(c: Child): Bytes {
    if c.node.Dir? then c.name + [SLASH] else c.name
  }

  /** Every directory lists its children in strictly ascending order. */
  predicate Canonical(children: seq<Child>)
    decreases children
  {
    (forall i :: 0 < i < |children| ==> Less(SortKey(children[i - 1]), SortKey(children[i]))) &&
    (forall i :: 0 <= i < |children| && children[i].node.Dir? ==> Canonical(children[i].node.children))
  }

  function Decimal(n: nat): Bytes {
    if n < 10 then [48 + n] else Decimal(n / 10) + [48 + n % 10]
  }

  function EntryBytes(mode: Bytes, name: Name, oid: Oid): Bytes {
    mode + [32] + (name + [0] + oid)
  }

  /** The bytes that are hashed for a directory: `tree `, the body's length, NUL, the body. */
  function TreePreImage(body: Bytes): Bytes {
    [116, 114, 101, 101, 32] + (Decimal(|body|) + [0] + body)
  }

  function Body(sha1: Bytes -> Oid, children: seq<Child>): Bytes
    decreases children
  {
    if children == [] then []
    else
      var c := children[0];
      (match c.node
       case File(mode, oid) => EntryBytes(mode, c.name, oid)
       case Dir(sub) => EntryBytes(MODE_TREE, c.name, sha1(TreePreImage(Body(sha1, sub))))) + Body(sha1, children[1..])
  }

  function TreeOid(sha1: Bytes -> Oid, children: seq<Child>): Oid {
    sha1(TreePreImage(Body(sha1, children)))
  }

  ghost predicate Accepted(entries: seq<Entry>) {
    Build(entries).Some? && Canonical(Build(entries).value)
  }

  lemma {:induction false} BodySnoc(sha1: Bytes -> Oid, children: seq<Child>, c: Child)
    ensures Body(sha1, children + [c]) == Body(sha1, children) + Body(sha1, [c])
    decreases |children|
  {
    if children == [] {
      assert children + [c] == [c];
    } else {
      assert (children + [c])[1..] == children[1..] + [c];
      BodySnoc(sha1, children[1..], c);
    }
  }

  /** The body grows by one row per child. */
  lemma BodyNext(sha1: Bytes -> Oid, children: seq<Child>, i: nat)
    requires i < |children|
    ensures var c := children[i];
            Body(sha1, children[..i + 1]) == Body(sha1, children[..i]) +
              match c.node
              case File(mode, oid) => EntryBytes(mode, c.name, oid)
              case Dir(sub) => EntryBytes(MODE_TREE, c.name, TreeOid(sha1, sub))
  {
    assert children[..i + 1] == children[..i] + [children[i]];
    BodySnoc(sha1, children[..i], children[i]);
    assert Body(sha1, [children[i]]) + [] == Body(sha1, [children[i]]);
  }

  /** `fold`: one directory, its children in order, with a running previous key. */
  method FoldTree(sha1: Bytes -> Oid, children: seq<Child>) returns (oid: Option<Oid>)
    ensures oid == if Canonical(children) then Some(TreeOid(sha1, children)) else None
    decreases children
  {
    var body: Bytes := [];
    var previous: Option<Bytes> := None;
    for i := 0 to |children|
      invariant body == Body(sha1, children[..i])
      invariant previous == if i == 0 then None else Some(SortKey(children[i - 1]))
      invariant forall j :: 0 < j < i ==> Less(SortKey(children[j - 1]), SortKey(children[j]))
      invariant forall j :: 0 <= j < i && children[j].node.Dir? ==> Canonical(children[j].node.children)
    {
      var c := children[i];
      var key := SortKey(c);
      if previous.Some? && !Less(previous.value, key) { return None; }
      previous := Some(key);
      BodyNext(sha1, children, i);
      match c.node {
        case File(mode, blob) =>
          body := body + EntryBytes(mode, c.name, blob);
        case Dir(sub) =>
          var child := FoldTree(sha1, sub);
          if child.None? { return None; }
          body := body + EntryBytes(MODE_TREE, c.name, child.value);
      }
    }
    assert children[..|children|] == children;
    oid := Some(sha1(TreePreImage(body)));
  }

  /** `git_tree_oid`: build the tree entry by entry, then fold it from the root. */
  method GitTreeOid(sha1: Bytes -> Oid, entries: seq<Entry>) returns (oid: Option<Oid>)
    ensures oid.Some? <==> Accepted(entries)
    ensures oid.Some? ==> oid.value == TreeOid(sha1, Build(entries).value)
  {
    var root: seq<Child> := [];
    for i := 0 to |entries|
      invariant Build(entries[..i]) == Some(root)
    {
      assert entries[..i + 1][..i] == entries[..i];
      var next := Insert(root, Split(entries[i].path), File(entries[i].mode, entries[i].oid));
      if next.None? {
        BuildFailsEarly(entries, i + 1);
        return None;
      }
      root := next.value;
    }
    assert entries[..|entries|] == entries;
    oid := FoldTree(sha1, root);
  }

  lemma {:induction false} BuildFailsEarly(entries: seq<Entry>, i: nat)
    requires i <= |entries| && Build(entries[..i]).None?
    ensures Build(entries).None?
    decreases |entries| - i
  {
    if i < |entries| {
      assert entries[..i + 1][..i] == entries[..i];
      BuildFailsEarly(entries, i + 1);
    } else {
      assert entries[..i] == entries;
    }
  }
}
