/** Reading Git's tree objects: `tree`, the size in decimal, NUL, and one row per child. What is
    hashed for a directory is such an object, all the way down. */
module GitTreeReader {
  import opened Common
  import opened GitTree
  import opened GitTreeProofs
  import opened GitEnumeration

  datatype Row = Row(mode: Bytes, name: Name, oid: Oid)

  /** The number that decimal digits stand for. */
  function DecimalValue(digits: Bytes, before: nat): Option<nat> {
    if digits == [] then Some(before)
    else if !('0' as int <= digits[0] <= '9' as int) then None
    else DecimalValue(digits[1..], before * 10 + (digits[0] - '0' as int))
  }

  /** A row: mode, space, name, NUL, and 20 bytes of object id; what follows is left. */
  function ReadRow(b: Bytes): Option<(Row, Bytes)> {
    if ' ' as int !in b then None
    else
      var (mode, afterMode) := Partition(b, ' ' as int);
      if 0 !in afterMode then None
      else
        var (name, afterName) := Partition(afterMode, 0);
        if |afterName| < 20 then None else Some((Row(mode, name, afterName[..20]), afterName[20..]))
  }

  lemma {:induction false} PartitionIsShorter(b: Bytes, d: Byte)
    requires d in b
    ensures |Partition(b, d).1| < |b|
  {
    if b[0] == d {
    } else {
      PartitionIsShorter(b[1..], d);
    }
  }

  lemma RowIsShorter(b: Bytes)
    requires ReadRow(b).Some?
    ensures |ReadRow(b).value.1| < |b|
  {
    PartitionIsShorter(b, ' ' as int);
    PartitionIsShorter(Partition(b, ' ' as int).1, 0);
  }

  function ReadRows(b: Bytes): Option<seq<Row>>
    decreases |b|
  {
    if b == [] then Some([])
    else if ReadRow(b).None? then None
    else
      RowIsShorter(b);
      var rest := ReadRows(ReadRow(b).value.1);
      if rest.None? then None else Some([ReadRow(b).value.0] + rest.value)
  }

  /** A tree object, whole. */
  function ReadTree(b: Bytes): Option<seq<Row>> {
    if |b| < 5 || b[..5] != Ascii("tree ") || 0 !in b[5..] then None
    else
      var (size, body) := Partition(b[5..], 0);
      if size == [] || DecimalValue(size, 0) != Some(|body|) then None else ReadRows(body)
  }

  lemma {:induction false} DecimalValueSnoc(digits: Bytes, last: Byte, before: nat)
    requires DecimalValue(digits, before).Some? && '0' as int <= last <= '9' as int
    ensures DecimalValue(digits + [last], before) ==
            Some(DecimalValue(digits, before).value * 10 + (last - '0' as int))
    decreases |digits|
  {
    if digits == [] {
      assert [last][1..] == [];
    } else {
      assert (digits + [last])[1..] == digits[1..] + [last];
      DecimalValueSnoc(digits[1..], last, before * 10 + (digits[0] - '0' as int));
    }
  }

  lemma {:induction false} DecimalIsRead(n: nat)
    ensures Decimal(n) != [] && DecimalValue(Decimal(n), 0) == Some(n)
  {
    if n < 10 {
      assert Decimal(n)[1..] == [];
    } else {
      DecimalIsRead(n / 10);
      DecimalValueSnoc(Decimal(n / 10), 48 + n % 10, 0);
    }
  }

  lemma RowIsRead(mode: Bytes, name: Name, oid: Oid, rest: Bytes)
    requires 32 !in mode && 0 !in name
    ensures ReadRow(EntryBytes(mode, name, oid) + rest) == Some((Row(mode, name, oid), rest))
  {
    var afterName := oid + rest;
    var afterMode := name + [0] + afterName;
    assert EntryBytes(mode, name, oid) + rest == mode + [32] + afterMode;
    PartitionOf(mode, afterMode, 32);
    PartitionOf(name, afterName, 0);
    assert afterName[..20] == oid && afterName[20..] == rest;
  }

  function RowFor(sha1: Bytes -> Oid, c: Child): Row { Row(RowMode(c.node), c.name, RowOid(sha1, c.node)) }

  /** The rows of a directory, child by child. */
  function RowsOf(sha1: Bytes -> Oid, children: seq<Child>): seq<Row> {
    if children == [] then []
    else [RowFor(sha1, children[0])] + RowsOf(sha1, children[1..])
  }

  lemma {:induction false} BodyIsRead(sha1: Bytes -> Oid, children: seq<Child>)
    requires WellFormed(children)
    ensures ReadRows(Body(sha1, children)) == Some(RowsOf(sha1, children))
    decreases |children|
  {
    if children == [] {
    } else {
      var c := children[0];
      BodyUnfold(sha1, children);
      RowModeFacts(c.node, c.node);
      RowIsRead(RowMode(c.node), c.name, RowOid(sha1, c.node), Body(sha1, children[1..]));
      TailOk(children);
      BodyIsRead(sha1, children[1..]);
    }
  }

  lemma TreeIsRead(sha1: Bytes -> Oid, children: seq<Child>)
    requires WellFormed(children)
    ensures ReadTree(TreePreImage(Body(sha1, children))) == Some(RowsOf(sha1, children))
  {
    var body := Body(sha1, children);
    var b, size := TreePreImage(body), Decimal(|body|);
    assert b[..5] == Ascii("tree ") && b[5..] == size + [0] + body;
    DecimalHasNoNul(|body|);
    PartitionOf(size, body, 0);
    DecimalIsRead(|body|);
    BodyIsRead(sha1, children);
  }

  lemma {:induction false} RowsOfAt(sha1: Bytes -> Oid, children: seq<Child>, i: nat)
    requires i < |children|
    ensures |RowsOf(sha1, children)| == |children|
    ensures RowsOf(sha1, children)[i] == RowFor(sha1, children[i])
  {
    if i == 0 {
      if |children| > 1 { RowsOfAt(sha1, children[1..], 0); }
    } else {
      RowsOfAt(sha1, children[1..], i - 1);
    }
  }

  /** A row describes a child: a file by its own mode and id, a directory by mode 40000 and the id of
      a tree object for it. */
  ghost predicate Describes(sha1: Bytes -> Oid, row: Row, c: Child)
    decreases c, 0
  {
    && row.name == c.name
    && match c.node
       case File(mode, oid) => row.mode == mode && row.oid == oid
       case Dir(sub) => row.mode == Ascii("40000") && exists b :: IsTreeObject(sha1, b, sub) && row.oid == sha1(b)
  }

  /** These bytes are Git's tree object of a directory: one row per child, in order. */
  ghost predicate IsTreeObject(sha1: Bytes -> Oid, b: Bytes, children: seq<Child>)
    decreases children, 1
  {
    var rows := ReadTree(b);
    && rows.Some? && |rows.value| == |children|
    && forall i :: 0 <= i < |children| ==> Describes(sha1, rows.value[i], children[i])
  }

  lemma TreeModeSpelled()
    ensures MODE_TREE == Ascii("40000")
  {
  }

  /** What is hashed for a directory is its tree object, and so for every directory inside it. */
  lemma {:induction false} HashedIsTreeObject(sha1: Bytes -> Oid, children: seq<Child>)
    requires WellFormed(children)
    ensures IsTreeObject(sha1, TreePreImage(Body(sha1, children)), children)
    decreases children
  {
    TreeIsRead(sha1, children);
    var rows := RowsOf(sha1, children);
    if children == [] {
    } else {
      RowsOfAt(sha1, children, 0);
    }
    forall i | 0 <= i < |children| ensures Describes(sha1, rows[i], children[i]) {
      RowsOfAt(sha1, children, i);
      ChildIsDescribed(sha1, rows[i], children[i]);
    }
  }

  lemma {:induction false} ChildIsDescribed(sha1: Bytes -> Oid, row: Row, c: Child)
    requires NodeOk(c.node) && row == RowFor(sha1, c)
    ensures Describes(sha1, row, c)
    decreases c
  {
    match c.node
    case File(mode, oid) =>
    case Dir(sub) =>
      HashedIsTreeObject(sha1, sub);
      TreeModeSpelled();
  }

  /** The root of an accepted enumeration is the hash of Git's tree object for the tree built from it,
      which holds exactly the enumerated entries. */
  lemma RootIsGitsTree(sha1: Bytes -> Oid, entries: seq<Entry>) returns (b: Bytes)
    requires ValidEntries(entries) && Accepted(entries)
    ensures TreeOid(sha1, Build(entries).value) == sha1(b) && IsTreeObject(sha1, b, Build(entries).value)
    ensures forall leaf :: leaf in Flat(Build(entries).value) <==> leaf in Leaves(entries)
  {
    BuildContents(entries);
    b := TreePreImage(Body(sha1, Build(entries).value));
    HashedIsTreeObject(sha1, Build(entries).value);
  }
}
