/** Reading a NUL-terminated Git enumeration, of the index or of a tree: `parse_enumeration` and
    `path_bytes` of `verify_inventory.py`. */
module GitEnumeration {
  import opened Common
  import opened Hex
  import opened ByteOrder
  import opened GitTree

  const NUL: Byte := 0
  const TAB: Byte := 9
  const SPACE: Byte := 32
  const BLOB: Bytes := [98, 108, 111, 98]
  const STAGE_ZERO: Bytes := [48]
  const MAX_RECORDS := 50000
  const MAX_PATH := 4096
  const MAX_DEPTH := 64

  /** What `path_bytes` admits; `utf8` says whether bytes decode as UTF-8. */
  predicate PathOk(utf8: Bytes -> bool, path: Bytes) {
    && utf8(path) && 0 < |path| <= MAX_PATH && |Split(path)| <= MAX_DEPTH
    && (forall i :: 0 <= i < |Split(path)| ==>
        Split(path)[i] != [] && Split(path)[i] != [46] && Split(path)[i] != [46, 46])
    && NUL !in path && 92 !in path && 58 !in path
  }

  predicate Admissible(utf8: Bytes -> bool, e: Entry) {
    PathOk(utf8, e.path) && (e.mode == MODE_FILE || e.mode == MODE_EXECUTABLE)
  }

  ghost predicate IsEnumeration(utf8: Bytes -> bool, entries: seq<Entry>) {
    && |entries| <= MAX_RECORDS
    && (forall i :: 0 <= i < |entries| ==> Admissible(utf8, entries[i]))
    && (forall i, j :: 0 <= i < j < |entries| ==> entries[i].path != entries[j].path)
  }

  // ----- splitting -----

  /** `row.partition(d)`: what is before and after the first delimiter. */
  function Partition(row: Bytes, d: Byte): (Bytes, Bytes)
    requires d in row
  {
    if row[0] == d then ([], row[1..])
    else var (head, tail) := Partition(row[1..], d); ([row[0]] + head, tail)
  }

  lemma {:induction false} PartitionFacts(row: Bytes, d: Byte)
    requires d in row
    ensures var (head, tail) := Partition(row, d); head + [d] + tail == row && d !in head
  {
    if row[0] == d {
      assert [] + [d] + row[1..] == row;
    } else {
      PartitionFacts(row[1..], d);
      assert row == [row[0]] + row[1..];
    }
  }

  lemma PartitionOf(head: Bytes, tail: Bytes, d: Byte)
    requires d !in head
    ensures d in head + [d] + tail && Partition(head + [d] + tail, d) == (head, tail)
  {
    var row := head + [d] + tail;
    assert row[|head|] == d;
    PartitionFacts(row, d);
    DelimitedSplit(head, tail, Partition(row, d).0, Partition(row, d).1, d);
  }

  lemma {:induction false} SplitNone(a: Bytes, d: Byte)
    requires d !in a
    ensures SplitOn(a, d) == [a]
  {
    if a == [] {
    } else {
      SplitNone(a[1..], d);
      assert a == [a[0]] + a[1..];
    }
  }

  lemma {:induction false} SplitFirst(a: Bytes, rest: Bytes, d: Byte)
    requires d !in a
    ensures SplitOn(a + [d] + rest, d) == [a] + SplitOn(rest, d)
  {
    var text := a + [d] + rest;
    if a == [] {
      assert text[1..] == rest;
    } else {
      SplitFirst(a[1..], rest, d);
      assert text[1..] == a[1..] + [d] + rest;
      assert a == [a[0]] + a[1..];
    }
  }

  lemma {:induction false} SplitParts(text: Bytes, d: Byte, b: Byte)
    ensures forall i :: 0 <= i < |SplitOn(text, d)| ==> d !in SplitOn(text, d)[i]
    ensures b !in text ==> forall i :: 0 <= i < |SplitOn(text, d)| ==> b !in SplitOn(text, d)[i]
  {
    if text == [] {
    } else {
      SplitParts(text[1..], d, b);
    }
  }

  // ----- one row -----

  function RenderHead(e: Entry, index: bool): Bytes {
    e.mode + [SPACE] + (if index then ToHex(e.oid) + [SPACE] + STAGE_ZERO else BLOB + [SPACE] + ToHex(e.oid))
  }

  /** A row as `git ls-files --stage` or `git ls-tree` prints it. */
  function RenderRow(e: Entry, index: bool): Bytes { RenderHead(e, index) + [TAB] + e.path }

  function ParseHead(head: Bytes, index: bool): Option<(Bytes, Oid)> {
    var f := SplitOn(head, SPACE);
    if (exists i :: 0 <= i < |head| && head[i] >= 128) || |f| != 3 then None
    else
      var oid := FromHex(if index then f[1] else f[2]);
      if (if index then f[2] != STAGE_ZERO else f[1] != BLOB) then None
      else if !(f[0] == MODE_FILE || f[0] == MODE_EXECUTABLE) then None
      else if oid.None? || |oid.value| != 20 then None
      else Some((f[0], oid.value))
  }

  function ParseRow(utf8: Bytes -> bool, row: Bytes, index: bool): Option<Entry> {
    if TAB !in row then None
    else
      var (head, path) := Partition(row, TAB);
      var fields := ParseHead(head, index);
      if fields.None? || !PathOk(utf8, path) then None else Some(Entry(path, fields.value.0, fields.value.1))
  }

  lemma HeadBytes(e: Entry, index: bool)
    requires e.mode == MODE_FILE || e.mode == MODE_EXECUTABLE
    ensures forall i :: 0 <= i < |RenderHead(e, index)| ==> 32 <= RenderHead(e, index)[i] < 128
  {
    HexRoundTrip(e.oid);
  }

  lemma ParseHeadOf(e: Entry, index: bool)
    requires e.mode == MODE_FILE || e.mode == MODE_EXECUTABLE
    ensures ParseHead(RenderHead(e, index), index) == Some((e.mode, e.oid))
  {
    HexRoundTrip(e.oid);
    HeadBytes(e, index);
    var x, y := if index then ToHex(e.oid) else BLOB, if index then STAGE_ZERO else ToHex(e.oid);
    assert SPACE !in ToHex(e.oid);
    SplitFirst(e.mode, x + [SPACE] + y, SPACE);
    SplitFirst(x, y, SPACE);
    SplitNone(y, SPACE);
  }

  lemma HeadOfParsed(head: Bytes, index: bool, path: Bytes)
    requires ParseHead(head, index).Some?
    ensures var (mode, oid) := ParseHead(head, index).value;
            (mode == MODE_FILE || mode == MODE_EXECUTABLE) && head == RenderHead(Entry(path, mode, oid), index)
  {
    var f := SplitOn(head, SPACE);
    JoinSplitOn(head, SPACE);
    assert JoinWith(f[1..][1..], SPACE) == f[2] && JoinWith(f[1..], SPACE) == f[1] + [SPACE] + f[2];
    HexCanonical(if index then f[1] else f[2]);
  }

  /** A row is accepted, as a given entry, exactly when it is that entry written out. */
  lemma RowIff(utf8: Bytes -> bool, row: Bytes, index: bool, e: Entry)
    ensures ParseRow(utf8, row, index) == Some(e) <==> Admissible(utf8, e) && row == RenderRow(e, index)
  {
    if Admissible(utf8, e) && row == RenderRow(e, index) {
      HeadBytes(e, index);
      PartitionOf(RenderHead(e, index), e.path, TAB);
      ParseHeadOf(e, index);
    }
    if ParseRow(utf8, row, index) == Some(e) {
      PartitionFacts(row, TAB);
      HeadOfParsed(Partition(row, TAB).0, index, e.path);
    }
  }

  // ----- the whole enumeration -----

  function RenderAll(entries: seq<Entry>, index: bool): Bytes {
    if entries == [] then [] else RenderRow(entries[0], index) + [NUL] + RenderAll(entries[1..], index)
  }

  lemma {:induction false} SplitRendered(utf8: Bytes -> bool, entries: seq<Entry>, index: bool)
    requires forall i :: 0 <= i < |entries| ==> Admissible(utf8, entries[i])
    ensures var rows := SplitOn(RenderAll(entries, index), NUL);
            && |rows| == |entries| + 1 && rows[|entries|] == []
            && forall i :: 0 <= i < |entries| ==> rows[i] == RenderRow(entries[i], index)
    decreases |entries|
  {
    if entries == [] {
    } else {
      SplitRendered(utf8, entries[1..], index);
      HeadBytes(entries[0], index);
      assert NUL !in RenderRow(entries[0], index);
      SplitFirst(RenderRow(entries[0], index), RenderAll(entries[1..], index), NUL);
    }
  }

  lemma {:induction false} JoinRows(rows: seq<Bytes>, entries: seq<Entry>, index: bool)
    requires |rows| == |entries| + 1 && rows[|entries|] == []
    requires forall i :: 0 <= i < |entries| ==> rows[i] == RenderRow(entries[i], index)
    ensures JoinWith(rows, NUL) == RenderAll(entries, index)
    decreases |entries|
  {
    if entries == [] {
    } else {
      JoinRows(rows[1..], entries[1..], index);
    }
  }

  ghost predicate RowsParsed(utf8: Bytes -> bool, rows: seq<Bytes>, index: bool, entries: seq<Entry>)
    requires |entries| <= |rows|
  {
    forall i :: 0 <= i < |entries| ==> ParseRow(utf8, rows[i], index) == Some(entries[i])
  }

  /** `parse_enumeration`: the result, if any, written out is the input, and every enumeration
      within the limits is read back from its written form. */
  method ParseEnumeration(utf8: Bytes -> bool, raw: Bytes, index: bool) returns (r: Option<seq<Entry>>)
    ensures r.Some? ==> IsEnumeration(utf8, r.value) && raw == RenderAll(r.value, index)
    ensures forall es :: IsEnumeration(utf8, es) && raw == RenderAll(es, index) ==> r == Some(es)
  {
    var rows := SplitOn(raw, NUL);
    var n := |rows| - 1;
    if rows[n] != [] || n > MAX_RECORDS {
      forall es | IsEnumeration(utf8, es) && raw == RenderAll(es, index) ensures false {
        SplitRendered(utf8, es, index);
      }
      return None;
    }
    var entries: seq<Entry> := [];
    for i := 0 to n
      invariant |entries| == i && RowsParsed(utf8, rows, index, entries)
      invariant forall j, k :: 0 <= j < k < i ==> entries[j].path != entries[k].path
    {
      var e := ParseRow(utf8, rows[i], index);
      if e.None? || exists j :: 0 <= j < i && entries[j].path == e.value.path {
        forall es | IsEnumeration(utf8, es) && raw == RenderAll(es, index) ensures false {
          RowsAreEntries(utf8, es, rows, index, i, entries);
        }
        return None;
      }
      entries := entries + [e.value];
    }
    AllRowsRead(utf8, raw, index, entries);
    return Some(entries);
  }

  lemma AllRowsRead(utf8: Bytes -> bool, raw: Bytes, index: bool, entries: seq<Entry>)
    requires var rows := SplitOn(raw, NUL);
             |rows| == |entries| + 1 && rows[|entries|] == [] && RowsParsed(utf8, rows, index, entries)
    requires |entries| <= MAX_RECORDS && forall j, k :: 0 <= j < k < |entries| ==> entries[j].path != entries[k].path
    ensures IsEnumeration(utf8, entries) && raw == RenderAll(entries, index)
    ensures forall es :: IsEnumeration(utf8, es) && raw == RenderAll(es, index) ==> es == entries
  {
    var rows := SplitOn(raw, NUL);
    forall i | 0 <= i < |entries| ensures rows[i] == RenderRow(entries[i], index) && Admissible(utf8, entries[i]) {
      RowIff(utf8, rows[i], index, entries[i]);
    }
    JoinSplitOn(raw, NUL);
    JoinRows(rows, entries, index);
    forall es | IsEnumeration(utf8, es) && raw == RenderAll(es, index) ensures es == entries {
      SplitRendered(utf8, es, index);
      forall i | 0 <= i < |entries| ensures es[i] == entries[i] { RowIff(utf8, rows[i], index, es[i]); }
    }
  }

  /** The rows of a written enumeration parse to its entries, as far as they have been read. */
  lemma RowsAreEntries(utf8: Bytes -> bool, es: seq<Entry>, rows: seq<Bytes>, index: bool, i: nat, entries: seq<Entry>)
    requires IsEnumeration(utf8, es) && rows == SplitOn(RenderAll(es, index), NUL) && i < |rows| - 1
    requires |entries| == i && RowsParsed(utf8, rows, index, entries)
    ensures |es| == |rows| - 1 && ParseRow(utf8, rows[i], index) == Some(es[i]) && entries == es[..i]
  {
    SplitRendered(utf8, es, index);
    forall k | 0 <= k <= i ensures ParseRow(utf8, rows[k], index) == Some(es[k]) {
      RowIff(utf8, rows[k], index, es[k]);
    }
  }

  /** Entries that were read are entries the tree can be built from. */
  lemma EnumerationIsValid(utf8: Bytes -> bool, entries: seq<Entry>)
    requires IsEnumeration(utf8, entries)
    ensures ValidEntries(entries)
  {
    forall i | 0 <= i < |entries| ensures ValidEntry(entries[i]) {
      assert Admissible(utf8, entries[i]);
      SplitParts(entries[i].path, SLASH, NUL);
    }
  }
}
