/** What `parse_enumeration` and `path_bytes` of `verify_inventory.py` admit, in other words: paths by
    their components between slashes, and rows as they are printed. */
module GitPaths {
  import opened Common
  import opened Hex
  import opened GitTree
  import opened GitEnumeration

  /** A piece of a text between delimiters: from `i` up to `j`. */
  predicate PieceAt(text: Bytes, d: Byte, i: nat, j: nat) {
    && i <= j <= |text| && d !in text[i..j]
    && (i == 0 || text[i - 1] == d) && (j == |text| || text[j] == d)
  }

  ghost predicate IsPiece(text: Bytes, d: Byte, part: Bytes) {
    exists i: nat, j: nat :: PieceAt(text, d, i, j) && text[i..j] == part
  }

  /** A piece other than the first. */
  ghost predicate IsLaterPiece(text: Bytes, d: Byte, part: Bytes) {
    exists i: nat, j: nat :: i > 0 && PieceAt(text, d, i, j) && text[i..j] == part
  }

  function Count(text: Bytes, d: Byte): nat {
    if text == [] then 0 else (if text[0] == d then 1 else 0) + Count(text[1..], d)
  }

  lemma {:induction false} PieceCount(text: Bytes, d: Byte)
    ensures |SplitOn(text, d)| == Count(text, d) + 1
  {
    if text == [] {
    } else {
      PieceCount(text[1..], d);
    }
  }

  lemma ShiftPiece(text: Bytes, d: Byte, i: nat, j: nat)
    requires text != [] && i <= j < |text|
    ensures text[1..][i..j] == text[i + 1..j + 1]
    ensures PieceAt(text, d, i + 1, j + 1) <==>
              PieceAt(text[1..], d, i, j) && (i == 0 ==> text[0] == d)
  {
    assert text[1..][i..j] == text[i + 1..j + 1];
  }

  /** The first piece ends at the first delimiter. */
  lemma {:induction false} FirstPiece(text: Bytes, d: Byte) returns (j: nat)
    ensures PieceAt(text, d, 0, j) && text[..j] == SplitOn(text, d)[0]
  {
    if text == [] {
      j := 0;
    } else if text[0] == d {
      j := 0;
    } else {
      var k := FirstPiece(text[1..], d);
      j := k + 1;
      assert text[..j] == [text[0]] + text[1..][..k];
    }
  }

  lemma OneFirstPiece(text: Bytes, d: Byte, j: nat, k: nat)
    requires PieceAt(text, d, 0, j) && PieceAt(text, d, 0, k)
    ensures j == k
  {
  }

  /** A later piece of a text is a later piece of its tail, or the tail's first piece after a delimiter. */
  lemma LaterPieceOfTail(text: Bytes, d: Byte, part: Bytes)
    requires text != []
    ensures IsLaterPiece(text, d, part) <==>
              IsLaterPiece(text[1..], d, part) || (text[0] == d && part == SplitOn(text[1..], d)[0])
  {
    var tail := text[1..];
    var f := FirstPiece(tail, d);
    ShiftPiece(text, d, 0, f);
    assert tail[0..f] == tail[..f];
    if IsLaterPiece(text, d, part) {
      var i: nat, j: nat :| i > 0 && PieceAt(text, d, i, j) && text[i..j] == part;
      ShiftPiece(text, d, i - 1, j - 1);
      if i == 1 { OneFirstPiece(tail, d, f, j - 1); }
    }
    if IsLaterPiece(tail, d, part) {
      var i: nat, j: nat :| i > 0 && PieceAt(tail, d, i, j) && tail[i..j] == part;
      ShiftPiece(text, d, i, j);
    }
  }

  lemma {:induction false} LaterPieces(text: Bytes, d: Byte, part: Bytes)
    ensures part in SplitOn(text, d)[1..] <==> IsLaterPiece(text, d, part)
  {
    if text == [] {
    } else {
      LaterPieces(text[1..], d, part);
      LaterPieceOfTail(text, d, part);
      var rest := SplitOn(text[1..], d);
      assert rest == [rest[0]] + rest[1..];
    }
  }

  /** Splitting gives exactly the pieces between delimiters. */
  lemma SplitOnIff(text: Bytes, d: Byte, part: Bytes)
    ensures part in SplitOn(text, d) <==> IsPiece(text, d, part)
  {
    LaterPieces(text, d, part);
    var f := FirstPiece(text, d);
    var parts := SplitOn(text, d);
    assert parts == [parts[0]] + parts[1..];
    assert text[0..f] == text[..f];
    if IsPiece(text, d, part) {
      var i: nat, j: nat :| PieceAt(text, d, i, j) && text[i..j] == part;
      if i == 0 { OneFirstPiece(text, d, f, j); }
    }
  }

  /** A path is admitted exactly when it is UTF-8 of 1 to 4096 bytes with fewer than 64 slashes, holds no
      NUL, backslash or colon, and no component is empty, `.` or `..`. */
  lemma PathOkIff(utf8: Bytes -> bool, path: Bytes)
    ensures PathOk(utf8, path) <==>
              && utf8(path) && 1 <= |path| <= 4096 && Count(path, '/' as int) < 64
              && 0 !in path && Ascii("\\")[0] !in path && Ascii(":")[0] !in path
              && !IsPiece(path, '/' as int, []) && !IsPiece(path, '/' as int, Ascii("."))
              && !IsPiece(path, '/' as int, Ascii(".."))
  {
    PieceCount(path, SLASH);
    SplitOnIff(path, SLASH, []);
    SplitOnIff(path, SLASH, Ascii("."));
    SplitOnIff(path, SLASH, Ascii(".."));
    assert Ascii(".") == [46] && Ascii("..") == [46, 46];
  }

  /** Rows as Git prints them: mode, object id and stage for the index, mode, kind and object id for a
      tree, then a tab and the path; and the two modes of a file. */
  lemma RowsAsPrinted(e: Entry)
    ensures RenderRow(e, true) == e.mode + Ascii(" ") + ToHex(e.oid) + Ascii(" 0\t") + e.path
    ensures RenderRow(e, false) == e.mode + Ascii(" blob ") + ToHex(e.oid) + Ascii("\t") + e.path
    ensures MODE_FILE == Ascii("100644") && MODE_EXECUTABLE == Ascii("100755")
  {
    assert Ascii(" ") == [32] && Ascii(" 0\t") == [32, 48, 9] && Ascii("\t") == [9];
    assert Ascii(" blob ") == [32, 98, 108, 111, 98, 32];
  }
}
