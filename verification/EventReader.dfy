/** Reading the hashed bytes of an event record back, from the documented layout alone: section
    `this_hash` of `event_record.rs`. */
module EventReader {
  import opened Common
  import opened EventFraming

  /** The hashed fields, in the order of the layout. */
  datatype Content = Content(prevHash: Bytes, kind: Bytes, principals: seq<Bytes>, payload: Bytes, seqNo: nat)

  function ContentOf(r: EventRecord): Content
    requires r.seqNo >= 0
  {
    Content(r.prevHash, r.kind, r.principals, r.payload, r.seqNo)
  }

  /** The number that bytes stand for, most significant byte first. */
  function PlaceValue(b: Bytes): nat {
    if b == [] then 0 else b[0] * Pow256(|b| - 1) + PlaceValue(b[1..])
  }

  /** A 4-byte length and that many bytes; what follows is left. */
  function ReadText(b: Bytes): Option<(Bytes, Bytes)> {
    if |b| < 4 then None
    else
      var n := PlaceValue(b[..4]);
      if |b| < 4 + n then None else Some((b[4..4 + n], b[4 + n..]))
  }

  function ReadTexts(b: Bytes, count: nat): Option<(seq<Bytes>, Bytes)> {
    if count == 0 then Some(([], b))
    else
      var first := ReadText(b);
      if first.None? then None
      else
        var rest := ReadTexts(first.value.1, count - 1);
        if rest.None? then None else Some(([first.value.0] + rest.value.0, rest.value.1))
  }

  /** A 4-byte count and that many texts. */
  function ReadList(b: Bytes): Option<(seq<Bytes>, Bytes)> {
    if |b| < 4 then None else ReadTexts(b[4..], PlaceValue(b[..4]))
  }

  /** previous hash, kind, principals, payload, position in 8 bytes, and nothing more. */
  function ReadContent(b: Bytes): Option<Content> {
    var prev := ReadText(b);
    if prev.None? then None
    else
      var kind := ReadText(prev.value.1);
      if kind.None? then None
      else
        var principals := ReadList(kind.value.1);
        if principals.None? then None
        else
          var payload := ReadText(principals.value.1);
          if payload.None? || |payload.value.1| != 8 then None
          else Some(Content(prev.value.0, kind.value.0, principals.value.0, payload.value.0,
                            PlaceValue(payload.value.1)))
  }

  lemma {:induction false} PlaceValueSnoc(b: Bytes, last: Byte)
    ensures PlaceValue(b + [last]) == PlaceValue(b) * 256 + last
  {
    if b == [] {
      assert [last][1..] == [] && Pow256(0) == 1;
    } else {
      PlaceValueSnoc(b[1..], last);
      assert (b + [last])[1..] == b[1..] + [last];
      assert Pow256(|b|) == 256 * Pow256(|b| - 1);
      Shift(b[0], Pow256(|b| - 1), PlaceValue(b[1..]), last);
    }
  }

  lemma Shift(x: nat, p: nat, rest: nat, last: nat)
    ensures x * (256 * p) + (rest * 256 + last) == (x * p + rest) * 256 + last
  {
  }

  lemma {:induction false} BigEndianIsRead(n: nat, width: nat)
    requires n < Pow256(width)
    ensures PlaceValue(BigEndian(n, width)) == n
  {
    if width == 0 {
    } else {
      BigEndianIsRead(n / 256, width - 1);
      PlaceValueSnoc(BigEndian(n / 256, width - 1), n % 256);
    }
  }

  lemma TextIsRead(text: Bytes, rest: Bytes)
    requires Lp(text).Some?
    ensures ReadText(Lp(text).value + rest) == Some((text, rest))
  {
    Limits();
    var prefix, b := BigEndian(|text|, 4), Lp(text).value + rest;
    BigEndianIsRead(|text|, 4);
    assert b[..4] == prefix && b[4..4 + |text|] == text && b[4 + |text|..] == rest;
  }

  lemma {:induction false} TextsAreRead(texts: seq<Bytes>, rest: Bytes)
    requires LpAll(texts).Some?
    ensures ReadTexts(LpAll(texts).value + rest, |texts|) == Some((texts, rest))
    decreases |texts|
  {
    if texts == [] {
      assert LpAll(texts).value + rest == rest;
    } else {
      LpAllUnfold(texts, rest);
      TextIsRead(texts[0], LpAll(texts[1..]).value + rest);
      TextsAreRead(texts[1..], rest);
      assert texts == [texts[0]] + texts[1..];
    }
  }

  lemma ListIsRead(texts: seq<Bytes>, rest: Bytes)
    requires LpAll(texts).Some? && |texts| < U32_LIMIT
    ensures ReadList(BigEndian(|texts|, 4) + (LpAll(texts).value + rest)) == Some((texts, rest))
  {
    Limits();
    var b := BigEndian(|texts|, 4) + (LpAll(texts).value + rest);
    BigEndianIsRead(|texts|, 4);
    TextsAreRead(texts, rest);
    assert b[..4] == BigEndian(|texts|, 4) && b[4..] == LpAll(texts).value + rest;
  }

  /** The bytes hashed for a record read back as exactly its five hashed fields. */
  lemma PreImageIsRead(r: EventRecord)
    requires PreImage(r).Some?
    ensures ReadContent(PreImage(r).value) == Some(ContentOf(r))
  {
    Limits();
    var seqBytes := BigEndian(r.seqNo, 8);
    var fromPayload := Lp(r.payload).value + seqBytes;
    var fromList := BigEndian(|r.principals|, 4) + (LpAll(r.principals).value + fromPayload);
    TextIsRead(r.prevHash, Lp(r.kind).value + fromList);
    TextIsRead(r.kind, fromList);
    ListIsRead(r.principals, fromPayload);
    TextIsRead(r.payload, seqBytes);
    BigEndianIsRead(r.seqNo, 8);
  }

  /** Every text fits its 4-byte length. */
  ghost predicate TextsFit(texts: seq<Bytes>) {
    forall i :: 0 <= i < |texts| ==> |texts[i]| < U32_LIMIT
  }

  lemma {:induction false} LpAllIff(texts: seq<Bytes>)
    ensures LpAll(texts).Some? <==> TextsFit(texts)
  {
    if texts == [] {
    } else {
      LpAllIff(texts[1..]);
      assert texts == [texts[0]] + texts[1..];
    }
  }

  /** A record has hashed bytes exactly when every field fits its place. */
  lemma PreImageIff(r: EventRecord)
    ensures PreImage(r).Some? <==>
              && |r.prevHash| < U32_LIMIT && |r.kind| < U32_LIMIT && |r.payload| < U32_LIMIT
              && |r.principals| < U32_LIMIT && TextsFit(r.principals) && 0 <= r.seqNo < U64_LIMIT
  {
    LpAllIff(r.principals);
  }
}
