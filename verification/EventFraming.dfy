/** The byte framing of an event record before hashing: `lp` and `event_hash` of
    `verify-evidence-report.py`. Text is modelled by its UTF-8 bytes. */
module EventFraming {
  import opened Common

  const U32_LIMIT := 0x1_0000_0000

  datatype EventRecord = EventRecord(seqNo: int, prevHash: Bytes, thisHash: Bytes, kind: Bytes,
                                     principals: seq<Bytes>, payload: Bytes, recordedAt: int)

  function Pow256(width: nat): nat {
    if width == 0 then 1 else 256 * Pow256(width - 1)
  }

  /** `struct.pack` with a big-endian format of the given width. */
  function BigEndian(n: nat, width: nat): (b: Bytes)
    ensures |b| == width
  {
    if width == 0 then [] else BigEndian(n / 256, width - 1) + [n % 256]
  }

  lemma {:induction false} BigEndianInjective(m: nat, n: nat, width: nat)
    requires m < Pow256(width) && n < Pow256(width) && BigEndian(m, width) == BigEndian(n, width)
    ensures m == n
  {
    if width == 0 {
    } else {
      var bm, bn := BigEndian(m / 256, width - 1), BigEndian(n / 256, width - 1);
      assert bm == (bm + [m % 256])[..width - 1] == (bn + [n % 256])[..width - 1] == bn;
      assert (bm + [m % 256])[width - 1] == (bn + [n % 256])[width - 1];
      BigEndianInjective(m / 256, n / 256, width - 1);
    }
  }

  lemma Limits()
    ensures Pow256(4) == U32_LIMIT && Pow256(8) == U64_LIMIT
  {
    assert Pow256(4) == 256 * 256 * 256 * 256;
    assert Pow256(8) == 256 * 256 * 256 * 256 * Pow256(4);
  }

  /** Length-prefixed text. A text too long for the prefix is an error. */
  function Lp(text: Bytes): Option<Bytes> {
    if |text| < U32_LIMIT then Some(BigEndian(|text|, 4) + text) else None
  }

  function LpAll(texts: seq<Bytes>): Option<Bytes> {
    if texts == [] then Some([])
    else
      var first, rest := Lp(texts[0]), LpAll(texts[1..]);
      if first.None? || rest.None? then None else Some(first.value + rest.value)
  }

  /** The bytes that `event_hash` hashes; no value when a field does not fit its prefix. */
  function PreImage(r: EventRecord): Option<Bytes> {
    var prev, kind, principals, payload := Lp(r.prevHash), Lp(r.kind), LpAll(r.principals), Lp(r.payload);
    if prev.None? || kind.None? || principals.None? || payload.None? ||
       |r.principals| >= U32_LIMIT || !(0 <= r.seqNo < U64_LIMIT) then None
    else Some(prev.value + (kind.value + (BigEndian(|r.principals|, 4) +
              (principals.value + (payload.value + BigEndian(r.seqNo, 8))))))
  }

  lemma Split(a: Bytes, x: Bytes, b: Bytes, y: Bytes)
    requires a + x == b + y && |a| == |b|
    ensures a == b && x == y
  {
    assert a == (a + x)[..|a|] && b == (b + y)[..|b|];
    assert x == (a + x)[|a|..] && y == (b + y)[|b|..];
  }

  /** A framed text ends where its prefix says, whatever follows. */
  lemma LpPrefixFree(a: Bytes, x: Bytes, b: Bytes, y: Bytes)
    requires Lp(a).Some? && Lp(b).Some? && Lp(a).value + x == Lp(b).value + y
    ensures a == b && x == y
  {
    Limits();
    var la, lb := BigEndian(|a|, 4), BigEndian(|b|, 4);
    assert la + (a + x) == Lp(a).value + x && lb + (b + y) == Lp(b).value + y;
    Split(la, a + x, lb, b + y);
    BigEndianInjective(|a|, |b|, 4);
    Split(a, x, b, y);
  }

  lemma LpAllUnfold(a: seq<Bytes>, x: Bytes)
    requires a != [] && LpAll(a).Some?
    ensures LpAll(a).value + x == Lp(a[0]).value + (LpAll(a[1..]).value + x)
  {
    Associate(Lp(a[0]).value, LpAll(a[1..]).value, x);
  }

  lemma {:induction false} LpAllPrefixFree(a: seq<Bytes>, x: Bytes, b: seq<Bytes>, y: Bytes)
    requires LpAll(a).Some? && LpAll(b).Some? && |a| == |b| && LpAll(a).value + x == LpAll(b).value + y
    ensures a == b && x == y
  {
    if a == [] {
      Split([], x, [], y);
    } else {
      LpAllUnfold(a, x);
      LpAllUnfold(b, y);
      LpPrefixFree(a[0], LpAll(a[1..]).value + x, b[0], LpAll(b[1..]).value + y);
      LpAllPrefixFree(a[1..], x, b[1..], y);
      assert a == [a[0]] + a[1..] && b == [b[0]] + b[1..];
    }
  }

  /** The hashed fields of a record: all but its own hash and the time annotation. */
  predicate SameContent(a: EventRecord, b: EventRecord) {
    a.prevHash == b.prevHash && a.kind == b.kind && a.principals == b.principals &&
    a.payload == b.payload && a.seqNo == b.seqNo
  }

  /** Event framing is injective: one pre-image, one content, for principal lists of any length. */
  lemma PreImageInjective(a: EventRecord, b: EventRecord)
    requires PreImage(a).Some? && PreImage(a) == PreImage(b)
    ensures SameContent(a, b)
  {
    Limits();
    var ta := LpAll(a.principals).value + (Lp(a.payload).value + BigEndian(a.seqNo, 8));
    var tb := LpAll(b.principals).value + (Lp(b.payload).value + BigEndian(b.seqNo, 8));
    var ca, cb := BigEndian(|a.principals|, 4), BigEndian(|b.principals|, 4);
    LpPrefixFree(a.prevHash, Lp(a.kind).value + (ca + ta), b.prevHash, Lp(b.kind).value + (cb + tb));
    LpPrefixFree(a.kind, ca + ta, b.kind, cb + tb);
    Split(ca, ta, cb, tb);
    BigEndianInjective(|a.principals|, |b.principals|, 4);
    LpAllPrefixFree(a.principals, Lp(a.payload).value + BigEndian(a.seqNo, 8),
                    b.principals, Lp(b.payload).value + BigEndian(b.seqNo, 8));
    LpPrefixFree(a.payload, BigEndian(a.seqNo, 8), b.payload, BigEndian(b.seqNo, 8));
    BigEndianInjective(a.seqNo, b.seqNo, 8);
  }

  /** `event_hash`: the hash of a record's framed content. */
  function EventHash(sha256: Bytes -> Bytes, r: EventRecord): Option<Bytes> {
    if PreImage(r).None? then None else Some(sha256(PreImage(r).value))
  }

  /** Without a collision among the pre-images hashed, equal event hashes mean equal content. */
  lemma EventHashFixesContent(sha256: Bytes -> Bytes, a: EventRecord, b: EventRecord, hashed: set<Bytes>)
    requires EventHash(sha256, a).Some? && EventHash(sha256, a) == EventHash(sha256, b)
    requires CollisionFree(sha256, hashed) && PreImage(a).value in hashed && PreImage(b).value in hashed
    ensures SameContent(a, b)
  {
    PreImageInjective(a, b);
  }
}
