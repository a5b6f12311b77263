/** Where redaction markers may stand: `verify_event_chain` of `verify-evidence-report.py` collects
    them before it walks the records, so it accepts a marker at any position. That is enough for
    two different logs to share a head hash. */
module MarkerOrder {
  import opened Common
  import opened Hex
  import opened EventFraming
  import opened EventChain

  const KEPT := Repeat(97, 64)

  ghost predicate HexDigests(sha256: Bytes -> Bytes) {
    forall x :: IsHex256(sha256(x))
  }

  /** Markers are written in a way that the verifier reads back. */
  ghost predicate ReadsBack(readable: Bytes -> bool, marker: Bytes -> Option<Marker>, render: Marker -> Bytes) {
    forall m: Marker :: m.target < U64_LIMIT && IsHex256(m.original) && IsHex256(m.redacted) ==>
      marker(render(m)) == Some(m) && readable(render(m)) && |render(m)| < U32_LIMIT
  }

  function DigestOf(sha256: Bytes -> Bytes, r: EventRecord): Bytes {
    var hash := EventHash(sha256, r);
    if hash.Some? then hash.value else []
  }

  /** A record that is no marker. */
  function Plain(position: nat, previous: Bytes, own: Bytes, payload: Bytes): EventRecord {
    EventRecord(position, previous, own, [], [], payload, 0)
  }

  /** A record that is one. */
  function Mark(position: nat, previous: Bytes, own: Bytes, payload: Bytes): EventRecord {
    EventRecord(position, previous, own, REDACTION_KIND, [], payload, 0)
  }

  datatype Twins = Twins(x: EventRecord, a1: EventRecord, b1: EventRecord, a2: EventRecord, b2: EventRecord,
                         last: EventRecord) {
    function First(before: seq<EventRecord>): seq<EventRecord> { before + [x, a1, a2, last] }
    function Second(before: seq<EventRecord>): seq<EventRecord> { before + [x, b1, b2, last] }
  }

  /** Two continuations of a log of length `n` with the given head. Every hash is computed from
      records that are already complete: that of `b1` goes into the marker `b2`, whose own hash
      `a2` borrows; `a1` redacts `a2`, the record after it, and `x` redacts `a1`; the last record
      redacts `x`. Both logs share `x` and the last record. In the second log `b2` overrides what
      `x` says of the record after it. */
  function MakeTwins(sha256: Bytes -> Bytes, render: Marker -> Bytes, plain: Bytes, n: nat, head: Bytes): Twins {
    var b1 := Plain(n + 1, KEPT, KEPT, plain);
    var draft := Mark(n + 2, KEPT, KEPT, render(Marker(n + 1, KEPT, DigestOf(sha256, b1))));
    var b2 := draft.(thisHash := DigestOf(sha256, draft));
    var a2 := Plain(n + 2, KEPT, b2.thisHash, plain);
    var a1 := Mark(n + 1, KEPT, KEPT, render(Marker(n + 2, b2.thisHash, DigestOf(sha256, a2))));
    var x := Mark(n, head, KEPT, render(Marker(n + 1, KEPT, DigestOf(sha256, a1))));
    var end := Mark(n + 3, b2.thisHash, KEPT, render(Marker(n, KEPT, DigestOf(sha256, x))));
    Twins(x, a1, b1, a2, b2, end.(thisHash := DigestOf(sha256, end)))
  }

  ghost predicate Hashable(r: EventRecord) {
    |r.prevHash| == 64 && |r.kind| <= 20 && r.principals == [] && |r.payload| < U32_LIMIT && 0 <= r.seqNo < U64_LIMIT
  }

  lemma HashableHashes(sha256: Bytes -> Bytes, r: EventRecord)
    requires HexDigests(sha256) && Hashable(r)
    ensures EventHash(sha256, r) == Some(DigestOf(sha256, r)) && IsHex256(DigestOf(sha256, r))
  {
  }

  /** The marker in force for `i` once one more record is there. */
  function Latest(t: Tools, r: EventRecord, i: nat, earlier: Option<Marker>): Option<Marker> {
    var m := MarkerOf(t, r);
    if m.Some? && m.value.target == i then m else earlier
  }

  lemma MarkerSnoc(t: Tools, log: seq<EventRecord>, r: EventRecord, i: nat)
    ensures MarkerFor(t, log + [r], i) == Latest(t, r, i, MarkerFor(t, log, i))
  {
    assert (log + [r])[..|log + [r]| - 1] == log;
  }

  lemma MarkerAfterFour(t: Tools, before: seq<EventRecord>, x0: EventRecord, x1: EventRecord, x2: EventRecord,
                        x3: EventRecord, i: nat)
    ensures MarkerFor(t, before + [x0, x1, x2, x3], i) ==
            Latest(t, x3, i, Latest(t, x2, i, Latest(t, x1, i, Latest(t, x0, i, MarkerFor(t, before, i)))))
  {
    MarkerSnoc(t, before, x0, i);
    MarkerSnoc(t, before + [x0], x1, i);
    MarkerSnoc(t, before + [x0] + [x1], x2, i);
    MarkerSnoc(t, before + [x0] + [x1] + [x2], x3, i);
    assert before + [x0, x1, x2, x3] == before + [x0] + [x1] + [x2] + [x3];
  }

  /** Four records after an accepted log: what makes the longer log accepted. */
  ghost predicate FourOk(t: Tools, n: nat, head: Bytes, x0: EventRecord, x1: EventRecord, x2: EventRecord,
                         x3: EventRecord) {
    && Checks(t, x0, n, head, Latest(t, x3, n, Latest(t, x2, n, Latest(t, x1, n, Latest(t, x0, n, None)))))
    && Checks(t, x1, n + 1, x0.thisHash,
              Latest(t, x3, n + 1, Latest(t, x2, n + 1, Latest(t, x1, n + 1, Latest(t, x0, n + 1, None)))))
    && Checks(t, x2, n + 2, x1.thisHash,
              Latest(t, x3, n + 2, Latest(t, x2, n + 2, Latest(t, x1, n + 2, Latest(t, x0, n + 2, None)))))
    && Checks(t, x3, n + 3, x2.thisHash,
              Latest(t, x3, n + 3, Latest(t, x2, n + 3, Latest(t, x1, n + 3, Latest(t, x0, n + 3, None)))))
  }

  /** A marker, if it is one, that names no record before position `n`. */
  ghost predicate NamesFrom(t: Tools, r: EventRecord, n: nat) {
    MarkerOf(t, r).Some? ==> MarkerOf(t, r).value.target >= n
  }

  /** No marker of the log names a record beyond its end. */
  ghost predicate NamesInside(t: Tools, log: seq<EventRecord>) {
    forall j :: 0 <= j < |log| && MarkerOf(t, log[j]).Some? ==> MarkerOf(t, log[j]).value.target < |log|
  }

  lemma FourMoreAccepted(t: Tools, before: seq<EventRecord>, x0: EventRecord, x1: EventRecord, x2: EventRecord,
                         x3: EventRecord)
    requires Accepted(t, before) && NamesInside(t, before) &&
             FourOk(t, |before|, PrevHash(before, |before|), x0, x1, x2, x3)
    requires var n := |before|; NamesFrom(t, x0, n) && NamesFrom(t, x1, n) && NamesFrom(t, x2, n) && NamesFrom(t, x3, n)
    ensures Accepted(t, before + [x0, x1, x2, x3])
  {
    var log := before + [x0, x1, x2, x3];
    forall i | 0 <= i < |log| ensures RecordOk(t, log, i) {
      MarkerAfterFour(t, before, x0, x1, x2, x3, i);
      if i < |before| {
        assert RecordOk(t, before, i) && PrevHash(log, i) == PrevHash(before, i);
      } else {
        NoMarker(t, before, i);
      }
    }
  }

  /** What the twins are made of, for a verifier that reads markers back. */
  ghost predicate WellMade(t: Tools, s: Twins, n: nat, head: Bytes) {
    && s.x == Mark(n, head, KEPT, s.x.payload)
    && s.a1 == Mark(n + 1, KEPT, KEPT, s.a1.payload) && s.b1 == Plain(n + 1, KEPT, KEPT, s.b1.payload)
    && s.a2 == Plain(n + 2, KEPT, s.b2.thisHash, s.a2.payload) && s.b2 == Mark(n + 2, KEPT, s.b2.thisHash, s.b2.payload)
    && s.last == Mark(n + 3, s.b2.thisHash, s.last.thisHash, s.last.payload)
    && Readable(t, s) && Hashed(t, s)
    && t.marker(s.x.payload) == Some(Marker(n + 1, KEPT, t.eventHash(s.a1).value))
    && t.marker(s.a1.payload) == Some(Marker(n + 2, s.b2.thisHash, t.eventHash(s.a2).value))
    && t.marker(s.b2.payload) == Some(Marker(n + 1, KEPT, t.eventHash(s.b1).value))
    && t.marker(s.last.payload) == Some(Marker(n, KEPT, t.eventHash(s.x).value))
  }

  ghost predicate Readable(t: Tools, s: Twins) {
    && t.readable(s.x.payload) && t.readable(s.a1.payload) && t.readable(s.b1.payload)
    && t.readable(s.a2.payload) && t.readable(s.b2.payload) && t.readable(s.last.payload)
  }

  ghost predicate Hashed(t: Tools, s: Twins) {
    && t.eventHash(s.x).Some? && t.eventHash(s.a1).Some? && t.eventHash(s.b1).Some? && t.eventHash(s.a2).Some?
    && IsHex256(s.b2.thisHash) && t.eventHash(s.b2) == Some(s.b2.thisHash)
    && IsHex256(s.last.thisHash) && t.eventHash(s.last) == Some(s.last.thisHash)
  }

  lemma WellMadeIsAccepted(t: Tools, before: seq<EventRecord>, s: Twins)
    requires Accepted(t, before) && NamesInside(t, before) && WellMade(t, s, |before|, PrevHash(before, |before|))
    ensures Accepted(t, s.First(before)) && Accepted(t, s.Second(before))
  {
    FourMoreAccepted(t, before, s.x, s.a1, s.a2, s.last);
    FourMoreAccepted(t, before, s.x, s.b1, s.b2, s.last);
  }

  /** A record at position `j` that marks at most the next one, and not itself. */
  ghost predicate ReachesNext(t: Tools, r: EventRecord, j: nat) {
    var m := MarkerOf(t, r);
    m.Some? ==> m.value.target <= j + 1 && m.value.target != j
  }

  lemma FourMoreReach(t: Tools, before: seq<EventRecord>, x0: EventRecord, x1: EventRecord, x2: EventRecord,
                      x3: EventRecord)
    requires NamesInside(t, before) && MarkersReach(t, before, 1) && NoOwnHash(t, before)
    requires var n := |before|;
             && ReachesNext(t, x0, n) && ReachesNext(t, x1, n + 1)
             && ReachesNext(t, x2, n + 2) && ReachesNext(t, x3, n + 3)
    ensures MarkersReach(t, before + [x0, x1, x2, x3], 1) && NoOwnHash(t, before + [x0, x1, x2, x3])
  {
    var n, log := |before|, before + [x0, x1, x2, x3];
    forall j | n <= j < |log| ensures ReachesNext(t, log[j], j) {
      assert log[j] == [x0, x1, x2, x3][j - n];
    }
    assert forall j :: 0 <= j < n ==> log[j] == before[j];
  }

  /** The twins look one record ahead and no further, and none of their records marks itself. */
  lemma TwinsReachOne(t: Tools, before: seq<EventRecord>, s: Twins)
    requires WellMade(t, s, |before|, PrevHash(before, |before|)) && NamesInside(t, before)
    requires MarkersReach(t, before, 1) && NoOwnHash(t, before)
    ensures MarkersReach(t, s.First(before), 1) && NoOwnHash(t, s.First(before))
    ensures MarkersReach(t, s.Second(before), 1) && NoOwnHash(t, s.Second(before))
  {
    FourMoreReach(t, before, s.x, s.a1, s.a2, s.last);
    FourMoreReach(t, before, s.x, s.b1, s.b2, s.last);
  }

  lemma KeptIsHex()
    ensures IsHex256(KEPT)
  {
  }

  lemma HeadIsHex(t: Tools, before: seq<EventRecord>)
    requires Accepted(t, before)
    ensures IsHex256(PrevHash(before, |before|))
  {
    if before != [] { assert RecordOk(t, before, |before| - 1); }
  }

  lemma MadeWell(sha256: Bytes -> Bytes, readable: Bytes -> bool, marker: Bytes -> Option<Marker>,
                 render: Marker -> Bytes, plain: Bytes, n: nat, head: Bytes)
    requires HexDigests(sha256) && ReadsBack(readable, marker, render)
    requires readable(plain) && |plain| < U32_LIMIT && IsHex256(head) && n + 4 <= U64_LIMIT
    ensures WellMade(ToolsOf(sha256, readable, marker), MakeTwins(sha256, render, plain, n, head), n, head)
  {
    var s := MakeTwins(sha256, render, plain, n, head);
    KeptIsHex();
    HashableHashes(sha256, s.b1);
    HashableHashes(sha256, s.b2.(thisHash := KEPT));
    HashableHashes(sha256, s.b2);
    HashableHashes(sha256, s.a2);
    HashableHashes(sha256, s.a1);
    HashableHashes(sha256, s.x);
    HashableHashes(sha256, s.last.(thisHash := KEPT));
    HashableHashes(sha256, s.last);
  }

  /** Where markers may look one record ahead, every hash lets two logs share a head: any accepted
      log can be continued by four records in two ways, both accepted, with the same last record
      and different content. */
  lemma LookAheadUnfixesLog(sha256: Bytes -> Bytes, readable: Bytes -> bool, marker: Bytes -> Option<Marker>,
                            render: Marker -> Bytes, plain: Bytes, before: seq<EventRecord>)
    requires HexDigests(sha256) && ReadsBack(readable, marker, render) && readable(plain) && |plain| < U32_LIMIT
    requires var t := ToolsOf(sha256, readable, marker);
             Accepted(t, before) && NamesInside(t, before) && MarkersReach(t, before, 1) && NoOwnHash(t, before)
    requires |before| + 4 <= U64_LIMIT
    ensures var t := ToolsOf(sha256, readable, marker);
            var s := MakeTwins(sha256, render, plain, |before|, PrevHash(before, |before|));
            var a, b := s.First(before), s.Second(before);
            && Accepted(t, a) && MarkersReach(t, a, 1) && NoOwnHash(t, a)
            && Accepted(t, b) && MarkersReach(t, b, 1) && NoOwnHash(t, b)
            && SameHead(a, b) && !SameLog(a, b)
  {
    var t, n := ToolsOf(sha256, readable, marker), |before|;
    var s := MakeTwins(sha256, render, plain, n, PrevHash(before, n));
    HeadIsHex(t, before);
    MadeWell(sha256, readable, marker, render, plain, n, PrevHash(before, n));
    WellMadeIsAccepted(t, before, s);
    TwinsReachOne(t, before, s);
    assert REDACTION_KIND[0] == 112;
    assert s.First(before)[n + 1] == s.a1 && s.Second(before)[n + 1] == s.b1;
    assert !SameRecord(s.First(before)[n + 1], s.Second(before)[n + 1]);
  }

  /** Two accepted logs with one head, no collision, and markers of at most the given reach. */
  ghost predicate Rivals(sha256: Bytes -> Bytes, t: Tools, a: seq<EventRecord>, b: seq<EventRecord>, ahead: int) {
    && Accepted(t, a) && MarkersReach(t, a, ahead) && NoOwnHash(t, a)
    && Accepted(t, b) && MarkersReach(t, b, ahead) && NoOwnHash(t, b)
    && CollisionFree(sha256, PreImages(a) + PreImages(b)) && SameHead(a, b)
  }

  /** If the verifier took markers of at most this reach, the head hash would fix the log. */
  ghost predicate HeadFixesWithin(sha256: Bytes -> Bytes, t: Tools, ahead: int) {
    forall a, b :: Rivals(sha256, t, a, b, ahead) ==> SameLog(a, b)
  }

  lemma ReachIsMonotone(t: Tools, log: seq<EventRecord>, near: int, far: int)
    requires MarkersReach(t, log, near) && near <= far
    ensures MarkersReach(t, log, far)
  {
  }

  /** The hash has no collision on the records of the twins of the empty log. */
  ghost predicate TwinsApart(sha256: Bytes -> Bytes, render: Marker -> Bytes, plain: Bytes) {
    var s := MakeTwins(sha256, render, plain, 0, GENESIS);
    CollisionFree(sha256, PreImages(s.First([])) + PreImages(s.Second([])))
  }

  /** The exact condition: the head hash fixes the log if and only if markers may not look ahead. That
      they may not is enough for every hash; that it is needed is shown by the twins. */
  lemma HeadFixesIff(sha256: Bytes -> Bytes, readable: Bytes -> bool, marker: Bytes -> Option<Marker>,
                     render: Marker -> Bytes, plain: Bytes, ahead: int)
    requires HexDigests(sha256) && ReadsBack(readable, marker, render) && readable(plain) && |plain| < U32_LIMIT
    ensures ahead <= 0 ==> HeadFixesWithin(sha256, ToolsOf(sha256, readable, marker), ahead)
    ensures TwinsApart(sha256, render, plain) ==>
              (HeadFixesWithin(sha256, ToolsOf(sha256, readable, marker), ahead) <==> ahead <= 0)
  {
    var t := ToolsOf(sha256, readable, marker);
    if ahead <= 0 {
      forall a, b | Rivals(sha256, t, a, b, ahead) ensures SameLog(a, b) {
        ReachIsMonotone(t, a, ahead, 0);
        ReachIsMonotone(t, b, ahead, 0);
        HeadHashFixesLog(sha256, readable, marker, a, b);
      }
    } else if TwinsApart(sha256, render, plain) {
      var s := MakeTwins(sha256, render, plain, 0, GENESIS);
      LookAheadUnfixesLog(sha256, readable, marker, render, plain, []);
      ReachIsMonotone(t, s.First([]), 1, ahead);
      ReachIsMonotone(t, s.Second([]), 1, ahead);
      assert Rivals(sha256, t, s.First([]), s.Second([]), ahead);
    }
  }
}
