/** The hash-chained event log and its redaction markers: `verify_event_chain` of
    `verify-evidence-report.py`. */
module EventChain {
  import opened Common
  import opened Hex
  import opened EventFraming

  /** A redaction marker's content: which record was redacted, the hash it keeps, and the
      hash of its redacted content. */
  datatype Marker = Marker(target: nat, original: Bytes, redacted: Bytes)

  /** What the verifier relies on: the event hash as hexadecimal text, whether a payload reads as
      JSON, and the well-formed redaction marker in a payload, if any. */
  datatype Tools = Tools(eventHash: EventRecord -> Option<Bytes>, readable: Bytes -> bool,
                         marker: Bytes -> Option<Marker>)

  /** The tools of the verifier, for a given SHA-256. */
  function ToolsOf(sha256: Bytes -> Bytes, readable: Bytes -> bool, marker: Bytes -> Option<Marker>): Tools {
    Tools((r: EventRecord) => EventHash(sha256, r), readable, marker)
  }

  // "provenance.redaction"
  const REDACTION_KIND: Bytes := [112, 114, 111, 118, 101, 110, 97, 110, 99, 101, 46, 114, 101, 100, 97, 99, 116, 105,
                                  111, 110]
  const GENESIS := Repeat(48, 64)

  function Repeat(b: Byte, n: nat): (s: Bytes)
    ensures |s| == n && forall i :: 0 <= i < n ==> s[i] == b
  {
    if n == 0 then [] else [b] + Repeat(b, n - 1)
  }

  function MarkerOf(t: Tools, r: EventRecord): Option<Marker> {
    if r.kind == REDACTION_KIND then t.marker(r.payload) else None
  }

  /** The marker in force for a position: the last one in the log that names it. */
  function MarkerFor(t: Tools, records: seq<EventRecord>, position: nat): Option<Marker> {
    if records == [] then None
    else
      var last := MarkerOf(t, records[|records| - 1]);
      if last.Some? && last.value.target == position then last
      else MarkerFor(t, records[..|records| - 1], position)
  }

  function PrevHash(records: seq<EventRecord>, i: nat): Bytes
    requires i <= |records|
  {
    if i == 0 then GENESIS else records[i - 1].thisHash
  }

  /** A record's own hash: of its content, or preserved by the marker that redacted it. */
  predicate HashOk(t: Tools, r: EventRecord, marker: Option<Marker>) {
    if marker.Some? then r.thisHash == marker.value.original && t.eventHash(r) == Some(marker.value.redacted)
    else t.eventHash(r) == Some(r.thisHash)
  }

  predicate AllNamed(principals: seq<Bytes>) {
    forall k :: 0 <= k < |principals| ==> principals[k] != []
  }

  predicate WellFormed(t: Tools, r: EventRecord) {
    r.recordedAt >= 0 && AllNamed(r.principals) && IsHex256(r.thisHash) && t.readable(r.payload)
  }

  /** What the walk checks of one record, given its position, the hash before it and its marker. */
  predicate Checks(t: Tools, r: EventRecord, position: nat, previous: Bytes, marker: Option<Marker>) {
    r.seqNo == position && WellFormed(t, r) && r.prevHash == previous && HashOk(t, r, marker)
  }

  predicate RecordOk(t: Tools, records: seq<EventRecord>, i: nat)
    requires i < |records|
  {
    Checks(t, records[i], i, PrevHash(records, i), MarkerFor(t, records, i))
  }

  predicate Accepted(t: Tools, records: seq<EventRecord>) {
    forall i :: 0 <= i < |records| ==> RecordOk(t, records, i)
  }

  /** First pass: the redactions dictionary holds exactly the markers in force. */
  method CollectRedactions(t: Tools, records: seq<EventRecord>) returns (redactions: map<nat, Marker>)
    ensures forall p: nat :: p in redactions <==> MarkerFor(t, records, p).Some?
    ensures forall p: nat :: p in redactions ==> MarkerFor(t, records, p) == Some(redactions[p])
  {
    redactions := map[];
    for i := 0 to |records|
      invariant forall p: nat :: p in redactions <==> MarkerFor(t, records[..i], p).Some?
      invariant forall p: nat :: p in redactions ==> MarkerFor(t, records[..i], p) == Some(redactions[p])
    {
      assert records[..i + 1][..i] == records[..i] && records[..i + 1][i] == records[i];
      if records[i].kind == REDACTION_KIND {
        var marker := t.marker(records[i].payload);
        if marker.Some? {
          redactions := redactions[marker.value.target := marker.value];
        }
      }
    }
    assert records[..|records|] == records;
  }

  /** Second pass: walk the records with a running previous hash. */
  method VerifyEventChain(t: Tools, records: seq<EventRecord>) returns (ok: bool)
    ensures ok <==> Accepted(t, records)
  {
    var redactions := CollectRedactions(t, records);
    var previous := GENESIS;
    for position := 0 to |records|
      invariant previous == PrevHash(records, position)
      invariant forall i :: 0 <= i < position ==> RecordOk(t, records, i)
    {
      var marker := if position in redactions then Some(redactions[position]) else None;
      if !Checks(t, records[position], position, previous, marker) {
        assert !RecordOk(t, records, position);
        return false;
      }
      previous := records[position].thisHash;
    }
    return true;
  }

  /** Among the records of two logs, equal event hashes mean equal content. */
  ghost predicate HashFixesContent(t: Tools, a: seq<EventRecord>, b: seq<EventRecord>) {
    forall i, j :: 0 <= i < |a| && 0 <= j < |b| && t.eventHash(a[i]).Some? && t.eventHash(a[i]) == t.eventHash(b[j]) ==>
      SameContent(a[i], b[j])
  }

  /** No marker for a record of the log stands more than `ahead` positions before it. A marker
      that follows its target by one has reach -1. */
  ghost predicate MarkersReach(t: Tools, records: seq<EventRecord>, ahead: int) {
    forall j :: 0 <= j < |records| && MarkerOf(t, records[j]).Some? && MarkerOf(t, records[j]).value.target < |records|
      ==> MarkerOf(t, records[j]).value.target <= j + ahead
  }

  /** No record is a marker for itself that states its own content hash. */
  ghost predicate NoOwnHash(t: Tools, records: seq<EventRecord>) {
    forall j :: 0 <= j < |records| && MarkerOf(t, records[j]).Some? && MarkerOf(t, records[j]).value.target == j
      ==> t.eventHash(records[j]) != Some(MarkerOf(t, records[j]).value.redacted)
  }

  predicate SameRecord(a: EventRecord, b: EventRecord) {
    SameContent(a, b) && a.thisHash == b.thisHash
  }

  /** The marker in force for a record is the record itself, or there is none. */
  predicate OwnOrNone(t: Tools, log: seq<EventRecord>, p: nat)
    requires p < |log|
  {
    var m := MarkerFor(t, log, p);
    m.None? || (m == MarkerOf(t, log[p]) && m.value.target == p)
  }

  /** Markers for a position are the same in two logs that agree after it, or do not come from there. */
  lemma {:induction false} MarkerFromSuffix(t: Tools, a: seq<EventRecord>, b: seq<EventRecord>, p: nat)
    requires p < |a| == |b| && forall k :: p < k < |a| ==> SameRecord(a[k], b[k])
    requires forall j :: 0 <= j < |a| && MarkerOf(t, a[j]).Some? && MarkerOf(t, a[j]).value.target == p ==> p <= j
    requires forall j :: 0 <= j < |b| && MarkerOf(t, b[j]).Some? && MarkerOf(t, b[j]).value.target == p ==> p <= j
    ensures MarkerFor(t, a, p) == MarkerFor(t, b, p) || (OwnOrNone(t, a, p) && OwnOrNone(t, b, p))
    ensures |a| == p + 1 ==> OwnOrNone(t, a, p) && OwnOrNone(t, b, p)
    decreases |a|
  {
    var n := |a| - 1;
    assert forall j :: 0 <= j < n ==> a[..n][j] == a[j] && b[..n][j] == b[j];
    if n == p {
      NoMarker(t, a[..n], p);
      NoMarker(t, b[..n], p);
    } else {
      MarkerFromSuffix(t, a[..n], b[..n], p);
    }
  }

  /** A record that passes its check is not in force as its own marker. */
  lemma OwnIsNone(t: Tools, log: seq<EventRecord>, p: nat)
    requires p < |log| && RecordOk(t, log, p) && OwnOrNone(t, log, p) && NoOwnHash(t, log)
    ensures MarkerFor(t, log, p).None?
  {
  }

  lemma {:induction false} NoMarker(t: Tools, a: seq<EventRecord>, p: nat)
    requires forall j :: 0 <= j < |a| && MarkerOf(t, a[j]).Some? ==> MarkerOf(t, a[j]).value.target != p
    ensures MarkerFor(t, a, p).None?
  {
    if a == [] {
    } else {
      assert forall j :: 0 <= j < |a| - 1 ==> a[..|a| - 1][j] == a[j];
      NoMarker(t, a[..|a| - 1], p);
    }
  }

  /** What the head hash needs of a log: no marker looks ahead, and none states its own hash. */
  ghost predicate NoLookAhead(t: Tools, records: seq<EventRecord>) {
    MarkersReach(t, records, 0) && NoOwnHash(t, records)
  }

  /** One step back along the chain: the record before an agreeing suffix agrees too. */
  lemma StepBack(t: Tools, a: seq<EventRecord>, b: seq<EventRecord>, i: nat)
    requires i < |a| == |b| && RecordOk(t, a, i) && RecordOk(t, b, i) && a[i].thisHash == b[i].thisHash
    requires NoLookAhead(t, a) && NoLookAhead(t, b) && HashFixesContent(t, a, b)
    requires forall k :: i < k < |a| ==> SameRecord(a[k], b[k])
    ensures SameRecord(a[i], b[i])
  {
    MarkerFromSuffix(t, a, b, i);
    if MarkerFor(t, a, i) != MarkerFor(t, b, i) {
      OwnIsNone(t, a, i);
      OwnIsNone(t, b, i);
    }
  }

  /** The last record of an accepted log is not redacted, so its hash gives its position. */
  lemma HeadGivesLength(t: Tools, a: seq<EventRecord>, b: seq<EventRecord>)
    requires a != [] && b != [] && RecordOk(t, a, |a| - 1) && RecordOk(t, b, |b| - 1)
    requires NoLookAhead(t, a) && NoLookAhead(t, b) && HashFixesContent(t, a, b)
    requires a[|a| - 1].thisHash == b[|b| - 1].thisHash
    ensures |a| == |b|
  {
    MarkerFromSuffix(t, a, a, |a| - 1);
    MarkerFromSuffix(t, b, b, |b| - 1);
    OwnIsNone(t, a, |a| - 1);
    OwnIsNone(t, b, |b| - 1);
  }

  lemma {:induction false} SuffixAgrees(t: Tools, a: seq<EventRecord>, b: seq<EventRecord>, i: nat)
    requires Accepted(t, a) && Accepted(t, b) && NoLookAhead(t, a) && NoLookAhead(t, b) && HashFixesContent(t, a, b)
    requires i < |a| == |b| && a[|a| - 1].thisHash == b[|b| - 1].thisHash
    ensures forall k :: i <= k < |a| ==> SameRecord(a[k], b[k])
    decreases |a| - i
  {
    assert RecordOk(t, a, i) && RecordOk(t, b, i);
    if i + 1 == |a| {
    } else {
      SuffixAgrees(t, a, b, i + 1);
      assert RecordOk(t, a, i + 1) && RecordOk(t, b, i + 1) && SameRecord(a[i + 1], b[i + 1]);
    }
    StepBack(t, a, b, i);
  }

  predicate SameHead(a: seq<EventRecord>, b: seq<EventRecord>) {
    a != [] && b != [] && a[|a| - 1].thisHash == b[|b| - 1].thisHash
  }

  predicate SameLog(a: seq<EventRecord>, b: seq<EventRecord>) {
    |a| == |b| && forall i :: 0 <= i < |a| ==> SameRecord(a[i], b[i])
  }

  /** The head hash fixes the whole log, redacted records included: two accepted logs with the
      same final hash have the same length and agree on everything but `recorded_at`. */
  lemma HeadFixesLog(t: Tools, a: seq<EventRecord>, b: seq<EventRecord>)
    requires Accepted(t, a) && Accepted(t, b) && NoLookAhead(t, a) && NoLookAhead(t, b) && HashFixesContent(t, a, b)
    requires SameHead(a, b)
    ensures SameLog(a, b)
  {
    assert RecordOk(t, a, |a| - 1) && RecordOk(t, b, |b| - 1);
    HeadGivesLength(t, a, b);
    SuffixAgrees(t, a, b, 0);
  }

  ghost function PreImages(records: seq<EventRecord>): set<Bytes> {
    set i | 0 <= i < |records| && PreImage(records[i]).Some? :: PreImage(records[i]).value
  }

  lemma CollisionFreeFixesContent(sha256: Bytes -> Bytes, readable: Bytes -> bool, marker: Bytes -> Option<Marker>,
                                  a: seq<EventRecord>, b: seq<EventRecord>)
    requires CollisionFree(sha256, PreImages(a) + PreImages(b))
    ensures HashFixesContent(ToolsOf(sha256, readable, marker), a, b)
  {
    var t := ToolsOf(sha256, readable, marker);
    forall i, j | 0 <= i < |a| && 0 <= j < |b| && t.eventHash(a[i]).Some? && t.eventHash(a[i]) == t.eventHash(b[j])
      ensures SameContent(a[i], b[j])
    {
      assert PreImage(a[i]).value in PreImages(a) && PreImage(b[j]).value in PreImages(b);
      EventHashFixesContent(sha256, a[i], b[j], PreImages(a) + PreImages(b));
    }
  }

  /** The same from the bytes up: it is enough that SHA-256 has no collision among the framed
      records of the two logs. */
  lemma HeadHashFixesLog(sha256: Bytes -> Bytes, readable: Bytes -> bool, marker: Bytes -> Option<Marker>,
                         a: seq<EventRecord>, b: seq<EventRecord>)
    requires var t := ToolsOf(sha256, readable, marker);
             Accepted(t, a) && Accepted(t, b) && NoLookAhead(t, a) && NoLookAhead(t, b)
    requires CollisionFree(sha256, PreImages(a) + PreImages(b)) && SameHead(a, b)
    ensures SameLog(a, b)
  {
    CollisionFreeFixesContent(sha256, readable, marker, a, b);
    HeadFixesLog(ToolsOf(sha256, readable, marker), a, b);
  }

  /** A marker at the end, for a record before it, is the one in force there and nowhere else. */
  lemma {:induction false} MarkerAfterRedaction(t: Tools, log: seq<EventRecord>, target: nat, redacted: EventRecord,
                                                p: nat)
    requires target < |log| && MarkerOf(t, log[target]).None? && MarkerOf(t, redacted).None?
    ensures MarkerFor(t, log[target := redacted], p) == MarkerFor(t, log, p)
  {
    var n := |log| - 1;
    if target < n {
      assert log[target := redacted][..n] == log[..n][target := redacted];
      MarkerAfterRedaction(t, log[..n], target, redacted, p);
    } else {
      assert log[target := redacted][..n] == log[..n];
    }
  }

  /** Redacting a record in place keeps the log acceptable, and every hash in it unchanged,
      provided a marker for it is appended and the record was not itself a marker. */
  lemma RedactionKeepsChain(t: Tools, log: seq<EventRecord>, target: nat, redacted: EventRecord, mark: EventRecord)
    requires Accepted(t, log) && target < |log| && MarkerFor(t, log, |log|).None?
    requires MarkerOf(t, log[target]).None? && MarkerOf(t, redacted).None?
    requires redacted.seqNo == target && redacted.prevHash == log[target].prevHash
    requires redacted.thisHash == log[target].thisHash && WellFormed(t, redacted) && t.eventHash(redacted).Some?
    requires mark.seqNo == |log| && mark.prevHash == log[|log| - 1].thisHash
    requires WellFormed(t, mark) && HashOk(t, mark, None)
    requires MarkerOf(t, mark) == Some(Marker(target, log[target].thisHash, t.eventHash(redacted).value))
    ensures Accepted(t, log[target := redacted] + [mark])
  {
    var after := log[target := redacted] + [mark];
    assert after[..|log|] == log[target := redacted];
    forall i | 0 <= i < |after| ensures RecordOk(t, after, i) {
      MarkerAfterRedaction(t, log, target, redacted, i);
      assert MarkerFor(t, after, i) == if i == target then MarkerOf(t, mark) else MarkerFor(t, log, i);
      if i < |log| {
        assert i > 0 ==> after[i - 1].thisHash == log[i - 1].thisHash;
        RedactedRecordOk(t, log, target, redacted, after, i);
      }
    }
  }

  lemma RedactedRecordOk(t: Tools, log: seq<EventRecord>, target: nat, redacted: EventRecord, after: seq<EventRecord>,
                         i: nat)
    requires i < |log| <= |after| && target < |log| && RecordOk(t, log, i)
    requires after[i] == (if i == target then redacted else log[i]) && PrevHash(after, i) == PrevHash(log, i)
    requires redacted.seqNo == target && redacted.prevHash == log[target].prevHash
    requires redacted.thisHash == log[target].thisHash && WellFormed(t, redacted) && t.eventHash(redacted).Some?
    requires MarkerFor(t, after, i) ==
             if i == target then Some(Marker(target, log[target].thisHash, t.eventHash(redacted).value))
             else MarkerFor(t, log, i)
    ensures RecordOk(t, after, i)
  {
    assert Checks(t, log[i], i, PrevHash(log, i), MarkerFor(t, log, i));
  }
}
