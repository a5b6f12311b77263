/** What it means that `verify_event_chain` of `verify-evidence-report.py` accepts a log, in the terms
    of the log alone. */
module EventAcceptance {
  import opened Common
  import opened EventFraming
  import opened EventChain

  /** Position `j` holds the marker in force for `position`: it names it, and no later one does. */
  ghost predicate InForce(t: Tools, records: seq<EventRecord>, position: nat, j: nat) {
    && j < |records| && Names(t, records[j], position)
    && forall k :: j < k < |records| ==> !Names(t, records[k], position)
  }

  predicate Names(t: Tools, r: EventRecord, position: nat) {
    r.kind == Ascii("provenance.redaction") && t.marker(r.payload).Some? && t.marker(r.payload).value.target == position
  }

  lemma KindSpelled()
    ensures REDACTION_KIND == Ascii("provenance.redaction")
  {
  }

  lemma {:induction false} MarkerForIff(t: Tools, records: seq<EventRecord>, position: nat)
    ensures forall j: nat :: InForce(t, records, position, j) ==>
              MarkerFor(t, records, position) == t.marker(records[j].payload)
    ensures MarkerFor(t, records, position).None? <==>
              forall j :: 0 <= j < |records| ==> !Names(t, records[j], position)
  {
    KindSpelled();
    if records == [] {
    } else {
      var n := |records| - 1;
      MarkerForIff(t, records[..n], position);
      assert forall j :: 0 <= j < n ==> records[..n][j] == records[j];
      forall j: nat | InForce(t, records, position, j)
        ensures MarkerFor(t, records, position) == t.marker(records[j].payload)
      {
        if j < n { assert InForce(t, records[..n], position, j); }
      }
    }
  }

  /** The hash that the chain expects before a record: 64 zeros at the start. */
  ghost predicate Follows(records: seq<EventRecord>, i: nat)
    requires i < |records|
  {
    if i == 0 then |records[0].prevHash| == 64 && forall k :: 0 <= k < 64 ==> records[0].prevHash[k] == '0' as int
    else records[i].prevHash == records[i - 1].thisHash
  }

  /** The record's hash: of its own content when no marker names it, else as the last one says. */
  ghost predicate HashStands(t: Tools, records: seq<EventRecord>, i: nat)
    requires i < |records|
  {
    var r := records[i];
    && ((forall j :: 0 <= j < |records| ==> !Names(t, records[j], i)) ==> t.eventHash(r) == Some(r.thisHash))
    && forall j: nat :: InForce(t, records, i, j) ==>
         var m := t.marker(records[j].payload).value; r.thisHash == m.original && t.eventHash(r) == Some(m.redacted)
  }

  predicate IsHexDigit(b: Byte) { '0' as int <= b <= '9' as int || 'a' as int <= b <= 'f' as int }

  /** Everything that is asked of one record, in the terms of the log. */
  ghost predicate Stands(t: Tools, records: seq<EventRecord>, i: nat)
    requires i < |records|
  {
    var r := records[i];
    && r.seqNo == i && r.recordedAt >= 0 && Follows(records, i)
    && (forall k :: 0 <= k < |r.principals| ==> r.principals[k] != [])
    && |r.thisHash| == 64 && (forall k :: 0 <= k < 64 ==> IsHexDigit(r.thisHash[k]))
    && t.readable(r.payload) && HashStands(t, records, i)
  }

  lemma {:induction false} LastNamed(t: Tools, records: seq<EventRecord>, position: nat) returns (j: nat)
    requires exists k :: 0 <= k < |records| && Names(t, records[k], position)
    ensures InForce(t, records, position, j)
  {
    var n := |records| - 1;
    if Names(t, records[n], position) {
      j := n;
    } else {
      assert forall k :: 0 <= k < n ==> records[..n][k] == records[k];
      j := LastNamed(t, records[..n], position);
    }
  }

  lemma HashOkIff(t: Tools, records: seq<EventRecord>, i: nat)
    requires i < |records|
    ensures HashOk(t, records[i], MarkerFor(t, records, i)) <==> HashStands(t, records, i)
  {
    MarkerForIff(t, records, i);
    if MarkerFor(t, records, i).Some? { var j := LastNamed(t, records, i); }
  }

  lemma FollowsIff(records: seq<EventRecord>, i: nat)
    requires i < |records|
    ensures records[i].prevHash == PrevHash(records, i) <==> Follows(records, i)
  {
    assert i == 0 && Follows(records, 0) ==> records[0].prevHash == GENESIS;
  }

  lemma RecordOkIff(t: Tools, records: seq<EventRecord>, i: nat)
    requires i < |records|
    ensures RecordOk(t, records, i) <==> Stands(t, records, i)
  {
    HashOkIff(t, records, i);
    FollowsIff(records, i);
  }

  /** A log is accepted exactly when every record stands: its position, a non-negative time, named
      principals, the hash before it, a well-formed hash of its own, a readable payload, and the
      hash of its content, or the two hashes of the last marker that names it. */
  lemma AcceptedIff(t: Tools, records: seq<EventRecord>)
    ensures Accepted(t, records) <==> forall i :: 0 <= i < |records| ==> Stands(t, records, i)
  {
    forall i | 0 <= i < |records| ensures RecordOk(t, records, i) <==> Stands(t, records, i) {
      RecordOkIff(t, records, i);
    }
  }
}
