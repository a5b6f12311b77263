/** The resumable projection of `projection.rs`: receipt-derived facts, declared in bounded
    and restartable passes over the event log. */
module Projection {
  import opened Common
  import opened EventFraming

  datatype SourceIdentity = SourceIdentity(receiptId: Bytes, eventSeq: int, eventHash: Bytes)

  datatype ReceiptFacts = ReceiptFacts(recordedAt: int, refName: Option<Bytes>, targetOid: Option<Bytes>,
                                       branch: Option<Bytes>, checkoutTruth: Option<Bytes>, updateCount: nat)

  datatype SourceFact = SourceFact(identity: SourceIdentity, record: EventRecord, facts: ReceiptFacts)

  /** The members of a payload object that matter here; a text is present when it is a JSON string. */
  datatype Payload = Payload(receiptId: Option<Bytes>, refName: Option<Bytes>, target: Option<Bytes>, to: Option<Bytes>,
                             newOid: Option<Bytes>, branch: Option<Bytes>, truth: Option<Bytes>, updates: nat)

  // "ref.update" and "orchestrator:hugit-hook"
  const REF_UPDATE: Bytes := [114, 101, 102, 46, 117, 112, 100, 97, 116, 101]
  const HOOK_PRINCIPAL: Bytes := [111, 114, 99, 104, 101, 115, 116, 114, 97, 116, 111, 114, 58, 104, 117, 103, 105,
                                  116, 45, 104, 111, 111, 107]

  function NonEmpty(text: Option<Bytes>): Option<Bytes> {
    if text == Some([]) then None else text
  }

  function OrElse(a: Option<Bytes>, b: Option<Bytes>): Option<Bytes> {
    if a.Some? then a else b
  }

  /** `SourceFact::from_record`, for a given JSON reading of payloads. */
  function FromRecord(parse: Bytes -> Option<Payload>, r: EventRecord): Option<SourceFact> {
    if r.kind != REF_UPDATE || r.principals != [HOOK_PRINCIPAL] || parse(r.payload).None? ||
       NonEmpty(parse(r.payload).value.receiptId).None? || r.thisHash == [] then None
    else
      var p := parse(r.payload).value;
      Some(SourceFact(SourceIdentity(p.receiptId.value, r.seqNo, r.thisHash), r,
                      ReceiptFacts(r.recordedAt, NonEmpty(p.refName),
                                   OrElse(NonEmpty(p.target), OrElse(NonEmpty(p.to), NonEmpty(p.newOid))),
                                   NonEmpty(p.branch), NonEmpty(p.truth), p.updates)))
  }

  datatype DerivedFact =
    | Provenance(receiptId: Bytes, eventHash: Bytes, refName: Option<Bytes>, targetOid: Option<Bytes>)
    | Freshness(observedAt: int)
    | ContextTimeline(branch: Option<Bytes>, checkoutTruth: Option<Bytes>, updateCount: nat)

  datatype Outcome = Applied(fact: DerivedFact) | Skipped
  datatype FailureCode = ProjectorPanic | SourcePayloadInvalid | Retryable

  /** What calling a projector comes to. */
  datatype Attempt = Produced(outcome: Outcome) | Refused(code: FailureCode) | Panicked

  datatype Projector = Projector(name: string, attempt: SourceFact -> Attempt)

  datatype Entry = Entry(source: SourceIdentity, projector: string, outcome: Outcome)
  datatype Retry = Retry(source: SourceIdentity, projector: string, code: FailureCode)
  datatype Status = Status(version: nat, cursor: Option<int>, completed: seq<Entry>, applied: seq<Entry>,
                           completedCount: nat, evictedCount: nat, retry: Option<Retry>)

  const FRESH := Status(1, None, [], [], 0, 0, None)

  predicate IsCompleted(s: Status, id: SourceIdentity, name: string) {
    exists i :: 0 <= i < |s.completed| && s.completed[i].source == id && s.completed[i].projector == name
  }

  predicate PastCursor(s: Status, r: EventRecord) {
    s.cursor.None? || r.seqNo > s.cursor.value
  }

  function Push(s: Status, e: Entry): Status {
    s.(completed := s.completed + [e], applied := s.applied + [e], completedCount := s.completedCount + 1,
       retry := if s.retry.Some? && s.retry.value.source == e.source && s.retry.value.projector == e.projector
                then None else s.retry)
  }

  function FailureOf(a: Attempt): FailureCode
    requires !a.Produced?
  {
    if a.Panicked? then ProjectorPanic else a.code
  }

  /** The projectors from index `i` on, over one source; false when one failed and ended the pass. */
  function Project(source: SourceFact, projectors: seq<Projector>, i: nat, s: Status): (Status, bool)
    requires i <= |projectors|
    decreases |projectors| - i
  {
    if i == |projectors| then (s, true)
    else
      var p := projectors[i];
      if IsCompleted(s, source.identity, p.name) then Project(source, projectors, i + 1, s)
      else
        var a := p.attempt(source);
        if a.Produced? then Project(source, projectors, i + 1, Push(s, Entry(source.identity, p.name, a.outcome)))
        else (s.(retry := Some(Retry(source.identity, p.name, FailureOf(a)))), false)
  }

  /** One record past the cursor: the new status, and whether the pass goes on. */
  function Process(parse: Bytes -> Option<Payload>, r: EventRecord, projectors: seq<Projector>, s: Status)
    : (Status, bool)
  {
    var source := FromRecord(parse, r);
    if source.None? then (s.(cursor := Some(r.seqNo)), true)
    else
      var (after, ok) := Project(source.value, projectors, 0, s);
      if ok then (after.(cursor := Some(r.seqNo)), true) else (after, false)
  }

  /** The records from index `i` on, with a budget of records still to be processed. */
  function Pass(parse: Bytes -> Option<Payload>, records: seq<EventRecord>, i: nat, s: Status, budget: nat,
                projectors: seq<Projector>): Status
    requires i <= |records|
    decreases |records| - i
  {
    if i == |records| then s
    else if !PastCursor(s, records[i]) || budget == 0 then Pass(parse, records, i + 1, s, budget, projectors)
    else
      var (after, ok) := Process(parse, records[i], projectors, s);
      if ok then Pass(parse, records, i + 1, after, budget - 1, projectors) else after
  }

  /** `declare` as nested loops over records and projectors. */
  method Declare(parse: Bytes -> Option<Payload>, records: seq<EventRecord>, previous: Option<Status>, limit: nat,
                 projectors: seq<Projector>) returns (status: Status)
    ensures status == Pass(parse, records, 0, if previous.Some? then previous.value else FRESH, limit, projectors)
  {
    status := if previous.Some? then previous.value else FRESH;
    ghost var start := status;
    var processed := 0;
    for i := 0 to |records|
      invariant processed <= limit
      invariant Pass(parse, records, 0, start, limit, projectors) ==
                Pass(parse, records, i, status, limit - processed, projectors)
    {
      var r := records[i];
      if (status.cursor.Some? && r.seqNo <= status.cursor.value) || processed == limit {
        continue;
      }
      processed := processed + 1;
      var source := FromRecord(parse, r);
      if source.None? {
        status := status.(cursor := Some(r.seqNo));
        continue;
      }
      ghost var before := status;
      for j := 0 to |projectors|
        invariant Project(source.value, projectors, 0, before) == Project(source.value, projectors, j, status)
      {
        var p := projectors[j];
        if IsCompleted(status, source.value.identity, p.name) {
          continue;
        }
        var attempt := p.attempt(source.value);
        if !attempt.Produced? {
          status := status.(retry := Some(Retry(source.value.identity, p.name, FailureOf(attempt))));
          return;
        }
        var entry := Entry(source.value.identity, p.name, attempt.outcome);
        status := status.(completed := status.completed + [entry], applied := status.applied + [entry],
                          completedCount := status.completedCount + 1);
        if status.retry.Some? && status.retry.value.source == entry.source &&
           status.retry.value.projector == entry.projector {
          status := status.(retry := None);
        }
      }
      status := status.(cursor := Some(r.seqNo));
    }
  }

  /** One `declare` call of a run. */
  datatype Call = Call(records: seq<EventRecord>, limit: nat, projectors: seq<Projector>)

  /** The status after a run of calls, each resuming from the one before. */
  function RunCalls(parse: Bytes -> Option<Payload>, calls: seq<Call>, s: Status): Status {
    if calls == [] then s
    else
      var n := |calls| - 1;
      Pass(parse, calls[n].records, 0, RunCalls(parse, calls[..n], s), calls[n].limit, calls[n].projectors)
  }

  /** Between calls the log only grows at its end. */
  ghost predicate Growing(calls: seq<Call>) {
    forall i, j :: 0 <= i < j < |calls| ==> calls[i].records <= calls[j].records
  }
}
