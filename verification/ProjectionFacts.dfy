/** What the status records is what the projectors said, and a call stops only for a reason. */
module ProjectionFacts {
  import opened Common
  import opened EventFraming
  import opened Projection
  import opened ProjectionChunks
  import opened ProjectionOnce

  // ----- which records are sources -----

  /** The first text that is there and not empty. */
  ghost predicate FirstText(texts: seq<Option<Bytes>>, found: Option<Bytes>) {
    if found.None? then AllMissing(texts, |texts|)
    else found != Some([]) && exists i :: 0 <= i < |texts| && texts[i] == found && AllMissing(texts, i)
  }

  ghost predicate AllMissing(texts: seq<Option<Bytes>>, n: nat)
    requires n <= |texts|
  {
    forall i :: 0 <= i < n ==> texts[i].None? || texts[i] == Some([])
  }

  /** A record gives a fact exactly when it is a reference update of the hook alone, its payload
      reads, names a receipt, and the record has a hash; the fact's fields are then the payload's. */
  lemma SourceIff(parse: Bytes -> Option<Payload>, r: EventRecord)
    ensures FromRecord(parse, r).Some? <==>
              && r.kind == Ascii("ref.update") && r.principals == [Ascii("orchestrator:hugit-hook")]
              && parse(r.payload).Some? && parse(r.payload).value.receiptId.Some?
              && parse(r.payload).value.receiptId != Some([]) && r.thisHash != []
    ensures FromRecord(parse, r).Some? ==>
              var f, p := FromRecord(parse, r).value, parse(r.payload).value;
              && Some(f.identity.receiptId) == p.receiptId && f.identity.eventSeq == r.seqNo
              && f.identity.eventHash == r.thisHash && f.record == r && f.facts.recordedAt == r.recordedAt
              && FirstText([p.refName], f.facts.refName) && FirstText([p.target, p.to, p.newOid], f.facts.targetOid)
              && FirstText([p.branch], f.facts.branch) && FirstText([p.truth], f.facts.checkoutTruth)
              && f.facts.updateCount == p.updates
  {
    KindsSpelled();
    if FromRecord(parse, r).Some? {
      var f, p := FromRecord(parse, r).value, parse(r.payload).value;
      OneText(p.refName);
      OneText(p.branch);
      OneText(p.truth);
      assert [p.target, p.to, p.newOid][0] == p.target && [p.target, p.to, p.newOid][1] == p.to;
      assert [p.target, p.to, p.newOid][2] == p.newOid;
    }
  }

  lemma OneText(text: Option<Bytes>)
    ensures FirstText([text], NonEmpty(text))
  {
    assert [text][0] == text;
  }

  lemma KindsSpelled()
    ensures REF_UPDATE == Ascii("ref.update") && HOOK_PRINCIPAL == Ascii("orchestrator:hugit-hook")
  {
  }

  // ----- what is recorded -----

  /** The entry carries what one of the projectors produced for this source. */
  ghost predicate Genuine(source: SourceFact, ps: seq<Projector>, e: Entry) {
    e.source == source.identity &&
    exists j :: 0 <= j < |ps| && ps[j].name == e.projector && ps[j].attempt(source) == Produced(e.outcome)
  }

  /** The retry carries how one of the projectors failed on this source. */
  ghost predicate GenuineFailure(source: SourceFact, ps: seq<Projector>, r: Retry) {
    r.source == source.identity &&
    exists j :: 0 <= j < |ps| && ps[j].name == r.projector && FailsWith(ps[j].attempt(source), r.code)
  }

  predicate FailsWith(a: Attempt, code: FailureCode) {
    a == Refused(code) || (a.Panicked? && code == ProjectorPanic)
  }

  /** A pending retry goes away exactly when its pair is completed; a new one names no completed pair. */
  ghost predicate RetryMoves(s: Status, t: Status) {
    && (s.retry.Some? && t.retry.None? ==> IsCompleted(t, s.retry.value.source, s.retry.value.projector))
    && (t.retry.Some? ==>
        || (t.retry == s.retry &&
            forall k :: |s.completed| <= k < |t.completed| ==> !NamesPair(t.retry.value, t.completed[k]))
        || !IsCompleted(t, t.retry.value.source, t.retry.value.projector))
  }

  predicate NamesPair(r: Retry, e: Entry) { r.source == e.source && r.projector == e.projector }

  /** No failure in between: the retry is the old one or gone. */
  predicate NoFailure(s: Status, t: Status) { t.retry.None? || t.retry == s.retry }

  lemma RetryMovesOn(s: Status, t: Status, u: Status)
    requires s.completed <= t.completed <= u.completed && RetryMoves(s, t) && RetryMoves(t, u) && NoFailure(s, t)
    ensures RetryMoves(s, u)
  {
    if s.retry.Some? && t.retry.None? { CompletedStays(t, u, s.retry.value.source, s.retry.value.projector); }
    assert forall k :: 0 <= k < |t.completed| ==> u.completed[k] == t.completed[k];
  }

  lemma PushMovesRetry(s: Status, e: Entry)
    ensures RetryMoves(s, Push(s, e)) && NoFailure(s, Push(s, e))
  {
    assert Push(s, e).completed[|s.completed|] == e;
  }

  lemma {:induction false} ProjectSucceedsWithoutFailure(source: SourceFact, ps: seq<Projector>, i: nat, s: Status)
    requires i <= |ps| && Project(source, ps, i, s).1
    ensures NoFailure(s, Project(source, ps, i, s).0)
    decreases |ps| - i
  {
    if i == |ps| {
    } else if IsCompleted(s, source.identity, ps[i].name) {
      ProjectSucceedsWithoutFailure(source, ps, i + 1, s);
    } else {
      ProjectSucceedsWithoutFailure(source, ps, i + 1,
                                    Push(s, Entry(source.identity, ps[i].name, ps[i].attempt(source).outcome)));
    }
  }

  /** The completed list grew by genuine entries only, and the retry is the old one, gone, or genuine. */
  ghost predicate GrowsGenuinely(source: SourceFact, ps: seq<Projector>, s: Status, t: Status) {
    && s.completed <= t.completed
    && (forall k :: |s.completed| <= k < |t.completed| ==> Genuine(source, ps, t.completed[k]))
    && (t.retry.None? || t.retry == s.retry || GenuineFailure(source, ps, t.retry.value))
    && RetryMoves(s, t)
  }

  lemma {:induction false} ProjectIsGenuine(source: SourceFact, ps: seq<Projector>, i: nat, s: Status)
    requires i <= |ps|
    ensures GrowsGenuinely(source, ps, s, Project(source, ps, i, s).0)
    decreases |ps| - i
  {
    if i == |ps| {
    } else {
      var p := ps[i];
      if IsCompleted(s, source.identity, p.name) {
        ProjectIsGenuine(source, ps, i + 1, s);
      } else if p.attempt(source).Produced? {
        var e := Entry(source.identity, p.name, p.attempt(source).outcome);
        assert Genuine(source, ps, e);
        ProjectIsGenuine(source, ps, i + 1, Push(s, e));
        PushMovesRetry(s, e);
        RetryMovesOn(s, Push(s, e), Project(source, ps, i, s).0);
      } else {
        assert FailsWith(ps[i].attempt(source), FailureOf(p.attempt(source)));
      }
    }
  }

  /** The source of some record of the log. */
  ghost predicate FromLog(parse: Bytes -> Option<Payload>, log: seq<EventRecord>, source: SourceFact) {
    exists i :: 0 <= i < |log| && FromRecord(parse, log[i]) == Some(source)
  }

  ghost predicate GenuineIn(parse: Bytes -> Option<Payload>, call: Call, e: Entry) {
    exists source :: FromLog(parse, call.records, source) && Genuine(source, call.projectors, e)
  }

  ghost predicate GenuineFailureIn(parse: Bytes -> Option<Payload>, call: Call, r: Retry) {
    exists source :: FromLog(parse, call.records, source) && GenuineFailure(source, call.projectors, r)
  }

  ghost predicate CallGrows(parse: Bytes -> Option<Payload>, call: Call, s: Status, t: Status) {
    && s.completed <= t.completed
    && (forall k :: |s.completed| <= k < |t.completed| ==> GenuineIn(parse, call, t.completed[k]))
    && (t.retry.None? || t.retry == s.retry || GenuineFailureIn(parse, call, t.retry.value))
    && RetryMoves(s, t)
  }

  lemma ProcessIsGenuine(parse: Bytes -> Option<Payload>, call: Call, i: nat, s: Status)
    requires i < |call.records|
    ensures CallGrows(parse, call, s, Process(parse, call.records[i], call.projectors, s).0)
  {
    var source := FromRecord(parse, call.records[i]);
    if source.Some? {
      assert FromLog(parse, call.records, source.value);
      ProjectIsGenuine(source.value, call.projectors, 0, s);
    }
  }

  /** Every entry that a call adds carries the outcome its projector produced in that call, and a new
      retry the way it failed. */
  lemma {:induction false} PassIsGenuine(parse: Bytes -> Option<Payload>, call: Call, i: nat, s: Status, budget: nat)
    requires i <= |call.records|
    ensures CallGrows(parse, call, s, Pass(parse, call.records, i, s, budget, call.projectors))
    decreases |call.records| - i
  {
    if i == |call.records| {
    } else if !PastCursor(s, call.records[i]) || budget == 0 {
      PassIsGenuine(parse, call, i + 1, s, budget);
    } else {
      var (after, ok) := Process(parse, call.records[i], call.projectors, s);
      ProcessIsGenuine(parse, call, i, s);
      if ok {
        PassIsGenuine(parse, call, i + 1, after, budget - 1);
        var source := FromRecord(parse, call.records[i]);
        if source.Some? { ProjectSucceedsWithoutFailure(source.value, call.projectors, 0, s); }
        GrowsOn(parse, call, s, after, Pass(parse, call.records, i + 1, after, budget - 1, call.projectors));
      }
    }
  }

  lemma GrowsOn(parse: Bytes -> Option<Payload>, call: Call, s: Status, t: Status, u: Status)
    requires CallGrows(parse, call, s, t) && CallGrows(parse, call, t, u) && NoFailure(s, t)
    ensures CallGrows(parse, call, s, u)
  {
    RetryMovesOn(s, t, u);
    assert forall k :: 0 <= k < |t.completed| ==> u.completed[k] == t.completed[k];
  }

  /** The call of a run that added entry `k`. */
  ghost predicate AddedBy(parse: Bytes -> Option<Payload>, calls: seq<Call>, s: Status, k: nat, i: nat) {
    i < |calls| && |RunCalls(parse, calls[..i], s).completed| <= k < |RunCalls(parse, calls[..i + 1], s).completed|
  }

  /** Over any run whatever, each entry was added by one of its calls, with the outcome that a projector
      of that call produced for a record of that call's log. */
  lemma {:induction false} RunIsGenuine(parse: Bytes -> Option<Payload>, calls: seq<Call>, s: Status, k: nat)
    returns (i: nat)
    requires |s.completed| <= k < |RunCalls(parse, calls, s).completed|
    ensures AddedBy(parse, calls, s, k, i) && GenuineIn(parse, calls[i], RunCalls(parse, calls, s).completed[k])
  {
    var n := |calls| - 1;
    var before := RunCalls(parse, calls[..n], s);
    PassIsGenuine(parse, calls[n], 0, before, calls[n].limit);
    assert calls[..n + 1] == calls;
    if k < |before.completed| {
      i := RunIsGenuine(parse, calls[..n], s, k);
      assert calls[..n][..i] == calls[..i] && calls[..n][..i + 1] == calls[..i + 1] && calls[..n][i] == calls[i];
    } else {
      i := n;
    }
  }

  /** And a pending retry was left by one of its calls, the way a projector of that call failed. */
  lemma {:induction false} RunFailureIsGenuine(parse: Bytes -> Option<Payload>, calls: seq<Call>, s: Status)
    returns (i: nat)
    requires var r := RunCalls(parse, calls, s).retry; r.Some? && r != s.retry
    ensures i < |calls| && GenuineFailureIn(parse, calls[i], RunCalls(parse, calls, s).retry.value)
  {
    var n := |calls| - 1;
    var before := RunCalls(parse, calls[..n], s);
    PassIsGenuine(parse, calls[n], 0, before, calls[n].limit);
    if RunCalls(parse, calls, s).retry == before.retry {
      i := RunFailureIsGenuine(parse, calls[..n], s);
    } else {
      i := n;
    }
  }

  // ----- when a call stops -----

  /** A record on which a projector fails: the retry says which, and how. */
  ghost predicate BlockedAt(parse: Bytes -> Option<Payload>, r: EventRecord, ps: seq<Projector>, s: Status) {
    FromRecord(parse, r).Some? && s.retry.Some? && GenuineFailure(FromRecord(parse, r).value, ps, s.retry.value)
  }

  lemma {:induction false} ProjectStops(source: SourceFact, ps: seq<Projector>, i: nat, s: Status)
    requires i <= |ps| && !Project(source, ps, i, s).1
    ensures var t := Project(source, ps, i, s).0; t.retry.Some? && GenuineFailure(source, ps, t.retry.value)
    decreases |ps| - i
  {
    var p := ps[i];
    if IsCompleted(s, source.identity, p.name) {
      ProjectStops(source, ps, i + 1, s);
    } else if p.attempt(source).Produced? {
      ProjectStops(source, ps, i + 1, Push(s, Entry(source.identity, p.name, p.attempt(source).outcome)));
    } else {
      assert FailsWith(ps[i].attempt(source), FailureOf(p.attempt(source)));
    }
  }

  /** A call from the first record past the cursor stops at the end of the log, when its limit is
      used up, or at a record on which a projector fails; never earlier. */
  lemma {:induction false} PassStops(parse: Bytes -> Option<Payload>, log: seq<EventRecord>, s: Status, budget: nat,
                                     ps: seq<Projector>, d: nat) returns (d': nat)
    requires d <= |log| && Increasing(log) && CursorAt(log, s, d)
    ensures d <= d' <= |log| && d' <= d + budget
    ensures var t := Pass(parse, log, d, s, budget, ps);
            CursorAt(log, t, d') && (d' == |log| || d' == d + budget || BlockedAt(parse, log[d'], ps, t))
    decreases |log| - d
  {
    d' := d;
    if budget == 0 {
      NoBudget(parse, log, d, s, ps);
    } else if d < |log| {
      PastCursorIff(log, s, d, d);
      var (after, ok) := Process(parse, log[d], ps, s);
      PassProcesses(parse, log, s, budget, ps, d, after, ok);
      var source := FromRecord(parse, log[d]);
      if source.Some? { ProjectKeepsCompleted(source.value, ps, 0, s); }
      if ok {
        d' := PassStops(parse, log, after, budget - 1, ps, d + 1);
      } else {
        ProjectStops(source.value, ps, 0, s);
      }
    }
  }

  /** The last call of a run moves the cursor by its limit, to the end of the log, or up to a record
      on which a projector fails. */
  lemma LastCallStops(parse: Bytes -> Option<Payload>, calls: seq<Call>, names: seq<string>) returns (d: nat, d': nat)
    requires ValidRun(calls, names) && calls != []
    ensures var n := |calls| - 1;
            var log, s, t := calls[n].records, RunCalls(parse, calls[..n], FRESH), RunCalls(parse, calls, FRESH);
            && d <= d' <= |log| && CursorAt(log, s, d) && CursorAt(log, t, d') && d' <= d + calls[n].limit
            && (d' == |log| || d' == d + calls[n].limit || BlockedAt(parse, log[d'], calls[n].projectors, t))
  {
    var n := |calls| - 1;
    var log, s := calls[n].records, RunCalls(parse, calls[..n], FRESH);
    d := 0;
    if n > 0 {
      d := RunAdvances(parse, calls[..n], names);
      GrowthKeeps(parse, names, calls[n - 1].records, log, s, d);
    }
    PassSkips(parse, log, 0, s, calls[n].limit, calls[n].projectors, d);
    d' := PassStops(parse, log, s, calls[n].limit, calls[n].projectors, d);
  }
}
