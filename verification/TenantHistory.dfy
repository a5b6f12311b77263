/** A run of the memo store of `isolation.rs` is decided by its history: by what was admitted, and
    rightly claimed, before each operation. */
module TenantHistory {
  import opened Common
  import opened TenantIsolation

  /** An admission that claims the slot its own tenant derives. */
  predicate Rightful(h: Hmac, op: Op, slot: string) { op.Admit? && Slot(h, op) == slot && op.claimedKey == slot }

  /** What the first rightful admission for a slot stored there, if there was one. */
  function FirstAdmitted(h: Hmac, ops: seq<Op>, slot: string): Option<Bytes> {
    if ops == [] then None
    else if Rightful(h, ops[0], slot) then Some(ops[0].bytes) else FirstAdmitted(h, ops[1..], slot)
  }

  function Held(entries: Entries, slot: string): Option<Bytes> { if slot in entries then Some(entries[slot]) else None }

  /** The outcome of an operation on a slot that holds this. */
  predicate Decided(op: Op, slot: string, held: Option<Bytes>, r: Outcome) {
    if op.Lookup? then r == if held.Some? then Hit(held.value) else Miss
    else
      && (r.ForgedKey? <==> op.claimedKey != slot)
      && (r.CollisionWouldPoison? <==> op.claimedKey == slot && held.Some? && held.value != op.bytes)
      && (r.Admitted? <==> op.claimedKey == slot && (held.None? || held.value == op.bytes))
      && (r.Admitted? ==> r.key == slot)
  }

  lemma HeldAfter(h: Hmac, entries: Entries, op: Op, slot: string)
    ensures Held(After(h, entries, op), slot) ==
            if Held(entries, slot).Some? then Held(entries, slot)
            else if Rightful(h, op, slot) then Some(op.bytes) else None
  {
  }

  lemma {:induction false} OutcomeByHistory(h: Hmac, entries: Entries, ops: seq<Op>, i: nat)
    requires i < |ops|
    ensures var slot := Slot(h, ops[i]);
            Decided(ops[i], slot,
                    if Held(entries, slot).Some? then Held(entries, slot) else FirstAdmitted(h, ops[..i], slot),
                    RunOps(h, entries, ops)[i])
    decreases |ops|
  {
    if i == 0 {
    } else {
      var slot, after := Slot(h, ops[i]), After(h, entries, ops[0]);
      OutcomeByHistory(h, after, ops[1..], i - 1);
      HeldAfter(h, entries, ops[0], slot);
      assert ops[1..][..i - 1] == ops[..i][1..];
    }
  }

  /** Every outcome of a run from an empty store is decided by what was admitted before it: a lookup
      returns what the first rightful admission of its slot stored, a claim on another key is a
      forgery, and other bytes for a slot that holds some are refused. */
  lemma RunByHistory(h: Hmac, ops: seq<Op>, i: nat)
    requires i < |ops|
    ensures var slot := Slot(h, ops[i]);
            Decided(ops[i], slot, FirstAdmitted(h, ops[..i], slot), RunOps(h, map[], ops)[i])
  {
    OutcomeByHistory(h, map[], ops, i);
  }

  lemma {:induction false} FinalByHistory(h: Hmac, entries: Entries, ops: seq<Op>, slot: string)
    ensures Held(FinalEntries(h, entries, ops), slot) ==
            if Held(entries, slot).Some? then Held(entries, slot) else FirstAdmitted(h, ops, slot)
    decreases |ops|
  {
    if ops == [] {
    } else {
      HeldAfter(h, entries, ops[0], slot);
      FinalByHistory(h, After(h, entries, ops[0]), ops[1..], slot);
    }
  }

  lemma {:induction false} FirstAdmittedIsAdmitted(h: Hmac, ops: seq<Op>, slot: string)
    requires FirstAdmitted(h, ops, slot).Some?
    ensures exists i :: 0 <= i < |ops| && Rightful(h, ops[i], slot) && ops[i].bytes == FirstAdmitted(h, ops, slot).value
  {
    if Rightful(h, ops[0], slot) {
    } else {
      FirstAdmittedIsAdmitted(h, ops[1..], slot);
      var i :| 0 <= i < |ops[1..]| && Rightful(h, ops[1..][i], slot) &&
               ops[1..][i].bytes == FirstAdmitted(h, ops, slot).value;
      assert ops[i + 1] == ops[1..][i];
    }
  }

  /** Every entry in the store comes from an admission that claimed its own slot, with its bytes. */
  lemma StoredWasAdmitted(h: Hmac, ops: seq<Op>, slot: string)
    requires slot in FinalEntries(h, map[], ops)
    ensures exists i :: 0 <= i < |ops| && Rightful(h, ops[i], slot) && ops[i].bytes == FinalEntries(h, map[], ops)[slot]
  {
    FinalByHistory(h, map[], ops, slot);
    FirstAdmittedIsAdmitted(h, ops, slot);
  }

  /** With a collision-free keyed hash two derived keys are the same exactly for one padded secret and
      one base key. */
  lemma DerivedKeysIff(h: Hmac, a: Namespace, b: Namespace, x: Bytes, y: Bytes)
    requires MacCollisionFree(h, {BlockKey(h, a.secret), BlockKey(h, b.secret)}, {x, y})
    ensures NamespacedKey(h, a, x) == NamespacedKey(h, b, y) <==>
              BlockKey(h, a.secret) == BlockKey(h, b.secret) && x == y
  {
  }
}
