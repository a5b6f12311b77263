/** The tenant-partitioned memo store of `isolation.rs`: HMAC-derived slots, forgery and poisoning
    checks, an audit trail, and what one tenant can observe of the others. */
module TenantIsolation {
  import opened Common

  type Block = b: Bytes | |b| == 64 witness seq(64, _ => 0)
  type Digest = b: Bytes | |b| == 32 witness seq(32, _ => 0)

  /** HMAC (section 2 of RFC 2104): the hash that shortens long keys, and the keyed function
      itself on a key of one block, as hexadecimal text. */
  datatype Hmac = Hmac(sha256: Bytes -> Digest, mac: (Block, Bytes) -> string)

  function Zeros(n: nat): (z: Bytes)
    ensures |z| == n && forall i :: 0 <= i < n ==> z[i] == 0
  {
    if n == 0 then [] else [0] + Zeros(n - 1)
  }

  /** A secret as HMAC uses it: hashed when longer than a block, then padded with zeros. */
  function BlockKey(h: Hmac, secret: Bytes): Block {
    if |secret| <= 64 then secret + Zeros(64 - |secret|) else h.sha256(secret) + Zeros(32)
  }

  datatype Namespace = Namespace(id: string, secret: Bytes)

  /** The physical slot of a logical key in a tenant's namespace. */
  function NamespacedKey(h: Hmac, ns: Namespace, baseKey: Bytes): string {
    h.mac(BlockKey(h, ns.secret), baseKey)
  }

  datatype Op =
    | Admit(ns: Namespace, baseKey: Bytes, claimedKey: string, bytes: Bytes)
    | Lookup(ns: Namespace, baseKey: Bytes)

  datatype Outcome = Admitted(key: string) | ForgedKey | CollisionWouldPoison | Hit(bytes: Bytes) | Miss

  datatype AuditEvent = AuditEvent(action: string, tenant: string, admitted: bool, alert: bool, reason: string)

  type Entries = map<string, Bytes>

  function Slot(h: Hmac, op: Op): string { NamespacedKey(h, op.ns, op.baseKey) }

  /** The outcome of one operation. */
  function OutcomeOf(h: Hmac, entries: Entries, op: Op): Outcome {
    var slot := Slot(h, op);
    if op.Lookup? then if slot in entries then Hit(entries[slot]) else Miss
    else if op.claimedKey != slot then ForgedKey
    else if slot in entries && entries[slot] != op.bytes then CollisionWouldPoison
    else Admitted(slot)
  }

  /** What is stored after it. */
  function After(h: Hmac, entries: Entries, op: Op): Entries {
    if OutcomeOf(h, entries, op).Admitted? then entries[Slot(h, op) := op.bytes] else entries
  }

  function EventOf(op: Op, outcome: Outcome): AuditEvent {
    match outcome
    case Admitted(_) => AuditEvent("admit", op.ns.id, true, false, "")
    case ForgedKey => AuditEvent("admit", op.ns.id, false, true,
                                 "forged namespaced key (does not match tenant derivation)")
    case CollisionWouldPoison => AuditEvent("admit", op.ns.id, false, true,
                                            "collision: admitting would poison an existing entry")
    case Hit(_) => AuditEvent("lookup", op.ns.id, true, false, "")
    case Miss => AuditEvent("lookup", op.ns.id, false, false, "")
  }

  class AuditLog {
    var events: seq<AuditEvent>

    constructor ()
      ensures events == []
    {
      events := [];
    }

    method Record(e: AuditEvent)
      modifies this
      ensures events == old(events) + [e]
    {
      events := events + [e];
    }
  }

  class MemoStore {
    const h: Hmac
    var entries: Entries

    constructor (h: Hmac)
      ensures this.h == h && entries == map[]
    {
      this.h := h;
      entries := map[];
    }

    /** Admission: a claimed key that the tenant does not derive is a forgery, an occupied slot with
        other bytes would be poisoned, and anything else is stored. */
    method AdmitEntry(ns: Namespace, baseKey: Bytes, claimedKey: string, bytes: Bytes,
                      audit: AuditLog) returns (r: Outcome)
      modifies this`entries, audit
      ensures var slot := NamespacedKey(h, ns, baseKey);
              && (r.ForgedKey? <==> claimedKey != slot)
              && (r.CollisionWouldPoison? <==>
                  claimedKey == slot && slot in old(entries) && old(entries)[slot] != bytes)
              && (r.Admitted? <==> claimedKey == slot && (slot !in old(entries) || old(entries)[slot] == bytes))
              && (r.Admitted? ==> r.key == slot && entries == old(entries)[slot := bytes])
              && (!r.Admitted? ==> entries == old(entries))
      ensures |audit.events| == |old(audit.events)| + 1 && old(audit.events) <= audit.events
      ensures var e := audit.events[|old(audit.events)|];
              e.action == "admit" && e.tenant == ns.id && e.admitted == r.Admitted? && e.alert == !r.Admitted?
      ensures var op := Admit(ns, baseKey, claimedKey, bytes);
              && r == OutcomeOf(h, old(entries), op)
              && entries == After(h, old(entries), op)
              && audit.events == old(audit.events) + [EventOf(op, r)]
      ensures forall k :: k in old(entries) ==> k in entries && entries[k] == old(entries)[k]
    {
      var derived := NamespacedKey(h, ns, baseKey);
      if claimedKey != derived {
        audit.Record(AuditEvent("admit", ns.id, false, true,
                                "forged namespaced key (does not match tenant derivation)"));
        return ForgedKey;
      }
      if derived in entries && entries[derived] != bytes {
        audit.Record(AuditEvent("admit", ns.id, false, true, "collision: admitting would poison an existing entry"));
        return CollisionWouldPoison;
      }
      entries := entries[derived := bytes];
      audit.Record(AuditEvent("admit", ns.id, true, false, ""));
      return Admitted(derived);
    }

    method LookupEntry(ns: Namespace, baseKey: Bytes, audit: AuditLog) returns (r: Outcome)
      modifies audit
      ensures var slot := NamespacedKey(h, ns, baseKey); r == if slot in entries then Hit(entries[slot]) else Miss
      ensures |audit.events| == |old(audit.events)| + 1 && old(audit.events) <= audit.events
      ensures var e := audit.events[|old(audit.events)|];
              e.action == "lookup" && e.tenant == ns.id && e.admitted == r.Hit? && !e.alert
      ensures r == OutcomeOf(h, entries, Lookup(ns, baseKey))
      ensures audit.events == old(audit.events) + [EventOf(Lookup(ns, baseKey), r)]
    {
      var physical := NamespacedKey(h, ns, baseKey);
      if physical in entries {
        r := Hit(entries[physical]);
      } else {
        r := Miss;
      }
      audit.Record(AuditEvent("lookup", ns.id, r.Hit?, false, ""));
    }
  }

  /** The outcomes of a run, in order. */
  function RunOps(h: Hmac, entries: Entries, ops: seq<Op>): (outcomes: seq<Outcome>)
    ensures |outcomes| == |ops|
    decreases |ops|
  {
    if ops == [] then []
    else [OutcomeOf(h, entries, ops[0])] + RunOps(h, After(h, entries, ops[0]), ops[1..])
  }

  /** A tenant's own operations. */
  function Mine(ops: seq<Op>, ns: Namespace): seq<Op> {
    if ops == [] then [] else (if ops[0].ns == ns then [ops[0]] else []) + Mine(ops[1..], ns)
  }

  /** The outcomes of a tenant's own operations within a run. */
  function MyOutcomes(ops: seq<Op>, outcomes: seq<Outcome>, ns: Namespace): seq<Outcome>
    requires |ops| == |outcomes|
    decreases |ops|
  {
    if ops == [] then []
    else (if ops[0].ns == ns then [outcomes[0]] else []) + MyOutcomes(ops[1..], outcomes[1..], ns)
  }

  /** In this run no other tenant's slot is one of the tenant's own. */
  ghost predicate SlotsApart(h: Hmac, ops: seq<Op>, ns: Namespace) {
    forall i, j :: 0 <= i < |ops| && 0 <= j < |ops| && ops[i].ns == ns && ops[j].ns != ns ==>
      Slot(h, ops[i]) != Slot(h, ops[j])
  }

  ghost predicate AgreeOn(a: Entries, b: Entries, keys: set<string>) {
    forall k :: k in keys ==> (k in a <==> k in b) && (k in a ==> a[k] == b[k])
  }

  lemma {:induction false} SoloAgrees(h: Hmac, shared: Entries, solo: Entries, ops: seq<Op>, ns: Namespace,
                                      keys: set<string>)
    requires AgreeOn(shared, solo, keys)
    requires forall i :: 0 <= i < |ops| ==> (ops[i].ns == ns <==> Slot(h, ops[i]) in keys)
    ensures MyOutcomes(ops, RunOps(h, shared, ops), ns) == RunOps(h, solo, Mine(ops, ns))
    decreases |ops|
  {
    if ops == [] {
    } else {
      var op := ops[0];
      var rest := RunOps(h, After(h, shared, op), ops[1..]);
      assert RunOps(h, shared, ops)[1..] == rest;
      if op.ns == ns {
        SoloAgrees(h, After(h, shared, op), After(h, solo, op), ops[1..], ns, keys);
        assert Mine(ops, ns)[1..] == Mine(ops[1..], ns);
      } else {
        SoloAgrees(h, After(h, shared, op), solo, ops[1..], ns, keys);
        assert Mine(ops, ns) == Mine(ops[1..], ns);
      }
    }
  }

  /** Tenant noninterference: deleting every other tenant's operations from a run changes none of
      a tenant's own outcomes, when no other tenant's slot coincides with one of its own. */
  lemma Noninterference(h: Hmac, ops: seq<Op>, ns: Namespace)
    requires SlotsApart(h, ops, ns)
    ensures MyOutcomes(ops, RunOps(h, map[], ops), ns) == RunOps(h, map[], Mine(ops, ns))
  {
    var keys := set i | 0 <= i < |ops| && ops[i].ns == ns :: Slot(h, ops[i]);
    SoloAgrees(h, map[], map[], ops, ns, keys);
  }

  ghost predicate RunOver(ops: seq<Op>, a: Namespace, b: Namespace, bases: set<Bytes>) {
    forall i :: 0 <= i < |ops| ==> (ops[i].ns == a || ops[i].ns == b) && ops[i].baseKey in bases
  }

  /** Over all runs of two tenants with the given base keys, the first sees nothing of the second. */
  ghost predicate NeverObserves(h: Hmac, a: Namespace, b: Namespace, bases: set<Bytes>) {
    forall ops :: RunOver(ops, a, b, bases) ==>
      MyOutcomes(ops, RunOps(h, map[], ops), a) == RunOps(h, map[], Mine(ops, a))
  }

  ghost predicate KeysApart(h: Hmac, a: Namespace, b: Namespace, bases: set<Bytes>) {
    forall x, y :: x in bases && y in bases ==> NamespacedKey(h, a, x) != NamespacedKey(h, b, y)
  }

  /** A shared slot shows: what one tenant admits there, the other looks up. */
  lemma SharedSlotObserved(h: Hmac, a: Namespace, b: Namespace, x: Bytes, y: Bytes)
    requires a != b && NamespacedKey(h, a, x) == NamespacedKey(h, b, y)
    ensures var ops := [Admit(b, y, NamespacedKey(h, b, y), [7]), Lookup(a, x)];
            MyOutcomes(ops, RunOps(h, map[], ops), a) == [Hit([7])] && RunOps(h, map[], Mine(ops, a)) == [Miss]
  {
    var put, get := Admit(b, y, NamespacedKey(h, b, y), [7]), Lookup(a, x);
    var ops := [put, get];
    var stored := After(h, map[], put);
    assert ops[1..] == [get] && [get][1..] == [];
    assert RunOps(h, stored, [get]) == [Hit([7])];
    assert RunOps(h, map[], ops) == [Admitted(NamespacedKey(h, b, y)), Hit([7])];
    assert RunOps(h, map[], ops)[1..] == [Hit([7])] && [Hit([7])][1..] == [];
    assert MyOutcomes([get], [Hit([7])], a) == [Hit([7])];
    assert Mine([get], a) == [get] && Mine(ops, a) == [get];
  }

  /** Two tenants are isolated exactly when their derived keys never coincide. */
  lemma IsolationIff(h: Hmac, a: Namespace, b: Namespace, bases: set<Bytes>)
    requires a != b
    ensures NeverObserves(h, a, b, bases) <==> KeysApart(h, a, b, bases)
  {
    if KeysApart(h, a, b, bases) {
      forall ops | RunOver(ops, a, b, bases)
        ensures MyOutcomes(ops, RunOps(h, map[], ops), a) == RunOps(h, map[], Mine(ops, a))
      {
        Noninterference(h, ops, a);
      }
    } else {
      var x, y :| x in bases && y in bases && NamespacedKey(h, a, x) == NamespacedKey(h, b, y);
      SharedSlotObserved(h, a, b, x, y);
      var ops := [Admit(b, y, NamespacedKey(h, b, y), [7]), Lookup(a, x)];
      assert RunOver(ops, a, b, bases);
      assert [Hit([7])][0] != [Miss][0];
    }
  }

  /** The keyed function does not collide on the blocks and base keys at hand. */
  ghost predicate MacCollisionFree(h: Hmac, blocks: set<Block>, bases: set<Bytes>) {
    forall j, k, x, y :: j in blocks && k in blocks && x in bases && y in bases && h.mac(j, x) == h.mac(k, y) ==>
      j == k && x == y
  }

  /** Distinct secrets are not what isolates tenants: distinct padded secrets are. */
  lemma IsolatedIffBlockKeysDiffer(h: Hmac, a: Namespace, b: Namespace, bases: set<Bytes>)
    requires a != b && bases != {}
    requires MacCollisionFree(h, {BlockKey(h, a.secret), BlockKey(h, b.secret)}, bases)
    ensures NeverObserves(h, a, b, bases) <==> BlockKey(h, a.secret) != BlockKey(h, b.secret)
  {
    IsolationIff(h, a, b, bases);
    if BlockKey(h, a.secret) == BlockKey(h, b.secret) {
      var x :| x in bases;
      assert NamespacedKey(h, a, x) == NamespacedKey(h, b, x);
    }
  }

  /** What of a secret is padded: the secret, or its digest when it is longer than a block. */
  function Padded(h: Hmac, secret: Bytes): (p: Bytes)
    ensures |p| <= 64
  {
    if |secret| <= 64 then secret else h.sha256(secret)
  }

  /** One text is the other followed by zeros. */
  predicate DiffersByZeros(s: Bytes, t: Bytes) {
    if |s| <= |t| then t == s + Zeros(|t| - |s|) else s == t + Zeros(|s| - |t|)
  }

  /** A text of a given length that continues another one with zeros. */
  ghost predicate Extends(s: Bytes, padded: Bytes, n: nat) {
    |s| <= n == |padded| && forall i :: 0 <= i < n ==> padded[i] == if i < |s| then s[i] else 0
  }

  lemma ZerosExtend(s: Bytes, n: nat)
    requires |s| <= n
    ensures Extends(s, s + Zeros(n - |s|), n)
  {
  }

  lemma ExtendsAlike(s: Bytes, t: Bytes, bs: Bytes, bt: Bytes, longer: Bytes)
    requires Extends(s, bs, 64) && Extends(t, bt, 64) && |s| <= |t| && Extends(s, longer, |t|)
    ensures bs == bt <==> t == longer
  {
    if bs == bt {
      forall i | 0 <= i < |t| ensures t[i] == longer[i] { assert t[i] == bt[i] == bs[i]; }
    }
    if t == longer {
      forall i | 0 <= i < 64 ensures bs[i] == bt[i] { assert i < |t| ==> bt[i] == longer[i]; }
    }
  }

  lemma PadsAlike(s: Bytes, t: Bytes)
    requires |s| <= |t| <= 64
    ensures s + Zeros(64 - |s|) == t + Zeros(64 - |t|) <==> t == s + Zeros(|t| - |s|)
  {
    ZerosExtend(s, 64);
    ZerosExtend(t, 64);
    ZerosExtend(s, |t|);
    ExtendsAlike(s, t, s + Zeros(64 - |s|), t + Zeros(64 - |t|), s + Zeros(|t| - |s|));
  }

  /** Which secrets give the same key, for secrets of any length. */
  lemma SecretsShareBlockIff(h: Hmac, s: Bytes, t: Bytes)
    ensures BlockKey(h, s) == BlockKey(h, t) <==> DiffersByZeros(Padded(h, s), Padded(h, t))
  {
    if |Padded(h, s)| <= |Padded(h, t)| {
      PadsAlike(Padded(h, s), Padded(h, t));
    } else {
      PadsAlike(Padded(h, t), Padded(h, s));
    }
  }

  /** So distinct secrets that share one: a short secret and its zero-extended form, a long secret
      and its digest. */
  lemma DistinctSecretsShareBlock(h: Hmac, short: Bytes, long: Bytes)
    requires |short| < 64 < |long|
    ensures short != short + [0] && BlockKey(h, short) == BlockKey(h, short + [0])
    ensures long != h.sha256(long) && BlockKey(h, long) == BlockKey(h, h.sha256(long))
  {
    assert [0] == Zeros(1);
    SecretsShareBlockIff(h, short, short + [0]);
    assert |short| != |short + [0]|;
    assert h.sha256(long) + Zeros(0) == h.sha256(long);
    SecretsShareBlockIff(h, long, h.sha256(long));
  }

  /** A stored entry is never replaced, whatever is attempted afterwards. */
  lemma {:induction false} NeverPoisoned(h: Hmac, entries: Entries, ops: seq<Op>, slot: string)
    requires slot in entries
    ensures slot in FinalEntries(h, entries, ops) && FinalEntries(h, entries, ops)[slot] == entries[slot]
    decreases |ops|
  {
    if ops == [] {
    } else {
      NeverPoisoned(h, After(h, entries, ops[0]), ops[1..], slot);
    }
  }

  function FinalEntries(h: Hmac, entries: Entries, ops: seq<Op>): Entries
    decreases |ops|
  {
    if ops == [] then entries else FinalEntries(h, After(h, entries, ops[0]), ops[1..])
  }
}
