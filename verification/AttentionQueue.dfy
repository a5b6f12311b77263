/** The attention queue's ranking: `attention/rank.rs`. */
module AttentionQueue {
  import opened Common
  import opened ByteOrder

  const MANDATORY_FLOOR := 1_000_000_000
  const W_BLAST := 100
  const CONFIDENCE_SCALE := 10_000

  datatype PolicyClass = Mandatory | HighRisk | LowRisk
  datatype Item = Item(intent: Bytes, policy: Bytes, blastRadius: U64, confidence: U64, policyClass: PolicyClass)

  function Min(a: int, b: int): int { if a < b then a else b }

  /** The composite score. The product saturates and the sums do not, so the code computes this
      value as long as it fits in 64 bits. */
  function Score(i: Item): int {
    (if i.policyClass.Mandatory? then MANDATORY_FLOOR else 0) +
    Min(W_BLAST * i.blastRadius, U64_LIMIT - 1) +
    (CONFIDENCE_SCALE - Min(i.confidence, CONFIDENCE_SCALE))
  }

  ghost predicate NoOverflow(items: seq<Item>) {
    forall k :: 0 <= k < |items| ==> Score(items[k]) < U64_LIMIT
  }

  /** Strictly before in the documented order: score down, then policy up, then intent up. */
  predicate Before(a: Item, b: Item) {
    Score(a) > Score(b) || (Score(a) == Score(b) &&
      (Less(a.policy, b.policy) || (a.policy == b.policy && Less(a.intent, b.intent))))
  }

  /** Same place in the order. */
  predicate Tied(a: Item, b: Item) {
    Score(a) == Score(b) && a.policy == b.policy && a.intent == b.intent
  }

  /** An item's place in the order. */
  function PlaceOf(i: Item): (int, Bytes, Bytes) { (Score(i), i.policy, i.intent) }

  ghost predicate Ranked(items: seq<Item>) {
    forall i, j :: 0 <= i < j < |items| ==> Before(items[i], items[j]) || Tied(items[i], items[j])
  }

  /** What a stable or unstable sort with this comparison may return. */
  ghost predicate IsRanking(items: seq<Item>, ranked: seq<Item>) {
    multiset(ranked) == multiset(items) && Ranked(ranked)
  }

  lemma BeforeTotal(a: Item, b: Item)
    ensures Before(a, b) || Before(b, a) || Tied(a, b)
  {
    LessTotal(a.policy, b.policy);
    LessTotal(a.intent, b.intent);
  }

  lemma BeforeAsymmetric(a: Item, b: Item)
    requires Before(a, b)
    ensures !Before(b, a) && !Tied(a, b)
  {
    LessIrreflexive(a.policy);
    LessIrreflexive(a.intent);
    if Less(a.policy, b.policy) && Less(b.policy, a.policy) { LessTransitive(a.policy, b.policy, a.policy); }
    if Less(a.intent, b.intent) && Less(b.intent, a.intent) { LessTransitive(a.intent, b.intent, a.intent); }
  }

  lemma BeforeTransitive(a: Item, b: Item, c: Item)
    requires (Before(a, b) || Tied(a, b)) && (Before(b, c) || Tied(b, c))
    ensures Before(a, c) || Tied(a, c)
  {
    if Less(a.policy, b.policy) && Less(b.policy, c.policy) { LessTransitive(a.policy, b.policy, c.policy); }
    if Less(a.intent, b.intent) && Less(b.intent, c.intent) { LessTransitive(a.intent, b.intent, c.intent); }
  }

  /** One stable insertion from the right. */
  function Insert(i: Item, ranked: seq<Item>): seq<Item> {
    if ranked == [] || !Before(ranked[0], i) then [i] + ranked else [ranked[0]] + Insert(i, ranked[1..])
  }

  /** `rank`, as a stable sort: later items go in first, in front of those they tie with. */
  function Rank(items: seq<Item>): seq<Item> {
    if items == [] then [] else Insert(items[0], Rank(items[1..]))
  }

  lemma {:induction false} InsertAdds(i: Item, ranked: seq<Item>)
    ensures multiset(Insert(i, ranked)) == multiset(ranked) + multiset{i}
  {
    if ranked == [] || !Before(ranked[0], i) {
    } else {
      InsertAdds(i, ranked[1..]);
      assert ranked == [ranked[0]] + ranked[1..];
    }
  }

  lemma RankedCons(first: Item, rest: seq<Item>)
    requires Ranked(rest) && forall k :: 0 <= k < |rest| ==> Before(first, rest[k]) || Tied(first, rest[k])
    ensures Ranked([first] + rest)
  {
  }

  lemma {:induction false} InsertKeepsRanking(i: Item, ranked: seq<Item>)
    requires Ranked(ranked)
    ensures Ranked(Insert(i, ranked))
  {
    if ranked == [] || !Before(ranked[0], i) {
      forall k | 0 <= k < |ranked| ensures Before(i, ranked[k]) || Tied(i, ranked[k]) {
        BeforeTotal(i, ranked[0]);
        if k > 0 { BeforeTransitive(i, ranked[0], ranked[k]); }
      }
      RankedCons(i, ranked);
    } else {
      var rest := Insert(i, ranked[1..]);
      InsertKeepsRanking(i, ranked[1..]);
      InsertAdds(i, ranked[1..]);
      forall k | 0 <= k < |rest| ensures Before(ranked[0], rest[k]) || Tied(ranked[0], rest[k]) {
        assert rest[k] in multiset(rest);
        if rest[k] != i { assert rest[k] in ranked[1..]; }
      }
      RankedCons(ranked[0], rest);
    }
  }

  lemma {:induction false} RankIsRanking(items: seq<Item>)
    ensures IsRanking(items, Rank(items))
  {
    if items == [] {
    } else {
      RankIsRanking(items[1..]);
      InsertKeepsRanking(items[0], Rank(items[1..]));
      InsertAdds(items[0], Rank(items[1..]));
      assert items == [items[0]] + items[1..];
    }
  }

  /** The items at one place of the order, as they come. */
  function At(items: seq<Item>, place: (int, Bytes, Bytes)): seq<Item> {
    if items == [] then [] else (if PlaceOf(items[0]) == place then [items[0]] else []) + At(items[1..], place)
  }

  /** What a stable sort must return: in order, and with tied items as they came. */
  ghost predicate IsStableRanking(items: seq<Item>, ranked: seq<Item>) {
    Ranked(ranked) && forall place :: At(ranked, place) == At(items, place)
  }

  lemma {:induction false} InsertIsStable(i: Item, ranked: seq<Item>, place: (int, Bytes, Bytes))
    ensures At(Insert(i, ranked), place) == At([i] + ranked, place)
  {
    if ranked == [] || !Before(ranked[0], i) {
    } else {
      InsertIsStable(i, ranked[1..], place);
      BeforeAsymmetric(ranked[0], i);
      assert ([i] + ranked)[1..] == ranked && ([i] + ranked[1..])[1..] == ranked[1..];
      assert Insert(i, ranked)[1..] == Insert(i, ranked[1..]);
    }
  }

  lemma {:induction false} RankIsStable(items: seq<Item>, place: (int, Bytes, Bytes))
    ensures At(Rank(items), place) == At(items, place)
  {
    if items == [] {
    } else {
      RankIsStable(items[1..], place);
      InsertIsStable(items[0], Rank(items[1..]), place);
      assert ([items[0]] + Rank(items[1..]))[1..] == Rank(items[1..]);
    }
  }

  lemma {:induction false} AtHasItem(items: seq<Item>, place: (int, Bytes, Bytes))
    requires At(items, place) != []
    ensures exists k :: 0 <= k < |items| && PlaceOf(items[k]) == place
  {
    if PlaceOf(items[0]) == place {
    } else {
      AtHasItem(items[1..], place);
      var k :| 0 <= k < |items[1..]| && PlaceOf(items[1..][k]) == place;
      assert items[k + 1] == items[1..][k];
    }
  }

  /** The heads of two rankings that hold an item at each other's first place. */
  lemma HeadsTie(a: seq<Item>, b: seq<Item>)
    requires a != [] && b != [] && Ranked(a) && Ranked(b)
    requires exists i :: 0 <= i < |b| && PlaceOf(b[i]) == PlaceOf(a[0])
    requires exists j :: 0 <= j < |a| && PlaceOf(a[j]) == PlaceOf(b[0])
    ensures Tied(a[0], b[0])
  {
    var i :| 0 <= i < |b| && PlaceOf(b[i]) == PlaceOf(a[0]);
    var j :| 0 <= j < |a| && PlaceOf(a[j]) == PlaceOf(b[0]);
    assert i == 0 || Before(b[0], b[i]) || Tied(b[0], b[i]);
    assert j == 0 || Before(a[0], a[j]) || Tied(a[0], a[j]);
    if Before(b[0], a[0]) { BeforeAsymmetric(b[0], a[0]); }
  }

  lemma AtTail(a: seq<Item>, place: (int, Bytes, Bytes))
    requires a != []
    ensures At(a, place) == if PlaceOf(a[0]) == place then [a[0]] + At(a[1..], place) else At(a[1..], place)
  {
  }

  /** Two rankings with the same items at every place start with the same item. */
  lemma StableHeads(a: seq<Item>, b: seq<Item>)
    requires a != [] && b != [] && Ranked(a) && Ranked(b) && forall place :: At(a, place) == At(b, place)
    ensures a[0] == b[0]
  {
    AtTail(a, PlaceOf(a[0]));
    AtTail(b, PlaceOf(b[0]));
    AtHasItem(b, PlaceOf(a[0]));
    AtHasItem(a, PlaceOf(b[0]));
    HeadsTie(a, b);
    assert At(a, PlaceOf(a[0]))[0] == At(b, PlaceOf(a[0]))[0];
  }

  lemma {:induction false} StableRankingIsUnique(a: seq<Item>, b: seq<Item>)
    requires Ranked(a) && Ranked(b) && forall place :: At(a, place) == At(b, place)
    ensures a == b
    decreases |a|
  {
    if a == [] || b == [] {
      if a != [] { AtTail(a, PlaceOf(a[0])); }
      if b != [] { AtTail(b, PlaceOf(b[0])); }
    } else {
      StableHeads(a, b);
      forall place ensures At(a[1..], place) == At(b[1..], place) {
        AtTail(a, place);
        AtTail(b, place);
        assert At(a, place) == At(b, place);
        if place == PlaceOf(a[0]) {
          assert At(a[1..], place) == At(a, place)[1..] && At(b[1..], place) == At(b, place)[1..];
        }
      }
      StableRankingIsUnique(a[1..], b[1..]);
      assert a == [a[0]] + a[1..] && b == [b[0]] + b[1..];
    }
  }

  /** `rank` returns what any stable sort by this comparison returns, and nothing else. */
  lemma RankIsTheStableSort(items: seq<Item>, ranked: seq<Item>)
    ensures IsRanking(items, Rank(items))
    ensures IsStableRanking(items, ranked) <==> ranked == Rank(items)
  {
    RankIsRanking(items);
    forall place ensures At(Rank(items), place) == At(items, place) { RankIsStable(items, place); }
    if IsStableRanking(items, ranked) { StableRankingIsUnique(ranked, Rank(items)); }
  }

  /** `order`: the intents, top first. */
  function Order(items: seq<Item>): seq<Bytes> {
    if items == [] then [] else [items[0].intent] + Order(items[1..])
  }

  lemma RemoveHead(a: seq<Item>)
    requires a != []
    ensures multiset(a[1..]) == multiset(a) - multiset{a[0]}
    ensures Ranked(a) ==> Ranked(a[1..])
  {
    assert a == [a[0]] + a[1..];
  }

  ghost function Places(items: seq<Item>): multiset<(int, Bytes, Bytes)> {
    if items == [] then multiset{} else multiset{PlaceOf(items[0])} + Places(items[1..])
  }

  /** Taking an item out takes its place out. */
  lemma {:induction false} PlacesOfRemoved(a: seq<Item>, k: nat, rest: seq<Item>)
    requires k < |a| && rest == a[..k] + a[k + 1..]
    ensures Places(a) == Places(rest) + multiset{PlaceOf(a[k])}
    decreases |a|
  {
    if k == 0 {
      assert rest == a[1..];
    } else {
      assert rest[0] == a[0] && rest[1..] == a[1..][..k - 1] + a[1..][k..];
      PlacesOfRemoved(a[1..], k - 1, rest[1..]);
    }
  }

  lemma {:induction false} PlacesOfSame(a: seq<Item>, b: seq<Item>)
    requires multiset(a) == multiset(b)
    ensures Places(a) == Places(b) && |a| == |b|
    decreases |a|
  {
    assert |multiset(a)| == |a| && |multiset(b)| == |b|;
    if a == [] {
    } else {
      assert a[0] in multiset(b);
      var k :| 0 <= k < |b| && b[k] == a[0];
      var rest := b[..k] + b[k + 1..];
      assert b == b[..k] + [a[0]] + b[k + 1..];
      RemoveHead(a);
      RemoveMiddle(b[..k], a[0], b[k + 1..]);
      PlacesOfSame(a[1..], rest);
      PlacesOfRemoved(b, k, rest);
    }
  }

  lemma RemoveMiddle(before: seq<Item>, x: Item, after: seq<Item>)
    ensures multiset(before + after) == multiset(before + [x] + after) - multiset{x}
  {
  }

  lemma {:induction false} PlaceHasItem(a: seq<Item>, p: (int, Bytes, Bytes))
    requires p in Places(a)
    ensures exists k :: 0 <= k < |a| && PlaceOf(a[k]) == p
  {
    if p == PlaceOf(a[0]) {
    } else {
      PlaceHasItem(a[1..], p);
      var k :| 0 <= k < |a[1..]| && PlaceOf(a[1..][k]) == p;
      assert a[k + 1] == a[1..][k];
    }
  }

  lemma {:induction false} RankedOrderIsUnique(a: seq<Item>, b: seq<Item>)
    requires Ranked(a) && Ranked(b) && |a| == |b| && Places(a) == Places(b)
    ensures Order(a) == Order(b)
    decreases |a|
  {
    if a == [] {
    } else {
      PlaceHasItem(b, PlaceOf(a[0]));
      PlaceHasItem(a, PlaceOf(b[0]));
      HeadsTie(a, b);
      RemoveHead(a);
      RemoveHead(b);
      assert Places(a[1..]) == Places(a) - multiset{PlaceOf(a[0])};
      assert Places(b[1..]) == Places(b) - multiset{PlaceOf(b[0])};
      RankedOrderIsUnique(a[1..], b[1..]);
    }
  }

  /** The order shown is canonical: it depends on the multiset of items only, whichever way the
      sort arranged items that tie. */
  lemma OrderIsCanonical(a: seq<Item>, b: seq<Item>, ra: seq<Item>, rb: seq<Item>)
    requires multiset(a) == multiset(b) && NoOverflow(a) && IsRanking(a, ra) && IsRanking(b, rb)
    ensures Order(ra) == Order(rb)
  {
    PlacesOfSame(ra, rb);
    RankedOrderIsUnique(ra, rb);
  }

  /** An item whose own score cannot reach the mandatory floor, in terms of its inputs. */
  predicate BelowFloor(x: Item) {
    || x.blastRadius <= 9_999_899
    || (x.blastRadius <= 9_999_999 && Min(x.confidence, CONFIDENCE_SCALE) > W_BLAST * (x.blastRadius - 9_999_900))
  }

  /** The mandatory floor holds for a non-mandatory item, against every mandatory item, exactly
      for these inputs. */
  lemma FloorHoldsIff(x: Item)
    requires !x.policyClass.Mandatory?
    ensures (forall m: Item :: m.policyClass.Mandatory? && Score(m) < U64_LIMIT ==> Score(m) > Score(x)) <==>
            BelowFloor(x)
  {
    var least := Item([], [], 0, CONFIDENCE_SCALE, Mandatory);
    assert Score(least) == MANDATORY_FLOOR;
    assert Score(x) < MANDATORY_FLOOR <==> BelowFloor(x);
  }

  /** For such inputs mandatory items come first. */
  lemma MandatoryFirst(items: seq<Item>, ranked: seq<Item>, i: nat, j: nat)
    requires NoOverflow(items) && IsRanking(items, ranked) && i < |ranked| && j < |ranked|
    requires forall k :: 0 <= k < |items| && !items[k].policyClass.Mandatory? ==> BelowFloor(items[k])
    requires ranked[i].policyClass.Mandatory? && !ranked[j].policyClass.Mandatory?
    ensures i < j
  {
    assert ranked[j] in multiset(items);
    assert Score(ranked[j]) < MANDATORY_FLOOR <= Score(ranked[i]);
  }

  /** The documented promise is for every blast radius; from this one on a tie is possible, and the
      tie is broken by policy name, so a mandatory item can come last. */
  lemma FloorFailsAt()
    ensures var x, m := Item([1], [1], 9_999_900, 0, LowRisk), Item([2], [2], 0, CONFIDENCE_SCALE, Mandatory);
            Score(x) == Score(m) == MANDATORY_FLOOR && Ranked([x, m]) && !Ranked([m, x])
  {
    var x, m := Item([1], [1], 9_999_900, 0, LowRisk), Item([2], [2], 0, CONFIDENCE_SCALE, Mandatory);
    assert Less(x.policy, m.policy) && !Less(m.policy, x.policy);
    assert Before(x, m) && !Before(m, x) && !Tied(m, x);
    assert [m, x][0] == m && [m, x][1] == x;
  }

  /** What a score is made of, by comparison: between items of one class each unit of blast radius
      counts 100 and each missing unit of confidence, up to the scale, counts one; being mandatory
      counts the floor; and the least score is zero. */
  lemma ScoreCounts(a: Item, b: Item)
    requires W_BLAST * a.blastRadius < U64_LIMIT && W_BLAST * b.blastRadius < U64_LIMIT
    ensures a.policyClass.Mandatory? == b.policyClass.Mandatory? ==>
              Score(a) - Score(b) == 100 * (a.blastRadius - b.blastRadius) + (Doubt(a) - Doubt(b))
    ensures a.policyClass.Mandatory? && b == a.(policyClass := b.policyClass) && !b.policyClass.Mandatory? ==>
              Score(a) - Score(b) == 1_000_000_000
    ensures a.blastRadius == 0 && a.confidence >= 10_000 && !a.policyClass.Mandatory? ==> Score(a) == 0
  {
  }

  /** How much confidence is missing, in basis points. */
  function Doubt(i: Item): int { if i.confidence >= 10_000 then 0 else 10_000 - i.confidence }

  /** A larger blast radius alone, or less confidence alone, never lowers an item, and a product that
      saturates is the largest there is. */
  lemma ScoreIsMonotone(a: Item, b: Item)
    requires a.policyClass.Mandatory? == b.policyClass.Mandatory?
    requires a.blastRadius >= b.blastRadius && Doubt(a) >= Doubt(b)
    ensures Score(a) >= Score(b)
    ensures a.blastRadius > b.blastRadius && W_BLAST * a.blastRadius < U64_LIMIT ==> Score(a) > Score(b)
  {
  }

  /** The queue from the top: scores do not rise, at one score policies do not fall in byte order, and
      at one score and policy intents do not. */
  lemma QueueDescends(items: seq<Item>, i: nat, j: nat)
    requires i < j < |Rank(items)|
    ensures var a, b := Rank(items)[i], Rank(items)[j];
            && Score(a) >= Score(b)
            && (Score(a) == Score(b) ==> !Less(b.policy, a.policy))
            && (Score(a) == Score(b) && a.policy == b.policy ==> !Less(b.intent, a.intent))
  {
    RankIsRanking(items);
    var a, b := Rank(items)[i], Rank(items)[j];
    assert Before(a, b) || Tied(a, b);
    LessIrreflexive(a.policy);
    LessIrreflexive(a.intent);
    if Less(a.policy, b.policy) && Less(b.policy, a.policy) { LessTransitive(a.policy, b.policy, a.policy); }
    if Less(a.intent, b.intent) && Less(b.intent, a.intent) { LessTransitive(a.intent, b.intent, a.intent); }
  }
}
