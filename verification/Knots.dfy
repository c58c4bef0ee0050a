/** Lists of keys that no global order suits, and the knots they contain. */
module Knots {
  import opened Finite
  import opened SingleFlight

  // ----- Orders of keys -----

  /** The keys list k before l. */
  predicate ListsAt(keys: seq<Key>, k: Key, i: nat, l: Key, j: nat) { i < j < |keys| && keys[i] == k && keys[j] == l }

  ghost predicate Lists(keys: seq<Key>, k: Key, l: Key) { exists i, j :: ListsAt(keys, k, i, l, j) }

  /** Some batch lists k before l. */
  ghost predicate Precedes(batches: seq<seq<Key>>, k: Key, l: Key) {
    exists b :: 0 <= b < |batches| && Lists(batches[b], k, l)
  }

  ghost predicate PrecedesSome(batches: seq<seq<Key>>, k: Key, core: set<Key>) {
    exists l :: l in core && Precedes(batches, k, l)
  }

  /** Every key of the set precedes a key of the set. */
  ghost predicate IsCore(batches: seq<seq<Key>>, core: set<Key>) {
    core != {} && forall k {:trigger PrecedesSome(batches, k, core)} | k in core :: PrecedesSome(batches, k, core)
  }

  /** Every batch lists its keys in strictly increasing rank; in particular no batch repeats a key. */
  ghost predicate Ranks(batches: seq<seq<Key>>, rank: map<Key, nat>) {
    forall b, i, j | 0 <= b < |batches| && 0 <= i < j < |batches[b]| ::
      batches[b][i] in rank && batches[b][j] in rank && rank[batches[b][i]] < rank[batches[b][j]]
  }

  ghost predicate Orderable(batches: seq<seq<Key>>) { exists rank :: Ranks(batches, rank) }

  lemma {:induction false} HighestRank(core: set<Key>, rank: map<Key, nat>) returns (top: Key)
    requires core != {} && core <= rank.Keys
    ensures top in core && forall k | k in core :: rank[k] <= rank[top]
    decreases |core|
  {
    top :| top in core;
    if core != {top} {
      assert core - {top} != {};
      var other := HighestRank(core - {top}, rank);
      if rank[top] < rank[other] { top := other; }
    }
  }

  /** In a ranked core every key has a higher one. */
  lemma CoreRises(batches: seq<seq<Key>>, rank: map<Key, nat>, core: set<Key>, k: Key) returns (l: Key)
    requires Ranks(batches, rank) && IsCore(batches, core) && k in core
    ensures l in core && k in rank && l in rank && rank[k] < rank[l]
  {
    assert PrecedesSome(batches, k, core);
    l :| l in core && Precedes(batches, k, l);
    var b :| 0 <= b < |batches| && Lists(batches[b], k, l);
    var i, j :| ListsAt(batches[b], k, i, l, j);
  }

  /** An order leaves no core: its highest key precedes none of the others. */
  lemma RankedHasNoCore(batches: seq<seq<Key>>, rank: map<Key, nat>, core: set<Key>)
    requires Ranks(batches, rank)
    ensures !IsCore(batches, core)
  {
    if IsCore(batches, core) {
      forall k | k in core ensures k in rank {
        var _ := CoreRises(batches, rank, core, k);
      }
      var top := HighestRank(core, rank);
      var l := CoreRises(batches, rank, core, top);
    }
  }

  /** Without a core, the keys can be ranked by taking away, again and again, one that precedes none of the
      rest. */
  lemma {:induction false} RankWithoutCore(batches: seq<seq<Key>>, keys: set<Key>) returns (rank: map<Key, nat>)
    requires forall core | core <= keys :: !IsCore(batches, core)
    ensures rank.Keys == keys && forall k | k in keys :: rank[k] < |keys|
    ensures forall k, l | k in keys && l in keys && Precedes(batches, k, l) :: rank[k] < rank[l]
    decreases |keys|
  {
    if keys == {} {
      rank := map[];
    } else {
      assert !IsCore(batches, keys);
      var last :| last in keys && !PrecedesSome(batches, last, keys);
      var rest := RankWithoutCore(batches, keys - {last});
      rank := rest[last := |keys| - 1];
    }
  }

  ghost function AllKeys(batches: seq<seq<Key>>): set<Key> {
    set b, i | 0 <= b < |batches| && 0 <= i < |batches[b]| :: batches[b][i]
  }

  /** Batches have a global order exactly when they have no core. */
  lemma OrderableIffNoCore(batches: seq<seq<Key>>)
    ensures Orderable(batches) <==> forall core :: !IsCore(batches, core)
  {
    if Orderable(batches) {
      var rank :| Ranks(batches, rank);
      forall core ensures !IsCore(batches, core) { RankedHasNoCore(batches, rank, core); }
    } else if forall core :: !IsCore(batches, core) {
      var rank := RankWithoutCore(batches, AllKeys(batches));
      forall b, i, j | 0 <= b < |batches| && 0 <= i < j < |batches[b]|
        ensures batches[b][i] in rank && batches[b][j] in rank && rank[batches[b][i]] < rank[batches[b][j]]
      {
        assert ListsAt(batches[b], batches[b][i], i, batches[b][j], j);
        assert Precedes(batches, batches[b][i], batches[b][j]);
      }
      assert Ranks(batches, rank);
    }
  }

  // ----- From a core to a knot -----

  /** Where a batch lists a key, and a later position. */
  datatype Place = Place(batch: nat, at: nat, after: nat)

  predicate PlaceOk(batches: seq<seq<Key>>, places: map<Key, Place>, k: Key)
    requires k in places
  {
    var p := places[k];
    p.batch < |batches| && p.at < p.after < |batches[p.batch]| && batches[p.batch][p.at] == k
    && batches[p.batch][p.after] in places
  }

  /** Each key is listed by its batch before another of the keys. */
  ghost predicate IsPlaced(batches: seq<seq<Key>>, places: map<Key, Place>) {
    places != map[] && forall k {:trigger PlaceOk(batches, places, k)} | k in places :: PlaceOk(batches, places, k)
  }

  predicate Clash(places: map<Key, Place>, k: Key, l: Key)
    requires k in places && l in places
  {
    k != l && places[k].batch == places[l].batch
  }

  /** Besides, each key has a batch of its own: when all have led theirs, each waits for another. */
  ghost predicate IsKnot(batches: seq<seq<Key>>, places: map<Key, Place>) {
    IsPlaced(batches, places) && forall k, l | k in places && l in places :: !Clash(places, k, l)
  }

  ghost function SomePlace(batches: seq<seq<Key>>, core: set<Key>, k: Key): (p: Place)
    requires PrecedesSome(batches, k, core)
    ensures p.batch < |batches| && p.at < p.after < |batches[p.batch]| && batches[p.batch][p.at] == k
    ensures batches[p.batch][p.after] in core
  {
    var l :| l in core && Precedes(batches, k, l);
    var b :| 0 <= b < |batches| && Lists(batches[b], k, l);
    var i, j :| ListsAt(batches[b], k, i, l, j);
    Place(b, i, j)
  }

  lemma CoreIsPlaced(batches: seq<seq<Key>>, core: set<Key>) returns (places: map<Key, Place>)
    requires IsCore(batches, core)
    ensures IsPlaced(batches, places)
  {
    places := map k | k in core :: SomePlace(batches, core, k);
    var k :| k in core;
    assert k in places;
  }

  predicate InRange(batches: seq<seq<Key>>, p: Place) { p.batch < |batches| && p.after < |batches[p.batch]| }

  function Target(batches: seq<seq<Key>>, p: Place): Key
    requires InRange(batches, p)
  {
    batches[p.batch][p.after]
  }

  ghost function Targets(batches: seq<seq<Key>>, places: map<Key, Place>): set<Key>
    requires forall k | k in places :: InRange(batches, places[k])
  {
    set k | k in places :: Target(batches, places[k])
  }

  lemma {:induction false} FewTargets(batches: seq<seq<Key>>, places: map<Key, Place>)
    requires forall k | k in places :: InRange(batches, places[k])
    ensures |Targets(batches, places)| <= |places|
    decreases |places|
  {
    if places == map[] {
      assert Targets(batches, places) == {};
    } else {
      var k :| k in places;
      FewTargets(batches, places - {k});
      var rest := places - {k};
      var all := Targets(batches, rest) + {Target(batches, places[k])};
      forall l | l in places ensures Target(batches, places[l]) in all {
        if l != k { assert l in rest && rest[l] == places[l]; }
      }
      assert Targets(batches, places) <= all;
      SubsetSize(Targets(batches, places), all);
    }
  }

  lemma PlacedInRange(batches: seq<seq<Key>>, places: map<Key, Place>)
    requires IsPlaced(batches, places)
    ensures forall k | k in places :: InRange(batches, places[k])
  {
    forall k | k in places ensures InRange(batches, places[k]) {
      assert PlaceOk(batches, places, k);
    }
  }

  lemma TargetIsPlaced(batches: seq<seq<Key>>, places: map<Key, Place>, m: Key)
    requires IsPlaced(batches, places) && (forall k | k in places :: InRange(batches, places[k]))
    requires m in Targets(batches, places)
    ensures m in places && PlaceOk(batches, places, m)
  {
    var k :| k in places && m == Target(batches, places[k]);
    assert PlaceOk(batches, places, k);
  }

  function Restricted(places: map<Key, Place>, keys: set<Key>): map<Key, Place> {
    map k | k in places && k in keys :: places[k]
  }

  lemma StaysPlaced(batches: seq<seq<Key>>, places: map<Key, Place>, keys: set<Key>, k: Key)
    requires IsPlaced(batches, places) && k in places && k in keys
    requires InRange(batches, places[k]) && Target(batches, places[k]) in keys
    ensures PlaceOk(batches, Restricted(places, keys), k)
  {
    assert PlaceOk(batches, places, k);
  }

  lemma IsATarget(batches: seq<seq<Key>>, places: map<Key, Place>, k: Key)
    requires (forall m | m in places :: InRange(batches, places[m])) && k in places
    ensures Target(batches, places[k]) in Targets(batches, places)
  {
  }

  /** The targets are placed among themselves. */
  lemma TargetsArePlaced(batches: seq<seq<Key>>, places: map<Key, Place>)
    requires IsPlaced(batches, places) && forall k | k in places :: InRange(batches, places[k])
    ensures IsPlaced(batches, Restricted(places, Targets(batches, places)))
  {
    var keys := Targets(batches, places);
    var targets := Restricted(places, keys);
    forall m | m in targets ensures PlaceOk(batches, targets, m) {
      IsATarget(batches, places, m);
      StaysPlaced(batches, places, keys, m);
    }
    var k :| k in places;
    IsATarget(batches, places, k);
    TargetIsPlaced(batches, places, Target(batches, places[k]));
    assert Target(batches, places[k]) in targets;
  }

  /** When two keys have one target, the targets are fewer. */
  lemma SharedTargetShrinks(batches: seq<seq<Key>>, places: map<Key, Place>, k: Key, l: Key)
    requires (forall m | m in places :: InRange(batches, places[m])) && k in places && l in places && k != l
    requires Target(batches, places[k]) == Target(batches, places[l])
    ensures |Targets(batches, places)| < |places|
  {
    var rest := places - {k};
    forall m | m in places ensures Target(batches, places[m]) in Targets(batches, rest) {
      var n := if m == k then l else m;
      assert n in rest && rest[n] == places[n];
    }
    assert Targets(batches, places) <= Targets(batches, rest);
    SubsetSize(Targets(batches, places), Targets(batches, rest));
    FewTargets(batches, rest);
  }

  /** Two keys of one batch can share a target: the earlier one takes the later one's. */
  lemma ShareTarget(batches: seq<seq<Key>>, places: map<Key, Place>, k: Key, l: Key) returns (shared: map<Key, Place>)
    requires IsPlaced(batches, places) && k in places && l in places
    requires places[k].batch == places[l].batch && places[k].at < places[l].at
    ensures IsPlaced(batches, shared) && shared.Keys == places.Keys
    ensures shared[l] == places[l] && shared[k] == places[k].(after := places[l].after)
  {
    assert PlaceOk(batches, places, k) && PlaceOk(batches, places, l);
    shared := places[k := places[k].(after := places[l].after)];
    forall m | m in shared ensures PlaceOk(batches, shared, m) {
      assert PlaceOk(batches, places, m);
    }
  }

  /** So every placing can be thinned out to a knot. */
  lemma {:induction false} PlacedHasKnot(batches: seq<seq<Key>>, places: map<Key, Place>)
      returns (knot: map<Key, Place>)
    requires IsPlaced(batches, places)
    ensures IsKnot(batches, knot)
    decreases |places|
  {
    if IsKnot(batches, places) {
      knot := places;
    } else {
      var k, l :| k in places && l in places && Clash(places, k, l);
      assert PlaceOk(batches, places, k) && PlaceOk(batches, places, l);
      if places[k].at > places[l].at { k, l := l, k; }
      var shared := ShareTarget(batches, places, k, l);
      PlacedInRange(batches, shared);
      SharedTargetShrinks(batches, shared, k, l);
      TargetsArePlaced(batches, shared);
      var fewer := Restricted(shared, Targets(batches, shared));
      SubsetSize(fewer.Keys, Targets(batches, shared));
      assert |shared| == |shared.Keys| == |places.Keys| == |places| && |fewer| == |fewer.Keys|;
      knot := PlacedHasKnot(batches, fewer);
    }
  }

  lemma CoreHasKnot(batches: seq<seq<Key>>, core: set<Key>) returns (knot: map<Key, Place>)
    requires IsCore(batches, core)
    ensures IsKnot(batches, knot)
  {
    var places := CoreIsPlaced(batches, core);
    knot := PlacedHasKnot(batches, places);
  }
}
