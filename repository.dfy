/** The entity and relationship store, and the bounded breadth-first traversal over it.

    The database is modelled as the state of one `AssetEntityRepository` object:
    entities in a map keyed by their id, relationships in a sequence in store order
    (the order in which a query returns them). Every committed write is an immediate
    update of that state. */
module Repositories {
  import opened Wrappers
  import opened Models

  /** Why a store write is refused: the key is taken, or there is no record with that key. */
  datatype StoreError = DuplicateKey | NotFound

  // ---------------------------------------------------------------------------
  // Store invariants
  // ---------------------------------------------------------------------------

  /** Every entity is stored under its own id. */
  ghost predicate EntitiesKeyed(entities: map<Guid, AssetEntity>)
  {
    forall id :: id in entities ==> entities[id].entityId == id
  }

  /** No two stored relationships share an id (the primary key). */
  ghost predicate UniqueRelationshipIds(rs: seq<Relationship>)
  {
    forall i, j :: 0 <= i < j < |rs| ==> rs[i].relationshipId != rs[j].relationshipId
  }

  // ---------------------------------------------------------------------------
  // Queries over the relationship sequence
  // ---------------------------------------------------------------------------

  /** The edge has an endpoint in `ids`. */
  predicate Touches(r: Relationship, ids: set<Guid>)
  {
    r.sourceEntityId in ids || r.targetEntityId in ids
  }

  /** The query `Relationships.Where(r => ids.Contains(r.SourceEntity_Id) || ids.Contains(r.TargetEntity_Id))`:
      the stored edges with an endpoint in `ids`, each once, in store order. */
  function Touching(rs: seq<Relationship>, ids: set<Guid>): (t: seq<Relationship>)
    ensures |t| <= |rs|
    ensures forall r :: r in t <==> r in rs && Touches(r, ids)
  {
    if rs == [] then []
    else (if Touches(rs[0], ids) then [rs[0]] else []) + Touching(rs[1..], ids)
  }

  /** `round.Select(r => r.TargetEntity_Id).Distinct()`, as a set: only membership is ever asked of it. */
  function NextFrontier(round: seq<Relationship>): set<Guid>
  {
    if round == [] then {} else {round[0].targetEntityId} + NextFrontier(round[1..])
  }

  /** The next frontier holds exactly the target ids of the round's edges, and no source id
      unless it is also some edge's target. */
  lemma {:induction false} NextFrontierMembers(round: seq<Relationship>, id: Guid)
    ensures id in NextFrontier(round) <==> exists r :: r in round && r.targetEntityId == id
  {
    if round != [] {
      NextFrontierMembers(round[1..], id);
      assert round == [round[0]] + round[1..];
    }
  }

  /** The first relationship in store order with the given id (`Relationships.FindAsync(id)`). */
  function RelationshipById(rs: seq<Relationship>, id: Guid): (found: Option<Relationship>)
    ensures found.Some? ==> found.value in rs && found.value.relationshipId == id
    ensures found.None? <==> forall r :: r in rs ==> r.relationshipId != id
  {
    if rs == [] then None
    else if rs[0].relationshipId == id then Some(rs[0])
    else RelationshipById(rs[1..], id)
  }

  /** The store after `Relationships.Update(r)`: every record with `r`'s id replaced by `r`. */
  function ReplaceById(rs: seq<Relationship>, r: Relationship): (u: seq<Relationship>)
    ensures |u| == |rs|
    ensures forall i :: 0 <= i < |rs| ==> u[i] == if rs[i].relationshipId == r.relationshipId then r else rs[i]
  {
    if rs == [] then []
    else [if rs[0].relationshipId == r.relationshipId then r else rs[0]] + ReplaceById(rs[1..], r)
  }

  // ---------------------------------------------------------------------------
  // The traversal, round by round
  // ---------------------------------------------------------------------------

  /** The frontier of round `i`: `start` in round 0, then the targets of the previous round's edges. */
  function Frontier(rs: seq<Relationship>, start: set<Guid>, i: nat): set<Guid>
  {
    if i == 0 then start else NextFrontier(Touching(rs, Frontier(rs, start, i - 1)))
  }

  /** The edges fetched in round `i`. */
  function Round(rs: seq<Relationship>, start: set<Guid>, i: nat): seq<Relationship>
  {
    Touching(rs, Frontier(rs, start, i))
  }

  /** The accumulated list after `n` rounds: the rounds' edge lists concatenated in order, not de-duplicated. */
  function Traversal(rs: seq<Relationship>, start: set<Guid>, n: nat): seq<Relationship>
  {
    if n == 0 then [] else Traversal(rs, start, n - 1) + Round(rs, start, n - 1)
  }

  /** An independent, forward-recursive reading of the same search: fetch the edges touching the
      frontier, then search `n - 1` more rounds from their targets. */
  function Expand(rs: seq<Relationship>, frontier: set<Guid>, n: nat): seq<Relationship>
    decreases n
  {
    if n == 0 then []
    else
      var round := Touching(rs, frontier);
      round + Expand(rs, NextFrontier(round), n - 1)
  }

  // ---------------------------------------------------------------------------
  // Lemmas about the queries
  // ---------------------------------------------------------------------------

  /** The round query keeps each touching edge with its full multiplicity and drops every other edge. */
  lemma {:induction false} TouchingMultiplicity(rs: seq<Relationship>, ids: set<Guid>, r: Relationship)
    ensures multiset(Touching(rs, ids))[r] == if Touches(r, ids) then multiset(rs)[r] else 0
  {
    if rs != [] {
      TouchingMultiplicity(rs[1..], ids, r);
      assert rs == [rs[0]] + rs[1..];
    }
  }

  /** When no stored edge touches `ids` the round query fetches nothing. */
  lemma {:induction false} TouchingNone(rs: seq<Relationship>, ids: set<Guid>)
    requires forall r :: r in rs ==> !Touches(r, ids)
    ensures Touching(rs, ids) == []
  {
    if rs != [] {
      assert rs[0] in rs;
      TouchingNone(rs[1..], ids);
    }
  }

  /** An empty frontier fetches nothing. */
  lemma TouchingEmptyFrontier(rs: seq<Relationship>)
    ensures Touching(rs, {}) == []
  {
  }

  /** With unique ids, `ReplaceById` overwrites exactly the one record with that id and keeps the ids unique. */
  lemma ReplaceByIdAt(rs: seq<Relationship>, r: Relationship, k: nat)
    requires UniqueRelationshipIds(rs)
    requires k < |rs| && rs[k].relationshipId == r.relationshipId
    ensures ReplaceById(rs, r) == rs[k := r]
    ensures UniqueRelationshipIds(ReplaceById(rs, r))
  {
  }

  // ---------------------------------------------------------------------------
  // Lemmas about the traversal
  // ---------------------------------------------------------------------------

  /** Each prefix of rounds is a prefix of the longer traversal: more depth only appends. */
  lemma {:induction false} TraversalPrefix(rs: seq<Relationship>, start: set<Guid>, m: nat, n: nat)
    requires m <= n
    ensures Traversal(rs, start, m) <= Traversal(rs, start, n)
    decreases n
  {
    if m < n {
      TraversalPrefix(rs, start, m, n - 1);
      PrefixOfConcat(Traversal(rs, start, m), Traversal(rs, start, n - 1), Round(rs, start, n - 1));
    }
  }

  /** A prefix of `b` stays a prefix of `b` with anything appended. */
  lemma PrefixOfConcat(a: seq<Relationship>, b: seq<Relationship>, c: seq<Relationship>)
    requires a <= b
    ensures a <= b + c
  {
  }

  /** The length of the result is the sum of the round sizes: nothing is ever de-duplicated. */
  lemma {:induction false} TraversalLength(rs: seq<Relationship>, start: set<Guid>, n: nat)
    ensures |Traversal(rs, start, n)| == RoundSizes(rs, start, n)
  {
    if n > 0 {
      TraversalLength(rs, start, n - 1);
      assert Traversal(rs, start, n) == Traversal(rs, start, n - 1) + Round(rs, start, n - 1);
    }
  }

  /** The sum of the sizes of rounds `0 .. n - 1`. */
  function RoundSizes(rs: seq<Relationship>, start: set<Guid>, n: nat): nat
  {
    if n == 0 then 0 else RoundSizes(rs, start, n - 1) + |Round(rs, start, n - 1)|
  }

  /** The frontier after `k + 1` rounds is the frontier after `k` rounds started one round later. */
  lemma {:induction false} FrontierShift(rs: seq<Relationship>, start: set<Guid>, k: nat)
    requires 0 < k
    ensures Frontier(rs, start, k) == Frontier(rs, NextFrontier(Touching(rs, start)), k - 1)
  {
    if k > 1 {
      FrontierShift(rs, start, k - 1);
    }
  }

  /** Peeling off the first round: `n` rounds from `start` are round 0 followed by `n - 1` rounds
      from round 0's targets. */
  lemma {:induction false} TraversalUnfoldFirst(rs: seq<Relationship>, start: set<Guid>, n: nat)
    requires 0 < n
    ensures Traversal(rs, start, n)
         == Touching(rs, start) + Traversal(rs, NextFrontier(Touching(rs, start)), n - 1)
  {
    var first := Touching(rs, start);
    var next := NextFrontier(first);
    if n == 1 {
      assert Traversal(rs, start, 1) == [] + Round(rs, start, 0);
      assert Traversal(rs, next, 0) == [];
    } else {
      TraversalUnfoldFirst(rs, start, n - 1);
      FrontierShift(rs, start, n - 1);
      AppendRound(rs, start, next, n, first);
    }
  }

  /** The inductive step of `TraversalUnfoldFirst`: appending the same round to both sides. */
  lemma AppendRound(rs: seq<Relationship>, start: set<Guid>, next: set<Guid>, n: nat,
                    first: seq<Relationship>)
    requires 1 < n
    requires Traversal(rs, start, n - 1) == first + Traversal(rs, next, n - 2)
    requires Frontier(rs, start, n - 1) == Frontier(rs, next, n - 2)
    ensures Traversal(rs, start, n) == first + Traversal(rs, next, n - 1)
  {
    var middle := Traversal(rs, next, n - 2);
    var last := Round(rs, next, n - 2);
    assert Round(rs, start, n - 1) == last;
    ConcatAssociative(first, middle, last);
  }

  /** Appending is associative; the solver does not find this unaided among the traversal's definitions. */
  lemma ConcatAssociative(a: seq<Relationship>, b: seq<Relationship>, c: seq<Relationship>)
    ensures (a + b) + c == a + (b + c)
  {
  }

  /** The loop's accumulate-at-the-end reading and the forward-recursive reading agree. */
  lemma {:induction false} TraversalIsExpansion(rs: seq<Relationship>, start: set<Guid>, n: nat)
    ensures Traversal(rs, start, n) == Expand(rs, start, n)
    decreases n
  {
    if n > 0 {
      TraversalIsExpansion(rs, NextFrontier(Touching(rs, start)), n - 1);
      TraversalUnfoldFirst(rs, start, n);
    }
  }

  /** Round `i` fetches exactly the stored edges with an endpoint in frontier `i`, each with its
      stored multiplicity. */
  lemma RoundIsTouchingFrontier(rs: seq<Relationship>, start: set<Guid>, i: nat, r: Relationship)
    ensures r in Round(rs, start, i) <==> r in rs && Touches(r, Frontier(rs, start, i))
    ensures multiset(Round(rs, start, i))[r]
         == if Touches(r, Frontier(rs, start, i)) then multiset(rs)[r] else 0
  {
    TouchingMultiplicity(rs, Frontier(rs, start, i), r);
  }

  /** The next frontier holds exactly the TARGET ids of this round's edges. */
  lemma FrontierIsTargets(rs: seq<Relationship>, start: set<Guid>, i: nat, id: Guid)
    requires 0 < i
    ensures id in Frontier(rs, start, i)
        <==> exists r :: r in Round(rs, start, i - 1) && r.targetEntityId == id
  {
    NextFrontierMembers(Round(rs, start, i - 1), id);
  }

  /** Source ids are never added: an id that is the target of no stored edge is in no frontier after
      round 0. */
  lemma SourceOnlyNeverInFrontier(rs: seq<Relationship>, start: set<Guid>, i: nat, id: Guid)
    requires 0 < i
    requires forall r :: r in rs ==> r.targetEntityId != id
    ensures id !in Frontier(rs, start, i)
  {
    NextFrontierMembers(Round(rs, start, i - 1), id);
  }

  /** Once a round fetches nothing, the frontier stays empty and no later round adds anything. */
  lemma {:induction false} EmptyRoundAbsorbing(rs: seq<Relationship>, start: set<Guid>, i: nat, j: nat)
    requires Round(rs, start, i) == []
    requires i < j
    ensures Frontier(rs, start, j) == {}
    ensures Round(rs, start, j - 1) == []
    ensures Traversal(rs, start, j) == Traversal(rs, start, i)
    decreases j
  {
    assert NextFrontier([]) == {};
    if i + 1 < j {
      EmptyRoundAbsorbing(rs, start, i, j - 1);
      TouchingEmptyFrontier(rs);
    }
  }

  /** A start id that no stored edge touches yields an empty result at every depth. */
  lemma UntouchedStartYieldsNothing(rs: seq<Relationship>, x: Guid, n: nat)
    requires forall r :: r in rs ==> r.sourceEntityId != x && r.targetEntityId != x
    ensures Traversal(rs, {x}, n) == []
  {
    TouchingNone(rs, {x});
    if n > 0 {
      EmptyRoundAbsorbing(rs, {x}, 0, n);
    }
  }

  /** Every element of a traversal result is a stored relationship. */
  lemma {:induction false} TraversalStored(rs: seq<Relationship>, start: set<Guid>, n: nat)
    ensures forall r :: r in Traversal(rs, start, n) ==> r in rs
  {
    if n > 0 {
      TraversalStored(rs, start, n - 1);
    }
  }

  /** A depth-1 traversal is exactly the direct-relationship query of the start id. */
  lemma DepthOneIsDirect(rs: seq<Relationship>, x: Guid)
    ensures Traversal(rs, {x}, 1) == Touching(rs, {x})
    ensures multiset(Traversal(rs, {x}, 1)) == multiset(Touching(rs, {x}))
  {
  }

  /** `n` copies of `r`. */
  function Repeat(r: Relationship, n: nat): (s: seq<Relationship>)
    ensures |s| == n && forall k :: 0 <= k < n ==> s[k] == r
  {
    if n == 0 then [] else Repeat(r, n - 1) + [r]
  }

  /** No cycle guard: with the single edge a -> b, every round from a refetches that edge
      (round 0 through its source, later rounds through its target), so depth `n` yields `n` copies. */
  lemma {:induction false} SingleEdgeRevisited(e: Relationship, a: Guid, n: nat)
    requires e.sourceEntityId == a
    ensures Traversal([e], {a}, n) == Repeat(e, n)
  {
    if n > 0 {
      SingleEdgeRevisited(e, a, n - 1);
      if n - 1 > 0 {
        assert Frontier([e], {a}, n - 1) == NextFrontier(Touching([e], Frontier([e], {a}, n - 2)));
        assert Touching([e], Frontier([e], {a}, n - 2)) == [e] by {
          if n - 2 > 0 {
            assert e.targetEntityId in Frontier([e], {a}, n - 2) by {
              FrontierNonEmptyAfterEdge(e, a, n - 2);
            }
          }
        }
      }
    }
  }

  /** In the single-edge store, frontier `k` always holds an endpoint of the edge. */
  lemma {:induction false} FrontierNonEmptyAfterEdge(e: Relationship, a: Guid, k: nat)
    requires e.sourceEntityId == a
    ensures Touches(e, Frontier([e], {a}, k))
    ensures k > 0 ==> e.targetEntityId in Frontier([e], {a}, k)
  {
    if k > 0 {
      FrontierNonEmptyAfterEdge(e, a, k - 1);
      assert Touching([e], Frontier([e], {a}, k - 1)) == [e];
    }
  }

  /** The chain a -> b -> c: depth 1 yields [a->b]; depth 2 refetches a->b through b, since round 1's
      frontier {b} touches both edges. */
  lemma ChainExample(ab: Relationship, bc: Relationship, a: Guid, b: Guid, c: Guid)
    requires a != b && b != c && a != c
    requires ab.sourceEntityId == a && ab.targetEntityId == b
    requires bc.sourceEntityId == b && bc.targetEntityId == c
    ensures Traversal([ab, bc], {a}, 1) == [ab]
    ensures Traversal([ab, bc], {a}, 2) == [ab, ab, bc]
  {
    var rs := [ab, bc];
    assert rs[1..] == [bc] && [bc][1..] == [] && [ab][1..] == [];
    assert Touching([bc], {a}) == [] + Touching([], {a});
    assert Touching(rs, {a}) == [ab] + Touching([bc], {a});
    assert Traversal(rs, {a}, 1) == [] + Round(rs, {a}, 0);
    assert NextFrontier([ab]) == {b} + NextFrontier([]);
    assert Frontier(rs, {a}, 1) == {b};
    assert Touching([bc], {b}) == [bc] + Touching([], {b});
    assert Touching(rs, {b}) == [ab] + Touching([bc], {b});
    assert Traversal(rs, {a}, 2) == [ab] + Round(rs, {a}, 1);
  }

  // ---------------------------------------------------------------------------
  // The store
  // ---------------------------------------------------------------------------

  class AssetEntityRepository {
    var entities: map<Guid, AssetEntity>
    var relationships: seq<Relationship>

    ghost predicate Valid()
      reads this
    {
      EntitiesKeyed(entities) && UniqueRelationshipIds(relationships)
    }

    /** An empty store. */
    constructor ()
      ensures Valid()
      ensures entities == map[] && relationships == []
    {
      entities := map[];
      relationships := [];
    }

    /** `GetAllAsync`: every stored entity exactly once, in no particular order. */
    method GetAll() returns (all: seq<AssetEntity>)
      requires Valid()
      ensures |all| == |entities.Keys|
      ensures forall e :: e in all <==> e in entities.Values
      ensures forall i, j :: 0 <= i < j < |all| ==> all[i].entityId != all[j].entityId
    {
      var rest := entities.Keys;
      all := [];
      while rest != {}
        invariant rest <= entities.Keys
        invariant |all| + |rest| == |entities.Keys|
        invariant forall i :: 0 <= i < |all| ==>
            all[i].entityId in entities.Keys - rest && entities[all[i].entityId] == all[i]
        invariant forall id :: id in entities.Keys - rest ==> entities[id] in all
        invariant forall i, j :: 0 <= i < j < |all| ==> all[i].entityId != all[j].entityId
        decreases |rest|
      {
        var id :| id in rest;
        all := all + [entities[id]];
        rest := rest - {id};
      }
      forall e | e in entities.Values
        ensures e in all
      {
        var id :| id in entities && entities[id] == e;
      }
    }

    /** `GetByIdAsync`: the entity stored under `id`, or none. */
    method GetById(id: Guid) returns (found: Option<AssetEntity>)
      requires Valid()
      ensures found.Some? <==> id in entities
      ensures found.Some? ==> found.value == entities[id] && found.value.entityId == id
    {
      found := if id in entities then Some(entities[id]) else None;
    }

    /** `AddAsync`: inserts a record under its own id; a taken id is refused by the key constraint. */
    method Add(entity: AssetEntity) returns (outcome: Outcome<StoreError>)
      requires Valid()
      modifies this
      ensures Valid()
      ensures relationships == old(relationships)
      ensures outcome == if entity.entityId in old(entities) then Fail(DuplicateKey) else Pass
      ensures entities == if outcome.Pass? then old(entities)[entity.entityId := entity] else old(entities)
    {
      if entity.entityId in entities {
        outcome := Fail(DuplicateKey);
      } else {
        entities := entities[entity.entityId := entity];
        outcome := Pass;
      }
    }

    /** `UpdateAsync`: overwrites the record with the entity's id; an absent id matches no row. */
    method Update(entity: AssetEntity) returns (outcome: Outcome<StoreError>)
      requires Valid()
      modifies this
      ensures Valid()
      ensures relationships == old(relationships)
      ensures outcome == if entity.entityId in old(entities) then Pass else Fail(NotFound)
      ensures entities == if outcome.Pass? then old(entities)[entity.entityId := entity] else old(entities)
    {
      if entity.entityId in entities {
        entities := entities[entity.entityId := entity];
        outcome := Pass;
      } else {
        outcome := Fail(NotFound);
      }
    }

    /** `DeleteAsync`: removes exactly the record with that id; an absent id is not an error. */
    method Delete(id: Guid)
      requires Valid()
      modifies this
      ensures Valid()
      ensures relationships == old(relationships)
      ensures entities == old(entities) - {id}
      ensures id !in old(entities) ==> entities == old(entities)
    {
      if id in entities {
        entities := entities - {id};
      }
    }

    /** `GetIndirectRelationshipsAsync`: `depth` rounds of breadth-first expansion from `entityId`. */
    method GetIndirectRelationships(entityId: Guid, depth: Int32) returns (indirect: seq<Relationship>)
      ensures indirect == Traversal(relationships, {entityId}, if depth <= 0 then 0 else depth as int)
      ensures depth <= 0 ==> indirect == []
      ensures forall r :: r in indirect ==> r in relationships
    {
      indirect := [];
      var current: set<Guid> := {entityId};
      var i := 0;
      while i < depth as int
        invariant 0 <= i <= (if depth <= 0 then 0 else depth as int)
        invariant current == Frontier(relationships, {entityId}, i)
        invariant indirect == Traversal(relationships, {entityId}, i)
      {
        var fetched := Touching(relationships, current);
        indirect := indirect + fetched;
        current := NextFrontier(fetched);
        i := i + 1;
      }
      TraversalStored(relationships, {entityId}, i);
    }

    /** `GetRelationshipsByEntityIdAsync`: the stored edges with `entityId` as source or target. */
    method GetRelationshipsByEntityId(entityId: Guid) returns (found: seq<Relationship>)
      ensures forall r :: r in found <==>
                (r in relationships && (r.sourceEntityId == entityId || r.targetEntityId == entityId))
      ensures forall r :: multiset(found)[r]
                       == if r.sourceEntityId == entityId || r.targetEntityId == entityId
                          then multiset(relationships)[r] else 0
      ensures found == Touching(relationships, {entityId})
    {
      found := Touching(relationships, {entityId});
      forall r
        ensures multiset(found)[r]
             == if r.sourceEntityId == entityId || r.targetEntityId == entityId
                then multiset(relationships)[r] else 0
      {
        TouchingMultiplicity(relationships, {entityId}, r);
      }
    }

    /** `GetRelationshipByIdAsync`: the stored relationship with that id, or none. */
    method GetRelationshipById(id: Guid) returns (found: Option<Relationship>)
      requires Valid()
      ensures found.Some? <==> exists r :: r in relationships && r.relationshipId == id
      ensures found.Some? ==> found.value in relationships && found.value.relationshipId == id
      ensures found == RelationshipById(relationships, id)
    {
      found := RelationshipById(relationships, id);
    }

    /** `CreateRelationship`: appends the edge; a taken id is refused by the key constraint. */
    method CreateRelationship(r: Relationship) returns (outcome: Outcome<StoreError>)
      requires Valid()
      modifies this
      ensures Valid()
      ensures entities == old(entities)
      ensures outcome == if RelationshipById(old(relationships), r.relationshipId).Some?
                         then Fail(DuplicateKey) else Pass
      ensures relationships == if outcome.Pass? then old(relationships) + [r] else old(relationships)
    {
      if RelationshipById(relationships, r.relationshipId).Some? {
        outcome := Fail(DuplicateKey);
      } else {
        assert forall i :: 0 <= i < |relationships| ==> relationships[i] in relationships;
        relationships := relationships + [r];
        outcome := Pass;
      }
    }

    /** `UpdateRelationship`: overwrites the record with the edge's id; an absent id matches no row. */
    method UpdateRelationship(r: Relationship) returns (outcome: Outcome<StoreError>)
      requires Valid()
      modifies this
      ensures Valid()
      ensures entities == old(entities)
      ensures outcome == if RelationshipById(old(relationships), r.relationshipId).Some?
                         then Pass else Fail(NotFound)
      ensures relationships == if outcome.Pass? then ReplaceById(old(relationships), r) else old(relationships)
    {
      var found := RelationshipById(relationships, r.relationshipId);
      if found.Some? {
        var k :| 0 <= k < |relationships| && relationships[k] == found.value;
        ReplaceByIdAt(relationships, r, k);
        relationships := ReplaceById(relationships, r);
        outcome := Pass;
      } else {
        outcome := Fail(NotFound);
      }
    }
  }
}
