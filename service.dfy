/** The service layer: upsert of relationships guarded by the direct-adjacency
    ("circular relationship") check, the partial update of entities, and the
    operations it forwards unchanged to the store. */
module Services {
  import opened Wrappers
  import opened Models
  import opened Repositories

  /** Why a service call fails: the store refused the write, or the new relationship would
      join two entities that already share an edge (the `InvalidOperationException`). */
  datatype ServiceError = StoreFailure(cause: StoreError) | CircularRelationshipDetected

  // ---------------------------------------------------------------------------
  // The "circular relationship" check
  // ---------------------------------------------------------------------------

  /** `fetched.Any(r => r.TargetEntity_Id == target || r.SourceEntity_Id == target)`. */
  predicate AnyEndpointIs(fetched: seq<Relationship>, target: Guid)
  {
    exists r :: r in fetched && (r.targetEntityId == target || r.sourceEntityId == target)
  }

  /** The check run before a relationship is created: some edge touching `source` has `target`
      as an endpoint. */
  predicate CircularRelationship(rs: seq<Relationship>, source: Guid, target: Guid)
  {
    AnyEndpointIs(Touching(rs, {source}), target)
  }

  /** The edge joins `a` and `b`, in either direction. */
  predicate Joins(r: Relationship, a: Guid, b: Guid)
  {
    (r.sourceEntityId == a && r.targetEntityId == b) || (r.sourceEntityId == b && r.targetEntityId == a)
  }

  /** For two distinct entities the check is exactly "a stored edge joins them, in either direction":
      a one-hop adjacency test, not transitive cycle detection. */
  lemma CircularIffJoined(rs: seq<Relationship>, source: Guid, target: Guid)
    requires source != target
    ensures CircularRelationship(rs, source, target) <==> exists r :: r in rs && Joins(r, source, target)
  {
  }

  /** The check does not depend on the order of its arguments. */
  lemma CircularSymmetric(rs: seq<Relationship>, a: Guid, b: Guid)
    ensures CircularRelationship(rs, a, b) <==> CircularRelationship(rs, b, a)
  {
  }

  /** With source equal to target the check holds as soon as any edge touches that entity. */
  lemma CircularSelf(rs: seq<Relationship>, x: Guid)
    ensures CircularRelationship(rs, x, x) <==> exists r :: r in rs && Touches(r, {x})
  {
  }

  /** Once an edge is stored, the check refuses any further edge between its endpoints, in either
      direction: resubmitting the same payload under a new id fails. */
  lemma InsertedEdgeIsCircular(rs: seq<Relationship>, r: Relationship)
    ensures CircularRelationship(rs + [r], r.sourceEntityId, r.targetEntityId)
    ensures CircularRelationship(rs + [r], r.targetEntityId, r.sourceEntityId)
  {
  }

  // ---------------------------------------------------------------------------
  // Field-level updates
  // ---------------------------------------------------------------------------

  /** The record `UpdateEntityAsync` writes back: the mutable fields taken from `incoming`, the
      update time set to `now`, and everything else kept from `existing`. */
  function Patch(existing: AssetEntity, incoming: AssetEntity, now: DateTime): (e: AssetEntity)
    ensures e.entityReference == incoming.entityReference
    ensures e.preferredLanguage == incoming.preferredLanguage
    ensures e.entityType == incoming.entityType
    ensures e.riskLevel == incoming.riskLevel
    ensures e.tags == incoming.tags
    ensures e.isUnderReview == incoming.isUnderReview
    ensures e.updatedAt == Some(now)
    ensures e.(entityReference := existing.entityReference, preferredLanguage := existing.preferredLanguage,
               entityType := existing.entityType, riskLevel := existing.riskLevel, tags := existing.tags,
               isUnderReview := existing.isUnderReview, updatedAt := existing.updatedAt) == existing
  {
    existing.(entityReference := incoming.entityReference,
              preferredLanguage := incoming.preferredLanguage,
              entityType := incoming.entityType,
              riskLevel := incoming.riskLevel,
              tags := incoming.tags,
              updatedAt := Some(now),
              isUnderReview := incoming.isUnderReview)
  }

  /** The record the update branch of `CreateOrUpdateRelationshipAsync` writes back: type, role,
      direction flag and metadata from `incoming`, the update time set to `now`, and the endpoints,
      creation and deletion times and review flag kept from `existing`. */
  function Amend(existing: Relationship, incoming: Relationship, now: DateTime): (r: Relationship)
    ensures r.relationshipType == incoming.relationshipType
    ensures r.role == incoming.role
    ensures r.isBidirectional == incoming.isBidirectional
    ensures r.additionalMetadata == incoming.additionalMetadata
    ensures r.updatedAt == Some(now)
    ensures r.(relationshipType := existing.relationshipType, role := existing.role,
               isBidirectional := existing.isBidirectional, additionalMetadata := existing.additionalMetadata,
               updatedAt := existing.updatedAt) == existing
  {
    existing.(relationshipType := incoming.relationshipType,
              role := incoming.role,
              isBidirectional := incoming.isBidirectional,
              updatedAt := Some(now),
              additionalMetadata := incoming.additionalMetadata)
  }

  /** Two patches in a row leave what the second alone would: the last write wins and the
      preserved fields never drift. */
  lemma PatchLastWriteWins(e: AssetEntity, first: AssetEntity, second: AssetEntity, t1: DateTime, t2: DateTime)
    ensures Patch(Patch(e, first, t1), second, t2) == Patch(e, second, t2)
  {
  }

  /** Two amendments in a row leave what the second alone would: repeating an upsert with another
      role stores that role and keeps the original creation time. */
  lemma AmendLastWriteWins(r: Relationship, first: Relationship, second: Relationship, t1: DateTime, t2: DateTime)
    ensures Amend(Amend(r, first, t1), second, t2) == Amend(r, second, t2)
    ensures Amend(Amend(r, first, t1), second, t2).createdAt == r.createdAt
  {
  }

  // ---------------------------------------------------------------------------
  // The service
  // ---------------------------------------------------------------------------

  class AssetEntityService {
    const repository: AssetEntityRepository

    constructor (repository: AssetEntityRepository)
      ensures this.repository == repository
    {
      this.repository := repository;
    }

    /** `GetAllEntitiesAsync`, forwarded to the store. */
    method GetAllEntities() returns (all: seq<AssetEntity>)
      requires repository.Valid()
      ensures |all| == |repository.entities.Keys|
      ensures forall e :: e in all <==> e in repository.entities.Values
    {
      all := repository.GetAll();
    }

    /** `GetEntityByIdAsync`, forwarded to the store. */
    method GetEntityById(id: Guid) returns (found: Option<AssetEntity>)
      requires repository.Valid()
      ensures found.Some? <==> id in repository.entities
      ensures found.Some? ==> found.value == repository.entities[id]
    {
      found := repository.GetById(id);
    }

    /** `CreateEntityAsync`, forwarded to the store. */
    method CreateEntity(entity: AssetEntity) returns (outcome: Outcome<ServiceError>)
      requires repository.Valid()
      modifies repository
      ensures repository.Valid()
      ensures repository.relationships == old(repository.relationships)
      ensures outcome == if entity.entityId in old(repository.entities)
                         then Fail(StoreFailure(DuplicateKey)) else Pass
      ensures repository.entities == if outcome.Pass? then old(repository.entities)[entity.entityId := entity]
                                     else old(repository.entities)
    {
      var stored := repository.Add(entity);
      outcome := if stored.Pass? then Pass else Fail(StoreFailure(stored.error));
    }

    /** `UpdateEntityAsync`: patches the record stored under `id`; an absent id is silently ignored. */
    method UpdateEntity(id: Guid, updated: AssetEntity, now: DateTime)
      requires repository.Valid()
      modifies repository
      ensures repository.Valid()
      ensures repository.relationships == old(repository.relationships)
      ensures id !in old(repository.entities) ==> repository.entities == old(repository.entities)
      ensures id in old(repository.entities) ==>
                repository.entities == old(repository.entities)[id := Patch(old(repository.entities)[id], updated, now)]
    {
      var existing := repository.GetById(id);
      if existing.Some? {
        var patched := Patch(existing.value, updated, now);
        assert patched.entityId == id;
        var stored := repository.Update(patched);
        assert stored.Pass?;
      }
    }

    /** `DeleteEntityAsync`, forwarded to the store. */
    method DeleteEntity(id: Guid)
      requires repository.Valid()
      modifies repository
      ensures repository.Valid()
      ensures repository.relationships == old(repository.relationships)
      ensures repository.entities == old(repository.entities) - {id}
    {
      repository.Delete(id);
    }

    /** `GetIndirectRelationshipsAsync`, forwarded to the store. */
    method GetIndirectRelationships(entityId: Guid, depth: Int32) returns (indirect: seq<Relationship>)
      ensures indirect == Traversal(repository.relationships, {entityId}, if depth <= 0 then 0 else depth as int)
      ensures forall r :: r in indirect ==> r in repository.relationships
    {
      indirect := repository.GetIndirectRelationships(entityId, depth);
    }

    /** `GetRelationshipByIdAsync`, forwarded to the store. */
    method GetRelationshipById(id: Guid) returns (found: Option<Relationship>)
      requires repository.Valid()
      ensures found.Some? <==> exists r :: r in repository.relationships && r.relationshipId == id
      ensures found.Some? ==> found.value in repository.relationships && found.value.relationshipId == id
    {
      found := repository.GetRelationshipById(id);
    }

    /** `CheckCircularRelationshipAsync`: fetches the edges touching `source` and asks whether any
        of them has `target` as an endpoint. */
    method CheckCircularRelationship(source: Guid, target: Guid) returns (circular: bool)
      ensures circular == CircularRelationship(repository.relationships, source, target)
    {
      var fetched := repository.GetRelationshipsByEntityId(source);
      circular := AnyEndpointIs(fetched, target);
    }

    /** `CreateOrUpdateRelationshipAsync`: a new id is inserted unless the check finds the endpoints
        already joined, in which case nothing is stored; a known id has only its mutable fields
        overwritten, with no check. */
    method CreateOrUpdateRelationship(relationship: Relationship, now: DateTime)
      returns (outcome: Outcome<ServiceError>)
      requires repository.Valid()
      modifies repository
      ensures repository.Valid()
      ensures repository.entities == old(repository.entities)
      ensures var existing := RelationshipById(old(repository.relationships), relationship.relationshipId);
              if existing.Some? then
                && outcome == Pass
                && repository.relationships
                     == ReplaceById(old(repository.relationships), Amend(existing.value, relationship, now))
              else if CircularRelationship(old(repository.relationships),
                                           relationship.sourceEntityId, relationship.targetEntityId) then
                && outcome == Fail(CircularRelationshipDetected)
                && repository.relationships == old(repository.relationships)
              else
                && outcome == Pass
                && repository.relationships == old(repository.relationships) + [relationship]
    {
      var existing := repository.GetRelationshipById(relationship.relationshipId);
      if existing.None? {
        var circular := CheckCircularRelationship(relationship.sourceEntityId, relationship.targetEntityId);
        if circular {
          return Fail(CircularRelationshipDetected);
        }
        var stored := repository.CreateRelationship(relationship);
        assert stored.Pass?;
        outcome := Pass;
      } else {
        var amended := Amend(existing.value, relationship, now);
        var stored := repository.UpdateRelationship(amended);
        assert stored.Pass?;
        outcome := Pass;
      }
    }
  }
}
