# Asset-entity relationship graph, modelled in Dafny

This project models the relationship-graph core of an asset-management back end. Asset entities (legal and natural persons) are linked by directed `Relationship` edges. The back end stores entities and edges and offers three pieces of logic over them:

- A bounded breadth-first traversal. It runs exactly `depth` rounds. Each round fetches every stored edge with an endpoint in the current frontier and appends those edges to the result, with no de-duplication. The next frontier is the set of the **target** ids of that round's edges.
- A "circular relationship" check. It holds when some stored edge touching the source has the target as an endpoint. It looks one hop only; it does not detect cycles.
- Upsert and patch. A new relationship id is inserted unless the check fires. An existing id gets only its mutable fields overwritten, with no check. An entity patch overwrites a fixed set of fields, and does nothing when the id is absent.

Files:

- `wrappers.dfy`: `Option` (a nullable value) and `Outcome` (success, or the exception a call would throw).
- `models.dfy` (module `Models`): the records as datatypes. Entity and asset subclasses become a `variant` sum type. The `New…` functions give the default field values.
- `repository.dfy` (module `Repositories`): the store as class `AssetEntityRepository`. Entities live in a `map` keyed by id, relationships in a `seq` in store order. The module also holds the traversal's specification functions (`Touching`, `Frontier`, `Round`, `Traversal`, and the independent forward reading `Expand`) and the lemmas about them. `GetIndirectRelationships` is the source's loop, proved equal to `Traversal`.
- `service.dfy` (module `Services`): the check as the predicate `CircularRelationship`, the field updates `Patch` and `Amend`, and class `AssetEntityService`. The service holds the repository and changes it only through the repository's methods.

Modelling choices:

- Ids are 128-bit values that are only compared for equality.
- Timestamps are a tick count. "Now" is passed in by the caller as `now`.
- A write the database would refuse is modelled as `Fail(...)` with the store left unchanged. Two such writes exist: an insert whose key is taken, and an update whose key matches no row. The source has no explicit check for either. When the changes are saved, an insert with a taken key fails on the primary-key constraint, and an update that matches no row fails because it affects zero rows.
- The frontier is modelled as a `set`. The source builds it with `Distinct()` into a list, but only ever tests membership in it.
- Per-round query results are taken in store order (the order of the `relationships` sequence).

A round fetches an edge again through its target. For the chain A→B→C, depth 2 gives `[A→B, A→B, B→C]`, because round 1's frontier `{B}` touches both edges (`Repositories.ChainExample`).

## Model

| member | source | states |
|---|---|---|
| `Models.NewAssetEntity` | BackTest/Models/Models.cs:6-28 | a fresh entity starts with type "Unknown", no review flag, no update or deletion time, empty relationship and position collections, and the given id and creation time |
| `Models.NewLegalEntity` | BackTest/Models/Models.cs:31-37 | a fresh legal entity has the entity defaults, legal name "Required", no trade name and no owned assets |
| `Models.NewNaturalEntity` | BackTest/Models/Models.cs:40-48 | a fresh natural entity has the entity defaults, the caller's required first and last name, no birth date and no owned assets |
| `Models.NewRelationship` | BackTest/Models/Models.cs:93-113 | a fresh relationship has one source id and one target id, is bidirectional, is not under review, and has no role, metadata, update time or deletion time |
| `Repositories.Touching` | BackTest/Repositories/AssetEntityRepository.cs:68-70 | the round query returns exactly the stored edges with an endpoint in the id set, and never more edges than are stored |
| `Repositories.TouchingMultiplicity` | BackTest/Repositories/AssetEntityRepository.cs:68-70 | each touching edge is returned as often as it is stored; every other edge is dropped |
| `Repositories.TouchingNone` | BackTest/Repositories/AssetEntityRepository.cs:68-70 | when no stored edge touches the id set, nothing is fetched |
| `Repositories.TouchingEmptyFrontier` | BackTest/Repositories/AssetEntityRepository.cs:68-70 | an empty frontier fetches nothing |
| `Repositories.NextFrontierMembers` | BackTest/Repositories/AssetEntityRepository.cs:73 | an id is in the next frontier exactly when it is the target of one of the round's edges |
| `Repositories.RelationshipById` | BackTest/Repositories/AssetEntityRepository.cs:86-89 | a found relationship is stored and has the asked id; none is found exactly when no stored relationship has that id |
| `Repositories.ReplaceById` | BackTest/Repositories/AssetEntityRepository.cs:97-101 | an update keeps the store's length, replaces the record with the new record's id, and leaves every other record in place |
| `Repositories.ReplaceByIdAt` | BackTest/Repositories/AssetEntityRepository.cs:97-101 | with unique ids, an update changes exactly the one record at that id's position and keeps the ids unique |
| `Repositories.TraversalPrefix` | BackTest/Repositories/AssetEntityRepository.cs:66-72 | the result for a smaller depth is a prefix of the result for any larger depth |
| `Repositories.TraversalLength` | BackTest/Repositories/AssetEntityRepository.cs:66-72 | the result's length is the sum of the round sizes, so nothing is de-duplicated |
| `Repositories.FrontierShift` | BackTest/Repositories/AssetEntityRepository.cs:64-73 | the frontier of round k is the frontier of round k-1 of a search started from round 0's targets |
| `Repositories.TraversalUnfoldFirst` | BackTest/Repositories/AssetEntityRepository.cs:64-73 | for n > 0, n rounds are round 0's edges followed by n - 1 rounds started from their targets |
| `Repositories.TraversalIsExpansion` | BackTest/Repositories/AssetEntityRepository.cs:61-77 | the loop's append-at-the-end traversal equals the forward-recursive breadth-first expansion |
| `Repositories.RoundIsTouchingFrontier` | BackTest/Repositories/AssetEntityRepository.cs:64-70 | round i fetches exactly the stored edges with an endpoint in frontier i, each with its stored multiplicity; round 0's frontier is the start id |
| `Repositories.FrontierIsTargets` | BackTest/Repositories/AssetEntityRepository.cs:73 | the frontier of round i > 0 holds exactly the target ids of round i-1's edges |
| `Repositories.SourceOnlyNeverInFrontier` | BackTest/Repositories/AssetEntityRepository.cs:73 | an id that is the target of no stored edge is in no frontier after round 0, so source ids are never added |
| `Repositories.EmptyRoundAbsorbing` | BackTest/Repositories/AssetEntityRepository.cs:66-73 | once a round fetches nothing, every later frontier is empty, every later round is empty and the result stops growing |
| `Repositories.UntouchedStartYieldsNothing` | BackTest/Repositories/AssetEntityRepository.cs:61-77 | a start id that no stored edge touches yields the empty result at every depth |
| `Repositories.TraversalStored` | BackTest/Repositories/AssetEntityRepository.cs:61-77 | every element of a traversal result is a stored relationship |
| `Repositories.DepthOneIsDirect` | BackTest/Repositories/AssetEntityRepository.cs:79-84 | a depth-1 traversal from x equals the direct query of x, as a sequence and as a multiset |
| `Repositories.SingleEdgeRevisited` | BackTest/Repositories/AssetEntityRepository.cs:66-73 | with one edge a→b and no cycle guard, depth n from a yields n copies of that edge |
| `Repositories.ChainExample` | BackTest/Repositories/AssetEntityRepository.cs:61-77 | for the chain a→b→c, depth 1 yields [a→b] and depth 2 yields [a→b, a→b, b→c] |
| `Repositories.AssetEntityRepository.constructor` | BackTest/Repositories/AssetEntityRepository.cs:24-27 | a new store is empty and satisfies the store invariant |
| `Repositories.AssetEntityRepository.GetAll` | BackTest/Repositories/AssetEntityRepository.cs:29-32 | returns every stored entity exactly once, in no promised order |
| `Repositories.AssetEntityRepository.GetById` | BackTest/Repositories/AssetEntityRepository.cs:34-37 | returns the entity stored under the id, with that id, or nothing when the id is absent |
| `Repositories.AssetEntityRepository.Add` | BackTest/Repositories/AssetEntityRepository.cs:39-43 | stores the entity under its id; a taken id fails and changes nothing |
| `Repositories.AssetEntityRepository.Update` | BackTest/Repositories/AssetEntityRepository.cs:45-49 | replaces the record with the entity's id; an absent id fails and changes nothing |
| `Repositories.AssetEntityRepository.Delete` | BackTest/Repositories/AssetEntityRepository.cs:51-59 | removes exactly the entity with that id and nothing else; an absent id changes nothing |
| `Repositories.AssetEntityRepository.GetIndirectRelationships` | BackTest/Repositories/AssetEntityRepository.cs:61-77 | returns the traversal of `depth` rounds from the start id (empty when depth <= 0), reads only stored edges and does not change the store |
| `Repositories.AssetEntityRepository.GetRelationshipsByEntityId` | BackTest/Repositories/AssetEntityRepository.cs:79-84 | returns exactly the stored edges with the id as source or target, each as often as it is stored |
| `Repositories.AssetEntityRepository.GetRelationshipById` | BackTest/Repositories/AssetEntityRepository.cs:86-89 | returns a stored relationship with that id, or nothing exactly when there is none |
| `Repositories.AssetEntityRepository.CreateRelationship` | BackTest/Repositories/AssetEntityRepository.cs:91-95 | appends the edge; a taken id fails and changes nothing; entities are untouched |
| `Repositories.AssetEntityRepository.UpdateRelationship` | BackTest/Repositories/AssetEntityRepository.cs:97-101 | overwrites the record with the edge's id; an absent id fails and changes nothing |
| `Services.CircularIffJoined` | BackTest/Services/AssetEntityService.cs:93-97 | for distinct source and target, the check holds exactly when a stored edge joins them in either direction |
| `Services.CircularSymmetric` | BackTest/Services/AssetEntityService.cs:93-97 | the check gives the same answer with its arguments swapped |
| `Services.CircularSelf` | BackTest/Services/AssetEntityService.cs:93-97 | with source equal to target, the check holds exactly when some stored edge touches that entity |
| `Services.InsertedEdgeIsCircular` | BackTest/Services/AssetEntityService.cs:73-79 | after an edge is appended, the check holds for its endpoints in both orders, so a new relationship between the same endpoints, under a fresh id and in either direction, is refused |
| `Services.Patch` | BackTest/Services/AssetEntityService.cs:45-53 | the patched entity takes reference, language, type, risk level, tags and review flag from the update, gets the new update time, and is otherwise the existing record (id, creation and deletion time, relationships, positions, variant) |
| `Services.Amend` | BackTest/Services/AssetEntityService.cs:81-90 | the amended edge takes type, role, direction flag and metadata from the payload, gets the new update time, and keeps its id, endpoints, creation and deletion time and review flag |
| `Services.PatchLastWriteWins` | BackTest/Services/AssetEntityService.cs:45-53 | two patches in a row equal the second patch alone |
| `Services.AmendLastWriteWins` | BackTest/Services/AssetEntityService.cs:81-90 | two updates of an existing relationship equal the second alone, and the creation time is kept |
| `Services.AssetEntityService.constructor` | BackTest/Services/AssetEntityService.cs:21-24 | the service works on the given store |
| `Services.AssetEntityService.GetAllEntities` | BackTest/Services/AssetEntityService.cs:26-29 | returns every stored entity, as the store does |
| `Services.AssetEntityService.GetEntityById` | BackTest/Services/AssetEntityService.cs:31-34 | returns what the store's lookup returns |
| `Services.AssetEntityService.CreateEntity` | BackTest/Services/AssetEntityService.cs:36-39 | has the store's insert effect; a taken id fails and nothing changes |
| `Services.AssetEntityService.UpdateEntity` | BackTest/Services/AssetEntityService.cs:41-55 | an absent id changes nothing; a present id has its record replaced by the patch of that record, and nothing else changes |
| `Services.AssetEntityService.DeleteEntity` | BackTest/Services/AssetEntityService.cs:57-60 | has the store's delete effect |
| `Services.AssetEntityService.GetIndirectRelationships` | BackTest/Services/AssetEntityService.cs:62-65 | returns the store's traversal result |
| `Services.AssetEntityService.GetRelationshipById` | BackTest/Services/AssetEntityService.cs:99-102 | returns what the store's relationship lookup returns |
| `Services.AssetEntityService.CheckCircularRelationship` | BackTest/Services/AssetEntityService.cs:93-97 | returns the check evaluated on the current store |
| `Services.AssetEntityService.CreateOrUpdateRelationship` | BackTest/Services/AssetEntityService.cs:67-91 | an existing id: the stored record is replaced by its amendment and no check is run. A new id for which the check fires: fails and stores nothing. Otherwise: exactly that relationship is appended. Entities never change. |

## Left out

- The HTTP controller (routing, status codes, its not-found pre-checks): it only maps calls to responses.
- The database context and change tracking: a saved change is an immediate update of the store's state. Cascade deletes are not modelled.
- Asynchrony and concurrency: calls run one at a time. The race between the check and the insert in `CreateOrUpdateRelationship` is therefore not represented.
- `Guid.NewGuid()` and `DateTime.UtcNow`: ids are supplied inside the records, and the current time is the `now` parameter.
- Floating-point and decimal fields carry no logic and are omitted: `OwnershipPercentage`, `X`/`Y`, `MarketValue`, `BuildingSize`, `CurrentPrice`.
- Navigation properties (`SourceEntity`, `TargetEntity`, `Entity`, `Asset`) are represented only by their foreign-key ids. An insert that would also insert or attach the referenced entities is not modelled. Neither is the foreign-key check that the endpoints exist.
- The collection navigations `Relationships`, `Positions` (BackTest/Models/Models.cs:26-27) and `OwnedAssets` (BackTest/Models/Models.cs:36, 47) are carried as plain values. They are not tied to the store. `AddAsync` (BackTest/Repositories/AssetEntityRepository.cs:41) would insert the whole object graph, so relationships inside a new entity's `Relationships` would be stored without the circular check. That graph insert is not modelled: `Add` stores the entity record alone.
- Asset variants, `AssetOwnership` and `EntityPosition` are declared but have no operations, since the core has none for them.
- `DeletedAt` is carried but never set or filtered on, as in the source.
- The order of query results is not promised by the database. The model fixes store order for each round, so order-sensitive lemmas (`TraversalPrefix`, `ChainExample`) hold under that choice.
- The traversal's `depth` is a C# `int` (`Int32`). The loop counter stays below `depth`, so it never overflows.
