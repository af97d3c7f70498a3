/** The record shapes of the asset-management domain and their default values.

    Class inheritance (LegalEntity and NaturalEntity extend AssetEntity; RealEstate,
    Stock and IPAsset extend the abstract Asset) becomes a record with the common
    fields and a `variant` sum type. Navigation properties that point back to a
    parent record (Relationship.SourceEntity, AssetOwnership.Asset, ...) are
    represented by the foreign-key id the record already carries. */
module Models {
  import opened Wrappers

  /** A 128-bit globally unique identifier. The model only ever compares ids for equality. */
  newtype Guid = x: int | 0 <= x < 0x1_0000_0000_0000_0000_0000_0000_0000_0000

  /** A point in time, as a count of ticks. Timestamps are supplied by the caller. */
  type DateTime = nat

  /** A C# `int`. */
  newtype Int32 = x: int | -0x8000_0000 <= x < 0x8000_0000

  /** A record that takes part in relationships and may own assets, keyed by `entityId`. */
  datatype AssetEntity = AssetEntity(
    entityId: Guid,
    entityReference: Option<string>,
    preferredLanguage: Option<string>,
    entityType: string,
    riskLevel: Option<string>,
    tags: Option<seq<string>>,
    createdAt: DateTime,
    updatedAt: Option<DateTime>,
    deletedAt: Option<DateTime>,
    isUnderReview: bool,
    relationships: Option<seq<Relationship>>,
    positions: Option<seq<EntityPosition>>,
    variant: EntityVariant)

  /** Which kind of asset entity a record is, with the fields only that kind has. */
  datatype EntityVariant =
    | Base
    | Legal(legalName: string, tradeName: Option<string>, ownedAssets: Option<seq<AssetOwnership>>)
    | Natural(firstName: string, lastName: string, dateOfBirth: Option<DateTime>,
              ownedAssets: Option<seq<AssetOwnership>>)

  /** An ownable asset, keyed by `assetId`. There is no plain asset: every value is one of the variants. */
  datatype Asset = Asset(assetId: Guid, assetName: Option<string>, assetType: string, variant: AssetVariant)

  datatype AssetVariant =
    | RealEstate(location: string)
    | Stock(stockSymbol: string, numberOfShares: Int32)
    | IPAsset(patentNumber: string, expiryDate: DateTime)

  /** Links exactly one entity to exactly one asset, keyed by `ownershipId`. */
  datatype AssetOwnership = AssetOwnership(ownershipId: Guid, entityId: Guid, assetId: Guid)

  /** A directed edge from one source entity to one target entity, keyed by `relationshipId`. */
  datatype Relationship = Relationship(
    relationshipId: Guid,
    relationshipType: string,
    role: Option<string>,
    sourceEntityId: Guid,
    targetEntityId: Guid,
    isBidirectional: bool,
    additionalMetadata: Option<string>,
    createdAt: DateTime,
    updatedAt: Option<DateTime>,
    deletedAt: Option<DateTime>,
    isUnderReview: bool)

  /** A display position of one entity, keyed by `positionId`. */
  datatype EntityPosition = EntityPosition(positionId: Guid, entityId: Guid)

  /** The common defaults every fresh asset entity starts with. */
  predicate HasEntityDefaults(e: AssetEntity, id: Guid, now: DateTime)
  {
    && e.entityId == id
    && e.entityReference == None && e.preferredLanguage == None
    && e.entityType == "Unknown"
    && e.riskLevel == None && e.tags == None
    && e.createdAt == now && e.updatedAt == None && e.deletedAt == None
    && !e.isUnderReview
    && e.relationships == Some([]) && e.positions == Some([])
  }

  /** `new AssetEntity()` with the id and the clock reading it would draw supplied by the caller. */
  function NewAssetEntity(id: Guid, now: DateTime): (e: AssetEntity)
    ensures HasEntityDefaults(e, id, now)
    ensures e.variant == Base
  {
    AssetEntity(id, None, None, "Unknown", None, None, now, None, None, false, Some([]), Some([]), Base)
  }

  /** `new LegalEntity()`: the entity defaults, the placeholder legal name and no owned assets. */
  function NewLegalEntity(id: Guid, now: DateTime): (e: AssetEntity)
    ensures HasEntityDefaults(e, id, now)
    ensures e.variant == Legal("Required", None, Some([]))
  {
    NewAssetEntity(id, now).(variant := Legal("Required", None, Some([])))
  }

  /** `new NaturalEntity { FirstName = .., LastName = .. }`: both names are required by the caller. */
  function NewNaturalEntity(id: Guid, now: DateTime, firstName: string, lastName: string): (e: AssetEntity)
    ensures HasEntityDefaults(e, id, now)
    ensures e.variant == Natural(firstName, lastName, None, Some([]))
  {
    NewAssetEntity(id, now).(variant := Natural(firstName, lastName, None, Some([])))
  }

  /** `new Relationship { RelationshipType = .., SourceEntity = .., TargetEntity = .. }`. */
  function NewRelationship(id: Guid, relationshipType: string, source: Guid, target: Guid, now: DateTime)
    : (r: Relationship)
    ensures r.relationshipId == id && r.relationshipType == relationshipType
    ensures r.sourceEntityId == source && r.targetEntityId == target
    ensures r.role == None && r.additionalMetadata == None
    ensures r.isBidirectional && !r.isUnderReview
    ensures r.createdAt == now && r.updatedAt == None && r.deletedAt == None
  {
    Relationship(id, relationshipType, None, source, target, true, None, now, None, None, false)
  }
}
