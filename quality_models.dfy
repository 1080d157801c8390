/**
 * The value shapes of migration 036: quality levels, the quality-definition
 * catalog, the profile items it writes, the legacy nested quality model it
 * reads and the flat quality model it writes, and the foreign serialisers
 * it calls.
 */
module QualityModels {
  import opened Wrappers

  /** A quality level. Two qualities are the same exactly when their ids are. */
  datatype Quality = Quality(id: int)

  /** One entry of the quality-definition catalog: a quality and its rank. */
  datatype QualityDefinition = QualityDefinition(quality: Quality, weight: int)

  /** One element of a profile's new `Items` list. */
  datatype ProfileItem = ProfileItem(quality: Quality, allowed: bool)

  /** The legacy nested quality object; only its id is read. */
  datatype SourceQuality = SourceQuality(id: int)

  /** The legacy quality model: a nested quality object plus the proper flag. */
  datatype SourceQualityModel = SourceQualityModel(quality: SourceQuality, proper: bool)

  /** The new quality model: the quality id plus the proper flag. */
  datatype DestinationQualityModel = DestinationQualityModel(quality: int, proper: bool)

  /**
   * The foreign code the migration calls, passed in as functions:
   * the strict JSON deserialiser of a profile's `Allowed` list (None marks a
   * document it would throw on), the embedded-document converter that writes
   * an item list, the tolerant deserialiser of a legacy quality model (taken
   * never to yield a model whose nested quality is missing), and the
   * embedded-document converter that writes a flat quality model.
   */
  datatype Codec = Codec(
    deserializeAllowed: string -> Option<seq<Quality>>,
    serializeItems: seq<ProfileItem> -> string,
    tryDeserializeSource: string -> Option<SourceQualityModel>,
    serializeDestination: DestinationQualityModel -> string)

  /** Reduces a legacy quality model to the flat shape: the nested id and the proper flag. */
  function Flatten(source: SourceQualityModel): DestinationQualityModel
  {
    DestinationQualityModel(source.quality.id, source.proper)
  }

  /**
   * The legacy shape a flat model came from. The migration never nests a
   * value; this inverse serves only to state, in `FlattenIsBijective`, that
   * flattening keeps every field of the parsed legacy model.
   */
  function Nest(destination: DestinationQualityModel): SourceQualityModel
  {
    SourceQualityModel(SourceQuality(destination.quality), destination.proper)
  }

  /** Flattening loses nothing the legacy shape carries, and every flat value has a legacy origin. */
  lemma FlattenIsBijective(source: SourceQualityModel, destination: DestinationQualityModel)
    ensures Nest(Flatten(source)) == source
    ensures Flatten(Nest(destination)) == destination
    ensures Flatten(source).quality == source.quality.id && Flatten(source).proper == source.proper
  {
  }
}
