/**
 * The feature sets that a map test-suite builder derives for the suites it
 * generates from a map's features: the reserialized map, and the entry-set,
 * key-set and values views of the map.
 */
module MapSuiteFeatures {
  import opened JavaLang

  /** The constants of the collection-feature enumeration, in declaration order. */
  datatype CollectionFeature =
    | AllowsNullQueries | AllowsNullValues | RestrictsElements | KnownOrder | NonStandardToString
    | RejectsDuplicatesAtCreation | SupportsAdd | SupportsRemove | SupportsIteratorRemove
    | FailsFastOnConcurrentModification | GeneralPurpose | RemoveOperations | Serializable
    | SerializableIncludingViews | SubsetView | DescendingView | NoFeatures

  /** The constants of the map-feature enumeration. */
  datatype MapFeature =
    | AllowsNullKeyQueries | AllowsNullKeys | AllowsNullValueQueries | AllowsNullValues
    | AllowsNullEntryQueries | AllowsAnyNullQueries | RestrictsKeys | RestrictsValues | SupportsPut
    | SupportsRemove | FailsFastOnConcurrentModification | RejectsDuplicatesAtCreation | GeneralPurpose

  /** The constants of the collection-size enumeration. */
  datatype CollectionSize = Zero | One | Several | Any

  /** A test feature: one of the three enumerations above, or any other kind of feature (a list or set feature, ...). */
  datatype Feature =
    | Collection(c: CollectionFeature)
    | Map(m: MapFeature)
    | Size(s: CollectionSize)
    | OtherFeature(name: string)

  /** `CollectionFeature.values()`. */
  const AllCollectionFeatures: seq<CollectionFeature> := [
    CollectionFeature.AllowsNullQueries, CollectionFeature.AllowsNullValues,
    CollectionFeature.RestrictsElements, CollectionFeature.KnownOrder,
    CollectionFeature.NonStandardToString, CollectionFeature.RejectsDuplicatesAtCreation,
    CollectionFeature.SupportsAdd, CollectionFeature.SupportsRemove,
    CollectionFeature.SupportsIteratorRemove, CollectionFeature.FailsFastOnConcurrentModification,
    CollectionFeature.GeneralPurpose, CollectionFeature.RemoveOperations,
    CollectionFeature.Serializable, CollectionFeature.SerializableIncludingViews,
    CollectionFeature.SubsetView, CollectionFeature.DescendingView, CollectionFeature.NoFeatures]

  /** `CollectionSize.values()`. */
  const AllCollectionSizes: seq<CollectionSize> := [Zero, One, Several, Any]

  const SerializableF := Collection(CollectionFeature.Serializable)
  const SerializableIncludingViewsF := Collection(CollectionFeature.SerializableIncludingViews)

  lemma EveryCollectionFeatureListed(c: CollectionFeature)
    ensures c in AllCollectionFeatures
  {
  }

  lemma EveryCollectionSizeListed(s: CollectionSize)
    ensures s in AllCollectionSizes
  {
  }

  /** The map feature that carries over to collection feature `c`, if any. */
  function MapCounterpart(c: CollectionFeature): Option<MapFeature> {
    match c
    case SupportsRemove => Some(MapFeature.SupportsRemove)
    case RejectsDuplicatesAtCreation => Some(MapFeature.RejectsDuplicatesAtCreation)
    case FailsFastOnConcurrentModification => Some(MapFeature.FailsFastOnConcurrentModification)
    case _ => None
  }

  /**
   * Membership in the common derived feature set, stated feature by feature:
   * SERIALIZABLE exactly when the map is SERIALIZABLE_INCLUDING_VIEWS, never
   * SERIALIZABLE_INCLUDING_VIEWS, a collection feature that the map has or that
   * one of its map features carries over, and the map's collection sizes.
   */
  predicate CommonMember(mapFeatures: set<Feature>, f: Feature) {
    match f
    case Collection(c) =>
      if c == CollectionFeature.Serializable then SerializableIncludingViewsF in mapFeatures
      else if c == CollectionFeature.SerializableIncludingViews then false
      else f in mapFeatures || (MapCounterpart(c).Some? && Map(MapCounterpart(c).value) in mapFeatures)
    case Size(_) => f in mapFeatures
    case Map(_) => false
    case OtherFeature(_) => false
  }

  /** The features `computeCommonDerivedCollectionFeatures` adds before its two loops. */
  function CarriedFeatures(mapFeatures: set<Feature>): set<Feature> {
    (if SerializableIncludingViewsF in mapFeatures then {SerializableF} else {})
    + (if Map(MapFeature.SupportsRemove) in mapFeatures
       then {Collection(CollectionFeature.SupportsRemove)} else {})
    + (if Map(MapFeature.RejectsDuplicatesAtCreation) in mapFeatures
       then {Collection(CollectionFeature.RejectsDuplicatesAtCreation)} else {})
    + (if Map(MapFeature.FailsFastOnConcurrentModification) in mapFeatures
       then {Collection(CollectionFeature.FailsFastOnConcurrentModification)} else {})
  }

  /**
   * `computeCommonDerivedCollectionFeatures`: works on a copy of the map's features,
   * drops SERIALIZABLE, turns SERIALIZABLE_INCLUDING_VIEWS into SERIALIZABLE, carries
   * three map features over to their collection counterparts, then adds every
   * collection feature and every collection size the copy still holds.
   */
  method ComputeCommonDerivedCollectionFeatures(mapFeatures: set<Feature>) returns (derived: set<Feature>)
    ensures forall f :: f in derived <==> CommonMember(mapFeatures, f)
  {
    var features := mapFeatures;
    derived := {};
    features := features - {SerializableF};
    if SerializableIncludingViewsF in features {
      features := features - {SerializableIncludingViewsF};
      derived := derived + {SerializableF};
    }
    if Map(MapFeature.SupportsRemove) in features {
      derived := derived + {Collection(CollectionFeature.SupportsRemove)};
    }
    if Map(MapFeature.RejectsDuplicatesAtCreation) in features {
      derived := derived + {Collection(CollectionFeature.RejectsDuplicatesAtCreation)};
    }
    if Map(MapFeature.FailsFastOnConcurrentModification) in features {
      derived := derived + {Collection(CollectionFeature.FailsFastOnConcurrentModification)};
    }
    assert features == mapFeatures - {SerializableF, SerializableIncludingViewsF};
    assert derived == CarriedFeatures(mapFeatures);
    derived := AddCollectionFeatures(features, derived);
    derived := AddCollectionSizes(features, derived);
    forall f ensures f in derived <==> CommonMember(mapFeatures, f) {
      CommonMemberByParts(mapFeatures, f);
    }
  }

  /** A common derived feature is either added before the loops or a collection feature or size the copy still holds. */
  lemma CommonMemberByParts(mapFeatures: set<Feature>, f: Feature)
    ensures CommonMember(mapFeatures, f) <==>
              f in CarriedFeatures(mapFeatures) ||
              ((f.Collection? || f.Size?) && f in mapFeatures - {SerializableF, SerializableIncludingViewsF})
  {
  }

  /** The loop over `CollectionFeature.values()`: adds every collection feature that `features` holds. */
  method AddCollectionFeatures(features: set<Feature>, derived: set<Feature>) returns (result: set<Feature>)
    ensures forall f :: f in result <==> f in derived || (f.Collection? && f in features)
  {
    result := derived;
    var i := 0;
    while i < |AllCollectionFeatures|
      invariant 0 <= i <= |AllCollectionFeatures|
      invariant forall f :: f in result <==>
                  f in derived || (f.Collection? && f in features && f.c in AllCollectionFeatures[..i])
    {
      var feature := AllCollectionFeatures[i];
      if Collection(feature) in features {
        result := result + {Collection(feature)};
      }
      assert AllCollectionFeatures[..i + 1] == AllCollectionFeatures[..i] + [feature];
      i := i + 1;
    }
    assert AllCollectionFeatures[..i] == AllCollectionFeatures;
    forall c: CollectionFeature ensures c in AllCollectionFeatures {
      EveryCollectionFeatureListed(c);
    }
  }

  /** The loop over `CollectionSize.values()`: adds every collection size that `features` holds. */
  method AddCollectionSizes(features: set<Feature>, derived: set<Feature>) returns (result: set<Feature>)
    ensures forall f :: f in result <==> f in derived || (f.Size? && f in features)
  {
    result := derived;
    var j := 0;
    while j < |AllCollectionSizes|
      invariant 0 <= j <= |AllCollectionSizes|
      invariant forall f :: f in result <==>
                  f in derived || (f.Size? && f in features && f.s in AllCollectionSizes[..j])
    {
      var size := AllCollectionSizes[j];
      if Size(size) in features {
        result := result + {Size(size)};
      }
      assert AllCollectionSizes[..j + 1] == AllCollectionSizes[..j] + [size];
      j := j + 1;
    }
    assert AllCollectionSizes[..j] == AllCollectionSizes;
    forall s: CollectionSize ensures s in AllCollectionSizes {
      EveryCollectionSizeListed(s);
    }
  }

  /**
   * What the common derived set promises: SERIALIZABLE exactly for a map that is
   * SERIALIZABLE_INCLUDING_VIEWS, never SERIALIZABLE_INCLUDING_VIEWS, the three map
   * features carried over to their collection namesakes, every other collection
   * feature and every size of the map kept, and nothing that is not a collection
   * feature or a size.
   */
  lemma CommonDerivedRules(mapFeatures: set<Feature>)
    ensures CommonMember(mapFeatures, SerializableF) <==> SerializableIncludingViewsF in mapFeatures
    ensures !CommonMember(mapFeatures, SerializableIncludingViewsF)
    ensures Map(MapFeature.SupportsRemove) in mapFeatures ==>
              CommonMember(mapFeatures, Collection(CollectionFeature.SupportsRemove))
    ensures Map(MapFeature.RejectsDuplicatesAtCreation) in mapFeatures ==>
              CommonMember(mapFeatures, Collection(CollectionFeature.RejectsDuplicatesAtCreation))
    ensures Map(MapFeature.FailsFastOnConcurrentModification) in mapFeatures ==>
              CommonMember(mapFeatures, Collection(CollectionFeature.FailsFastOnConcurrentModification))
    ensures forall f :: (f in mapFeatures && (f.Collection? || f.Size?) &&
                         f != SerializableF && f != SerializableIncludingViewsF) ==> CommonMember(mapFeatures, f)
    ensures forall f :: CommonMember(mapFeatures, f) ==> f.Collection? || f.Size?
  {
  }

  /** `computeReserializedMapFeatures`: the map's features without exactly the two serialization features. */
  method ComputeReserializedMapFeatures(mapFeatures: set<Feature>) returns (derived: set<Feature>)
    ensures forall f :: f in derived <==> f in mapFeatures && f != SerializableF && f != SerializableIncludingViewsF
  {
    derived := mapFeatures;
    derived := derived - {SerializableF};
    derived := derived - {SerializableIncludingViewsF};
  }

  /** `computeEntrySetFeatures`: the common set, plus ALLOWS_NULL_QUERIES for ALLOWS_NULL_ENTRY_QUERIES. */
  method ComputeEntrySetFeatures(mapFeatures: set<Feature>) returns (derived: set<Feature>)
    ensures forall f :: CommonMember(mapFeatures, f) ==> f in derived
    ensures forall f :: f in derived <==>
              CommonMember(mapFeatures, f) ||
              (f == Collection(CollectionFeature.AllowsNullQueries) && Map(MapFeature.AllowsNullEntryQueries) in mapFeatures)
  {
    derived := ComputeCommonDerivedCollectionFeatures(mapFeatures);
    if Map(MapFeature.AllowsNullEntryQueries) in mapFeatures {
      derived := derived + {Collection(CollectionFeature.AllowsNullQueries)};
    }
  }

  /**
   * `computeKeySetFeatures`: the common set plus SUBSET_VIEW; plus ALLOWS_NULL_VALUES
   * when the map allows null keys, and otherwise ALLOWS_NULL_QUERIES when it allows
   * null key queries.
   */
  method ComputeKeySetFeatures(mapFeatures: set<Feature>) returns (derived: set<Feature>)
    ensures forall f :: CommonMember(mapFeatures, f) ==> f in derived
    ensures Collection(CollectionFeature.SubsetView) in derived
    ensures forall f :: f in derived <==>
              CommonMember(mapFeatures, f) ||
              f == Collection(CollectionFeature.SubsetView) ||
              (f == Collection(CollectionFeature.AllowsNullValues) && Map(MapFeature.AllowsNullKeys) in mapFeatures) ||
              (f == Collection(CollectionFeature.AllowsNullQueries) && Map(MapFeature.AllowsNullKeys) !in mapFeatures &&
               Map(MapFeature.AllowsNullKeyQueries) in mapFeatures)
  {
    derived := ComputeCommonDerivedCollectionFeatures(mapFeatures);
    derived := derived + {Collection(CollectionFeature.SubsetView)};
    if Map(MapFeature.AllowsNullKeys) in mapFeatures {
      derived := derived + {Collection(CollectionFeature.AllowsNullValues)};
    } else if Map(MapFeature.AllowsNullKeyQueries) in mapFeatures {
      derived := derived + {Collection(CollectionFeature.AllowsNullQueries)};
    }
  }

  /**
   * `computeValuesCollectionFeatures`: the common set, plus ALLOWS_NULL_QUERIES for
   * ALLOWS_NULL_VALUE_QUERIES and ALLOWS_NULL_VALUES for ALLOWS_NULL_VALUES.
   */
  method ComputeValuesCollectionFeatures(mapFeatures: set<Feature>) returns (derived: set<Feature>)
    ensures forall f :: CommonMember(mapFeatures, f) ==> f in derived
    ensures forall f :: f in derived <==>
              CommonMember(mapFeatures, f) ||
              (f == Collection(CollectionFeature.AllowsNullQueries) && Map(MapFeature.AllowsNullValueQueries) in mapFeatures) ||
              (f == Collection(CollectionFeature.AllowsNullValues) && Map(MapFeature.AllowsNullValues) in mapFeatures)
  {
    derived := ComputeCommonDerivedCollectionFeatures(mapFeatures);
    if Map(MapFeature.AllowsNullValueQueries) in mapFeatures {
      derived := derived + {Collection(CollectionFeature.AllowsNullQueries)};
    }
    if Map(MapFeature.AllowsNullValues) in mapFeatures {
      derived := derived + {Collection(CollectionFeature.AllowsNullValues)};
    }
  }
}
