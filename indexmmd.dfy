/** The pure parts of the class `IndexMMD`: the repair of the netCDF
    `featureType` attribute read by `get_feature_type`, and the pruning
    `solr_updateparent` applies to a parent document fetched back from
    SolR before it is re-submitted with its parent flag set. */
module IndexMMD {
  import opened Documents

  /** The CF discrete-sampling-geometry feature types. */
  const FeatureTypes: seq<string> :=
    ["point", "timeSeries", "trajectory", "profile", "timeSeriesProfile", "trajectoryProfile"]

  /** The misspellings `get_feature_type` repairs. */
  const TimeSeriesTypos: seq<string> := ["TimeSeries", "timeseries", "timseries"]

  /** The tail of `get_feature_type`, after the attribute has been read. */
  function CanonicalFeatureType(featureType: string): string
  {
    if featureType in FeatureTypes then featureType
    else if featureType == "TimeSeries" then "timeSeries"
    else if featureType == "timeseries" then "timeSeries"
    else if featureType == "timseries" then "timeSeries"
    else featureType
  }

  /** The result is a valid feature type exactly when the attribute was one
      or was one of the repaired misspellings; valid names are kept, every
      misspelling becomes `timeSeries`, and any other text is returned as
      it was read. */
  lemma CanonicalFeatureTypeSpec(featureType: string)
    ensures CanonicalFeatureType(featureType) in FeatureTypes <==>
      featureType in FeatureTypes || featureType in TimeSeriesTypos
    ensures featureType in FeatureTypes ==> CanonicalFeatureType(featureType) == featureType
    ensures featureType in TimeSeriesTypos ==> CanonicalFeatureType(featureType) == "timeSeries"
    ensures featureType !in TimeSeriesTypos ==> CanonicalFeatureType(featureType) == featureType
  {
  }

  /** Repairing twice changes nothing more. */
  lemma CanonicalFeatureTypeIdempotent(featureType: string)
    ensures CanonicalFeatureType(CanonicalFeatureType(featureType)) == CanonicalFeatureType(featureType)
  {
  }

  /** Fields SolR fills in itself and refuses on an update. */
  const IndexInternalFields: set<string> :=
    {"full_text", "bbox__maxX", "bbox__maxY", "bbox__minX", "bbox__minY", "bbox_rpt", "ss_access", "_version_"}

  /** The document `solr_updateparent` hands back. */
  function UpdatedParent(parent: Doc): Doc
  {
    (parent - IndexInternalFields)["isParent" := VBool(true)]
  }

  /** `if key in parent: parent.pop(key)`. */
  method PopIfPresent(d: Doc, key: string) returns (r: Doc)
    ensures r == d - {key}
  {
    r := d;
    if key in r {
      r := r - {key};
    }
  }

  /** `solr_updateparent`: pops each index-internal field that is present,
      then sets `isParent` to the boolean True. */
  method SolrUpdateParent(parent: Doc) returns (updated: Doc)
    ensures updated == UpdatedParent(parent)
    ensures updated.Keys == (parent.Keys - IndexInternalFields) + {"isParent"}
    ensures updated["isParent"] == VBool(true)
    ensures forall k :: k in parent && k !in IndexInternalFields && k != "isParent" ==>
      updated[k] == parent[k]
  {
    updated := parent;
    updated := PopIfPresent(updated, "full_text");
    updated := PopIfPresent(updated, "bbox__maxX");
    updated := PopIfPresent(updated, "bbox__maxY");
    updated := PopIfPresent(updated, "bbox__minX");
    updated := PopIfPresent(updated, "bbox__minY");
    updated := PopIfPresent(updated, "bbox_rpt");
    updated := PopIfPresent(updated, "ss_access");
    updated := PopIfPresent(updated, "_version_");
    updated := updated["isParent" := VBool(true)];
  }

  /** Updating a parent a second time gives the same document again. */
  lemma UpdatedParentIdempotent(parent: Doc)
    ensures UpdatedParent(UpdatedParent(parent)) == UpdatedParent(parent)
  {
    var once := UpdatedParent(parent);
    assert "isParent" !in IndexInternalFields;
    assert UpdatedParent(once).Keys == once.Keys;
  }
}
