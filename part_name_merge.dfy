/**
 * `EnsemblePartNameMergeSerializer.validate`: two part names may be merged
 * only if both exist, belong to the same ensemble, that ensemble is the
 * one in the request's context, and they are not the same part name. The
 * part-name table is a map from id to ensemble id.
 */
module PartNameMerge {
  import opened Wrappers

  datatype PartName = PartName(id: int, ensembleId: int)

  datatype MergeError =
    | InvalidPartId   // the serializer's `invalid_part_id` failure
    | SelfMerge       // the ValidationError for merging a part name with itself

  function Message(e: MergeError): string {
    match e
    case InvalidPartId => "One or both of these part ids is incorrect."
    case SelfMerge => "Cannot merge a PartName with itself."
  }

  /** The checks of `validate`, in order, on the looked-up part names. */
  function Check(firstId: int, secondId: int, ensembleId: int, parts: map<int, int>)
    : (r: Result<(PartName, PartName), MergeError>)
    ensures r == Err(InvalidPartId) <==>
      firstId !in parts || secondId !in parts ||
      parts[firstId] != parts[secondId] || parts[firstId] != ensembleId
    ensures r == Err(SelfMerge) <==>
      firstId in parts && secondId in parts && parts[firstId] == parts[secondId] == ensembleId && firstId == secondId
    ensures r.Ok? <==>
      firstId in parts && secondId in parts && parts[firstId] == parts[secondId] == ensembleId && firstId != secondId
    ensures r.Ok? ==> r.value == (PartName(firstId, ensembleId), PartName(secondId, ensembleId))
  {
    if firstId !in parts || secondId !in parts then Err(InvalidPartId)
    else
      var first, second := PartName(firstId, parts[firstId]), PartName(secondId, parts[secondId]);
      if first.ensembleId != second.ensembleId then Err(InvalidPartId)
      else if ensembleId != first.ensembleId then Err(InvalidPartId)
      else if first.id == second.id then Err(SelfMerge)
      else Ok((first, second))
  }

  /** The values of the serializer's validated data. */
  datatype Value = IntValue(n: int) | StringValue(s: string) | PartValue(part: PartName)

  /** The fields `validate` reads; the field declarations make both required integers. */
  predicate HasIds(attrs: map<string, Value>) {
    "first_id" in attrs && attrs["first_id"].IntValue? &&
    "second_id" in attrs && attrs["second_id"].IntValue?
  }

  class MergeSerializer {
    var attrs: map<string, Value>

    constructor (attrs: map<string, Value>)
      ensures this.attrs == attrs
    {
      this.attrs := attrs;
    }

    /**
     * `validate(attrs)`: on success `attrs` gains the two part names and
     * keeps every other entry; on failure it is left as it was.
     */
    method Validate(ensembleId: int, parts: map<int, int>) returns (r: Result<(), MergeError>)
      requires HasIds(attrs)
      modifies this
      ensures var checked := Check(old(attrs)["first_id"].n, old(attrs)["second_id"].n, ensembleId, parts);
        (r.Err? <==> checked.Err?) && (r.Err? ==> r.error == checked.error) &&
        (r.Ok? ==> attrs == old(attrs)["first_part" := PartValue(checked.value.0)]
                                      ["second_part" := PartValue(checked.value.1)]) &&
        (r.Err? ==> attrs == old(attrs))
    {
      var firstId := attrs["first_id"].n;
      var secondId := attrs["second_id"].n;
      var checked := Check(firstId, secondId, ensembleId, parts);
      if checked.Err? {
        return Err(checked.error);
      }
      attrs := attrs["first_part" := PartValue(checked.value.0)];
      attrs := attrs["second_part" := PartValue(checked.value.1)];
      r := Ok(());
    }
  }
}
