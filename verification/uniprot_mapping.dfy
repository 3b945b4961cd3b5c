/**
 UniProt ID mapping (proteinFinder.py:328-384): one POST to the upload-lists
 service carrying the identifiers as one space-separated string.
 */
module UniprotMapping {
  import opened Text
  import opened Base

  /** `ids2map` is either a list (it has `pop`) or already a string. */
  datatype IdsToMap = IdList(ids: seq<String>) | IdText(text: String)

  /** The form fields of the POST request. */
  datatype MapRequest = MapRequest(query: String, source: String, target: String, format: String, columns: String)

  /** The `query` field: a list is space-joined, a string is sent as it is. */
  function MappingQuery(ids: IdsToMap): String {
    match ids
    case IdList(l) => Join(l, ' ')
    case IdText(t) => t
  }

  /** The space-joined field splits back into the identifiers, as long as the
      list is non-empty and no identifier holds a space. */
  lemma MappingQueryRoundTrip(ids: seq<String>)
    requires |ids| > 0
    requires forall i :: 0 <= i < |ids| ==> ' ' !in ids[i]
    ensures Split(MappingQuery(IdList(ids)), ' ') == ids
  {
    SplitJoin(ids, ' ');
  }

  /** The NCBI placeholder id holds a space, so once space-joined it reads
      back as two identifiers. */
  lemma PlaceholderSplitsInQuery()
    ensures Split(MappingQuery(IdList(["Not Found"])), ' ') == ["Not", "Found"]
  {
    assert MappingQuery(IdList(["Not Found"])) == "Not Found";
    assert Join(["Not", "Found"], ' ') == "Not Found";
    SplitJoin(["Not", "Found"], ' ');
  }

  function MapRequestFor(ids: IdsToMap, source: String, target: String, format: String, columns: String)
    : MapRequest
  {
    MapRequest(MappingQuery(ids), source, target, format, columns)
  }

  /** `mapRetrieveUniprot`: an ok response with a non-blank body yields the
      body unchanged (not stripped); an ok response with a blank body raises
      "no matching results"; a response that is not ok raises its HTTP error. */
  function MapRetrieve(ids: IdsToMap, source: String, target: String, format: String, columns: String,
                       post: MapRequest -> Response): (r: Result<String>)
    ensures var resp := post(MapRequestFor(ids, source, target, format, columns));
      && (r.Success? <==> resp.ok && !IsBlank(resp.text))
      && (r.Success? ==> r.value == resp.text && Strip(r.value) != [])
      && (r.Failure? ==> r.error == if resp.ok then NoMatchingResults else HttpError)
  {
    var resp := post(MapRequestFor(ids, source, target, format, columns));
    if resp.ok then
      if Strip(resp.text) != [] then Success(resp.text) else Failure(NoMatchingResults)
    else
      Failure(HttpError)
  }
}
