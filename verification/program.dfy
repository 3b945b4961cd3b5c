/**
 The command-line pipeline (proteinFinder.py:457-501): read the query file,
 then, by website, search NCBI, search NCBI and map its hits to UniProt, map
 identifiers to UniProt, or search UniProt by free text. The parsed arguments
 and the services are parameters; the value returned is the table the run
 finally writes to the output file.
 */
module Program {
  import opened Text
  import opened Base
  import opened QueryFile
  import opened Ncbi
  import opened UniprotSearch
  import opened UniprotMapping
  import opened Merge

  /** The `website` argument. */
  datatype Website = NcbiSite | UniprotSite | NcbiThenUniprot

  /** The `--inputDataType` argument. */
  datatype InputType = TextInput | IdInput

  /** The arguments the pipeline consults. */
  datatype Args = Args(website: Website, noheaders: bool, database: String, columns: String,
                       organism: Option<String>, inputDataType: InputType, idType: String)

  /** Everything outside the program: the esearch request (already decoded to
      its `idlist`), the UniProt search GET, the upload-lists POST, and the
      reading of a TSV body into a table. */
  datatype Services = Services(esearch: (String, String) -> seq<String>,
                               uniprotSearch: String -> Response,
                               uploadLists: MapRequest -> Response,
                               readTsv: String -> Frame)

  /** The table a run leaves in the output file. */
  datatype Output = SearchTable(hits: seq<Hit>) | MergedTable(rows: seq<Joined>)

  /** Identifier formats of the two mapping calls. */
  const NcbiSource: String := "P_GI"
  const MapTarget: String := "ACC"
  const MapFormat: String := "tab"

  /** Key column labels of the two merges. */
  const NcbiIdLabel: String := "ID_NCBI"
  const QueryLabel: String := "query"

  /** `ncbi.query` followed by the rows of `saveNcbiIDs`: the query list must
      not be empty; then each query searched has a row and no row carries
      another query. */
  function NcbiTable(queries: seq<String>, db: String, esearch: (String, String) -> seq<String>)
    : (r: Result<seq<Hit>>)
    ensures r.Failure? <==> |queries| == 0
    ensures r.Failure? ==> r.error == NoQueries
    ensures r.Success? ==> forall q :: q in queries ==> Covers(r.value, q)
    ensures r.Success? ==> forall h :: h in r.value ==> h.query in queries
  {
    match QueryNcbiDb(queries, db, esearch)
    case Failure(e) => Failure(e)
    case Success(responses) =>
      NcbiRowsMatchQueries(responses, queries);
      Success(SaveNcbiIds(GetNcbiIds(responses, queries).value))
  }

  /** The `ID_NCBI` column as a list. */
  function HitIds(hits: seq<Hit>): (ids: seq<String>)
    ensures |ids| == |hits|
    ensures forall i :: 0 <= i < |hits| ==> ids[i] == hits[i].id
  {
    seq(|hits|, i requires 0 <= i < |hits| => hits[i].id)
  }

  /** The NCBI table as the left side of a merge keyed by `ID_NCBI`. */
  function NcbiKeyed(hits: seq<Hit>): (rows: seq<KeyedRow>)
    ensures |rows| == |hits|
    ensures forall i :: 0 <= i < |hits| ==> rows[i] == KeyedRow(hits[i].id, [hits[i].query])
  {
    seq(|hits|, i requires 0 <= i < |hits| => KeyedRow(hits[i].id, [hits[i].query]))
  }

  /** `pd.DataFrame({'query': queryLst})` as the left side of a merge keyed by
      `query`. */
  function QueryKeyed(queries: seq<String>): (rows: seq<KeyedRow>)
    ensures |rows| == |queries|
    ensures forall i :: 0 <= i < |queries| ==> rows[i] == KeyedRow(queries[i], [])
  {
    seq(|queries|, i requires 0 <= i < |queries| => KeyedRow(queries[i], []))
  }

  /** Every query of the list keeps its own row through a merge on `query`. */
  lemma QueryKeyedKept(queries: seq<String>, merged: seq<Joined>)
    requires forall i :: 0 <= i < |queries| ==> QueryRowKept(merged, QueryKeyed(queries)[i])
    ensures forall q :: q in queries ==> QueryRowKept(merged, KeyedRow(q, []))
  {
    forall q | q in queries ensures QueryRowKept(merged, KeyedRow(q, [])) {
      var i :| 0 <= i < |queries| && queries[i] == q;
      assert QueryKeyed(queries)[i] == KeyedRow(q, []);
    }
  }

  /** Every query with an NCBI row keeps a row next to one of its own NCBI ids
      through a merge on `ID_NCBI`. */
  lemma NcbiKeyedKept(queries: seq<String>, hits: seq<Hit>, merged: seq<Joined>)
    requires forall q :: q in queries ==> Covers(hits, q)
    requires forall i :: 0 <= i < |hits| ==> QueryRowKept(merged, NcbiKeyed(hits)[i])
    ensures forall q :: q in queries ==> exists id :: Hit(q, id) in hits && QueryRowKept(merged, KeyedRow(id, [q]))
  {
    forall q | q in queries ensures exists id :: Hit(q, id) in hits && QueryRowKept(merged, KeyedRow(id, [q])) {
      var h :| h in hits && h.query == q;
      var i :| 0 <= i < |hits| && hits[i] == h;
      assert NcbiKeyed(hits)[i] == KeyedRow(h.id, [q]);
      assert h == Hit(q, h.id);
      assert QueryRowKept(merged, KeyedRow(h.id, [q]));
    }
  }

  /** Identifier input: `--idType` must be given; the queries are mapped from
      it to UniProt accessions and the answer merged back on `query`, keeping
      every query. */
  function UniprotIdRun(args: Args, queries: seq<String>, s: Services): (r: Result<Output>)
    ensures args.idType == [] ==> r == Failure(MissingIdType)
    ensures r.Success? ==> r.value.MergedTable?
    ensures r.Success? ==> forall q :: q in queries ==> QueryRowKept(r.value.rows, KeyedRow(q, []))
  {
    if args.idType == [] then Failure(MissingIdType)
    else
      match MapRetrieve(IdList(queries), args.idType, MapTarget, MapFormat, args.columns, s.uploadLists)
      case Failure(e) => Failure(e)
      case Success(body) =>
        match ProcessUniprotRes(s.readTsv(body), QueryKeyed(queries), QueryLabel)
        case Failure(e) => Failure(e)
        case Success(merged) =>
          QueryKeyedKept(queries, merged);
          Success(MergedTable(merged))
  }

  /** Text input: `queryTerms`, which succeeds exactly when the list is
      non-empty and every search request succeeds, with a row for every query. */
  function UniprotTextRun(args: Args, queries: seq<String>, s: Services): (r: Result<Output>)
    ensures r.Success? <==>
      |queries| > 0 && forall i :: 0 <= i < |queries| ==> s.uniprotSearch(SearchTerm(queries[i], args.organism)).ok
    ensures r.Success? ==> r.value.SearchTable?
    ensures r.Success? ==> forall q :: q in queries ==> Covers(r.value.hits, q)
  {
    match QueryTerms(queries, args.organism, s.uniprotSearch)
    case Failure(e) => Failure(e)
    case Success(hits) => Success(SearchTable(hits))
  }

  /** The `website == 'ncbi+uniprot'` branch: every NCBI hit id is mapped from
      `P_GI` to UniProt and the answer merged back on `ID_NCBI`; every query
      keeps a row next to one of its own NCBI ids. */
  function NcbiUniprotRun(args: Args, queries: seq<String>, s: Services): (r: Result<Output>)
    ensures |queries| == 0 ==> r == Failure(NoQueries)
    ensures r.Success? ==> r.value.MergedTable? && NcbiTable(queries, args.database, s.esearch).Success?
    ensures r.Success? ==> forall q :: q in queries ==>
      exists id :: Hit(q, id) in NcbiTable(queries, args.database, s.esearch).value
                   && QueryRowKept(r.value.rows, KeyedRow(id, [q]))
  {
    match NcbiTable(queries, args.database, s.esearch)
    case Failure(e) => Failure(e)
    case Success(hits) =>
      match MapRetrieve(IdList(HitIds(hits)), NcbiSource, MapTarget, MapFormat, args.columns, s.uploadLists)
      case Failure(e) => Failure(e)
      case Success(body) =>
        match ProcessUniprotRes(s.readTsv(body), NcbiKeyed(hits), NcbiIdLabel)
        case Failure(e) => Failure(e)
        case Success(merged) =>
          NcbiKeyedKept(queries, hits, merged);
          Success(MergedTable(merged))
  }

  /** A table row stands for query `q`: a search row carrying `q`, a merged
      row keyed by `q` (identifier input), or a merged row whose query cell is
      `q` (NCBI-then-UniProt). */
  ghost predicate HasRowFor(out: Output, q: String) {
    match out
    case SearchTable(hits) => Covers(hits, q)
    case MergedTable(rows) => QueryRowKept(rows, KeyedRow(q, [])) || exists id :: QueryRowKept(rows, KeyedRow(id, [q]))
  }

  /** The main block on an already-parsed query file: the file is read first,
      and a file that cannot be read stops the run before any service is asked;
      then the run is chosen by website and input type, and a run that
      succeeds has a row for every query read. */
  function Run(args: Args, csv: seq<CsvRow>, s: Services): (r: Result<Output>)
    ensures ReadQueryFile(csv, args.noheaders).Failure? ==> r == Failure(ReadQueryFile(csv, args.noheaders).error)
    ensures r.Success? ==> ReadQueryFile(csv, args.noheaders).Success?
    ensures ReadQueryFile(csv, args.noheaders).Success? ==>
      var queries := ReadQueryFile(csv, args.noheaders).value.queries;
      && |queries| > 0
      && (args.website == NcbiSite ==>
            (r.Success? <==> NcbiTable(queries, args.database, s.esearch).Success?)
            && (r.Success? ==> r.value == SearchTable(NcbiTable(queries, args.database, s.esearch).value)))
      && (args.website == NcbiThenUniprot ==> r == NcbiUniprotRun(args, queries, s))
      && (args.website == UniprotSite && args.inputDataType == IdInput ==> r == UniprotIdRun(args, queries, s))
      && (args.website == UniprotSite && args.inputDataType == TextInput ==> r == UniprotTextRun(args, queries, s))
    ensures r.Success? ==> forall q :: q in ReadQueryFile(csv, args.noheaders).value.queries ==> HasRowFor(r.value, q)
  {
    match ReadQueryFile(csv, args.noheaders)
    case Failure(e) => Failure(e)
    case Success(input) =>
      match args.website
      case NcbiSite =>
        (match NcbiTable(input.queries, args.database, s.esearch)
         case Failure(e) => Failure(e)
         case Success(hits) =>
           SearchTableRows(hits, input.queries);
           Success(SearchTable(hits)))
      case NcbiThenUniprot =>
        var r := NcbiUniprotRun(args, input.queries, s);
        if r.Success? then
          MergedByQueryCell(r.value.rows, input.queries, NcbiTable(input.queries, args.database, s.esearch).value);
          r
        else r
      case UniprotSite =>
        if args.inputDataType == IdInput then
          var r := UniprotIdRun(args, input.queries, s);
          if r.Success? then
            MergedByKey(r.value.rows, input.queries);
            r
          else r
        else
          var r := UniprotTextRun(args, input.queries, s);
          if r.Success? then
            SearchTableRows(r.value.hits, input.queries);
            r
          else r
  }

  lemma SearchTableRows(hits: seq<Hit>, queries: seq<String>)
    requires forall q :: q in queries ==> Covers(hits, q)
    ensures forall q :: q in queries ==> HasRowFor(SearchTable(hits), q)
  {
  }

  lemma MergedByKey(rows: seq<Joined>, queries: seq<String>)
    requires forall q :: q in queries ==> QueryRowKept(rows, KeyedRow(q, []))
    ensures forall q :: q in queries ==> HasRowFor(MergedTable(rows), q)
  {
  }

  lemma MergedByQueryCell(rows: seq<Joined>, queries: seq<String>, hits: seq<Hit>)
    requires forall q :: q in queries ==> exists id :: Hit(q, id) in hits && QueryRowKept(rows, KeyedRow(id, [q]))
    ensures forall q :: q in queries ==> HasRowFor(MergedTable(rows), q)
  {
    forall q | q in queries ensures HasRowFor(MergedTable(rows), q) {
      var id :| Hit(q, id) in hits && QueryRowKept(rows, KeyedRow(id, [q]));
      assert QueryRowKept(rows, KeyedRow(id, [q]));
    }
  }

  /** A query file that cannot be read fails the same way whatever the
      services would answer. */
  lemma ReadFailureIgnoresServices(args: Args, csv: seq<CsvRow>, s1: Services, s2: Services)
    requires ReadQueryFile(csv, args.noheaders).Failure?
    ensures Run(args, csv, s1) == Run(args, csv, s2)
    ensures Run(args, csv, s1).error == RowWithoutCells || Run(args, csv, s1).error == NoDataLoaded
  {
  }

  /** The NCBI mode always succeeds on a readable file, and every query read
      has at least one row in its table. */
  lemma NcbiRunCoversQueries(args: Args, csv: seq<CsvRow>, s: Services)
    requires ReadQueryFile(csv, args.noheaders).Success?
    requires args.website == NcbiSite
    ensures Run(args, csv, s).Success? && Run(args, csv, s).value.SearchTable?
    ensures forall q :: q in ReadQueryFile(csv, args.noheaders).value.queries ==>
      Covers(Run(args, csv, s).value.hits, q)
  {
  }
}
