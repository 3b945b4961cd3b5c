# proteinFinder in Dafny

proteinFinder is a command-line tool. It reads query terms from a CSV file and
looks them up in one of three ways:

- in NCBI's Entrez esearch;
- in NCBI and then in UniProt, mapping the NCBI hits;
- in UniProt directly, by identifier mapping or free-text search.

It writes one result table. This project models the table logic under the HTTP
and pandas plumbing, as pure functions over immutable datatypes, and proves
properties about them. The model covers:

- reading the query rows;
- normalising NCBI id lists into an insertion-ordered dict and flattening it
  into (query, id) rows;
- classifying UniProt search responses and splitting them into one row per
  line;
- building the UniProt mapping request and classifying its answer;
- renaming the answer's key column, exploding comma-separated keys, and
  outer-joining the answer with the query table;
- the main block that chains these per website and input type.

Everything outside the program is a parameter of the model (`Program.Services`):

- the esearch request, already decoded to its `idlist`;
- the UniProt search GET and the upload-lists POST, each seen as a
  `Response(ok, text)`;
- the reading of a TSV body into a table.

Python exceptions become `Base.Result` failures, one `Base.Error` constructor
per kind of failure. `HttpError` stands for both `raise_for_status` calls
(proteinFinder.py:274 and 384), and `NoQueries` for both empty-list assertions
(proteinFinder.py:139 and 309).

Modules, one per file:

| module | file | models |
|---|---|---|
| `Text` | text.dfy | `str.strip` (with Python's `isspace` set), `str.split(sep)`, `sep.join` |
| `Base` | base.dfy | errors, `Result`, `Option`, responses, (query, id) rows |
| `QueryFile` | query_file.dfy | `readQueryFile` |
| `OrderedDict` | ordered_dict.dfy | `dict` as an insertion-ordered list of entries, `zip`, `dict(pairs)` |
| `Ncbi` | ncbi.dfy | `queryNcbiDb`, `getNcbiIdFromResponse`, `saveNcbiIDs` |
| `UniprotSearch` | uniprot_search.dfy | `queryUniprotID`, `queryTerms` |
| `UniprotMapping` | uniprot_mapping.dfy | `mapRetrieveUniprot` |
| `Merge` | merge.dfy | `processUniprotRes`, `matchQueryWithResponse` |
| `Program` | program.dfy | the `__main__` block |

The pandas outer merge is specified by how many times each output row occurs
(`Merge.JoinCount`):

- once per matching (query row, response row) pair;
- an unmatched query row as often as it occurs, with no annotation;
- an unmatched response row as often as it occurs, with no query.

Row order is not part of that specification.

Behaviours of the code that the model keeps:

- A UniProt search with a blank body is recorded under the id `Not found`
  (proteinFinder.py:270-272).
- An NCBI response that is not ok is only printed (proteinFinder.py:156-157).
  Its body then goes to the same `esearchresult`/`idlist` lookup
  (proteinFinder.py:186-187). The model assumes that lookup succeeds; where it
  would raise `KeyError` is listed under "Left out".
- A mapping answer that has a header but no data rows makes
  `matchQueryWithResponse` raise: `.apply(pd.Series, 1)` on an empty column
  gives a Series, and a Series has no `stack` (proteinFinder.py:413-414). The
  model fails with `NoResponseRows` there.

## Model

| member | source | states |
|---|---|---|
| Text.Strip | proteinFinder.py:269-270 | the stripped text is the input minus whitespace margins: a contiguous slice whose cut-off ends are all whitespace; it is empty exactly when the input is blank, and otherwise starts and ends with non-whitespace |
| Text.Split | proteinFinder.py:319 | `split("\n")` yields one piece more than there are separators, and no piece holds the separator |
| Text.JoinSplit | proteinFinder.py:319 | re-joining the pieces of a split with the separator gives back the original text |
| Text.SplitJoin | proteinFinder.py:367-368 | splitting a non-empty, separator-free list joined with the separator gives back the list |
| QueryFile.DataRows | proteinFinder.py:70-73 | with `noheaders` False the first row is dropped (if there is one); otherwise all rows are data |
| QueryFile.FirstCells | proteinFinder.py:76-77 | the query list is column 0 of every data row, in order |
| QueryFile.SecondCells | proteinFinder.py:78-81 | the organism list holds exactly the column-1 cells of the rows that have one, and is never longer than the rows |
| QueryFile.SecondCellsAppend | proteinFinder.py:76-81 | the organism list keeps row order: the hints of two blocks of rows are the first block's followed by the second's |
| QueryFile.SecondCellsOfRow | proteinFinder.py:78-81 | a single row contributes its second cell if it has one, and nothing otherwise |
| QueryFile.SecondCellsAligned | proteinFinder.py:76-81 | the organism list has one entry per row exactly when every row has a second cell, and then entry i is row i's second cell |
| QueryFile.ReadQueryFile | proteinFinder.py:50-87 | fails with the IndexError case exactly when a data row has no cells, fails with "No data loaded" exactly when all queries are empty, and otherwise returns column 0 as queries (some non-empty) and the column-1 cells as organisms |
| QueryFile.ReadQueryFileNonEmpty | proteinFinder.py:84-87 | a successful read never returns an empty query list |
| QueryFile.HeaderSkippedExample | proteinFinder.py:70-81 | a header row is skipped and the remaining rows give queries and organisms |
| QueryFile.OrganismsNotAlignedExample | proteinFinder.py:76-81 | a row without an organism cell shifts the organism list, so it is not index-aligned with the queries |
| OrderedDict.Get | proteinFinder.py:192 | a lookup finds a value exactly when the key is present, and that value belongs to an entry for the key |
| OrderedDict.Set | proteinFinder.py:192 | storing a key updates an existing entry in place or appends a new one; it keeps keys distinct, makes the key map to the new value, leaves every other key's value alone, and adds no other entry |
| OrderedDict.Zip | proteinFinder.py:192 | `zip` pairs elements position by position, up to the shorter list |
| OrderedDict.FromPairs | proteinFinder.py:192 | `dict(pairs)` has distinct keys, exactly the keys of the pairs, and only entries taken from the pairs |
| OrderedDict.FromPairsLastWins | proteinFinder.py:192 | in `dict(pairs)` a repeated key holds the value of its last pair |
| OrderedDict.FromPairsFirstSeenOrder | proteinFinder.py:192 | the keys of `dict(pairs)` stand in the order of their first occurrence among the pairs |
| OrderedDict.FromPairsOfDistinct | proteinFinder.py:192 | pairs with distinct keys become the dict unchanged |
| Ncbi.QueryNcbiDb | proteinFinder.py:138-165 | an empty query list fails the assertion; otherwise one esearch per query, in query order |
| Ncbi.IdsOrPlaceholder | proteinFinder.py:186-191 | an empty `idlist` becomes exactly `['Not Found']`, any other passes through unchanged, so no list is empty |
| Ncbi.GetNcbiIds | proteinFinder.py:183-193 | fails exactly when the response and query counts differ; otherwise one entry per distinct query, none with an empty list |
| Ncbi.NcbiLastOccurrenceWins | proteinFinder.py:192 | a repeated query keeps the id list of its last response |
| Ncbi.NcbiFirstSeenOrder | proteinFinder.py:192 | the dict's queries stand in the order in which they were first asked |
| Ncbi.NcbiDistinctQueries | proteinFinder.py:183-192 | with distinct queries, entry i is query i with the ids of response i |
| Ncbi.IdLists | proteinFinder.py:185-191 | one id list per decoded response, in response order, each the response's `idlist` or the `Not Found` placeholder when it is empty |
| Ncbi.SaveNcbiIds | proteinFinder.py:235-238 | the table has as many rows as there are ids in all lists together; its order and membership are stated by `SaveNcbiIdsAppend`, `SaveNcbiIdsMembers` and `SaveNcbiIdsRowsOfKey` |
| Ncbi.SaveNcbiIdsAppend | proteinFinder.py:236-238 | flattening follows dict order: the rows of a dict split in two are the rows of the first part followed by those of the second |
| Ncbi.SaveNcbiIdsMembers | proteinFinder.py:236-238 | a row (q, v) is produced exactly when some entry for q lists v |
| Ncbi.SaveNcbiIdsRowsOfKey | proteinFinder.py:236-238 | the rows of one query are that query's id list, in list order |
| Ncbi.NotFoundQueryOneRow | proteinFinder.py:183-238 | a query whose last response had an empty `idlist` has exactly one row, with id `Not Found` |
| Ncbi.EveryQueryHasRow | proteinFinder.py:183-238 | every query asked has at least one row in the table |
| Ncbi.NcbiRowsMatchQueries | proteinFinder.py:183-238 | every query asked has a row, and every row belongs to a query asked |
| UniprotSearch.SearchTerm | proteinFinder.py:263-265 | the search term is the query, then `+AND+organism:`, then the organism, or `None` when no organism was given |
| UniprotSearch.ClassifySearch | proteinFinder.py:268-276 | a response that is not ok raises; an ok blank body gives `Not found`; any other ok body gives its stripped text; a result is never empty and never has whitespace at its ends |
| UniprotSearch.QueryUniprotId | proteinFinder.py:246-276 | one query raises an HTTP error exactly when the response to its search term is not ok; the result string is stated by `ClassifySearch` and `BlankSearchOneRow` |
| UniprotSearch.SearchAll | proteinFinder.py:313-317 | the request loop either raises an HTTP error or yields one result string per query |
| UniprotSearch.SearchAllFails | proteinFinder.py:313-317 | the request loop fails exactly when one of its requests is refused |
| UniprotSearch.SearchAllResults | proteinFinder.py:313-317 | on success, result i is what `queryUniprotID` returns for query i |
| UniprotSearch.Melt | proteinFinder.py:318-323 | the table has one row per query plus one per newline in the results; its rows are stated by `MeltQueries`, `MeltCovers`, `MeltRowsOfQuery` and `OneLineOneRow` |
| UniprotSearch.MeltQueries | proteinFinder.py:318-323 | every row carries one of the queries asked |
| UniprotSearch.MeltCovers | proteinFinder.py:318-323 | every query asked has at least one row, since a split never yields no piece |
| UniprotSearch.MeltRowsOfQuery | proteinFinder.py:318-323 | the rows of a query asked once are the lines of its result, in order |
| UniprotSearch.OneLineOneRow | proteinFinder.py:318-323 | a query asked once whose result has no newline has exactly one row, holding that result |
| UniprotSearch.QueryTerms | proteinFinder.py:278-326 | fails on an empty query list or when any request is refused; otherwise each query has at least one row and every row carries a query asked |
| UniprotSearch.BlankSearchOneRow | proteinFinder.py:268-323 | when every request succeeds, `queryTerms` succeeds, and a query asked once whose search body is blank has exactly one row, with id `Not found` |
| UniprotMapping.MappingQuery | proteinFinder.py:367-368 | the `query` field; its contract is carried by `MappingQueryRoundTrip` (a space-joined list splits back into the ids) and `PlaceholderSplitsInQuery` |
| UniprotMapping.MappingQueryRoundTrip | proteinFinder.py:367-368 | a non-empty list of space-free ids, once space-joined, splits back into the same list |
| UniprotMapping.PlaceholderSplitsInQuery | proteinFinder.py:367-368 | the NCBI placeholder `Not Found` splits into two identifiers once space-joined |
| UniprotMapping.MapRetrieve | proteinFinder.py:366-384 | succeeds exactly when the response is ok and its body is not blank, and then returns the body unchanged; a blank ok body fails with "no matching results" and a response that is not ok fails with its HTTP error |
| Merge.RenameLastColumn | proteinFinder.py:447-448 | fails exactly when the table has no columns; otherwise the last column becomes the key under the new label, and every row keeps its other cells in order |
| Merge.ExplodeRow | proteinFinder.py:413-418 | a key cell with k commas becomes k+1 rows that share the row's other cells, and no new key holds a comma |
| Merge.ExplodeRowRoundTrip | proteinFinder.py:413 | the exploded keys joined with commas give back the original key cell |
| Merge.Explode | proteinFinder.py:413-418 | exploding yields one row per comma-separated value, never fewer rows than before; which rows is stated by `ExplodeMembers` |
| Merge.ExplodeMembers | proteinFinder.py:413-418 | an exploded row exists exactly when some input row has that key among its comma-separated values and the same other cells |
| Merge.OuterJoin | proteinFinder.py:419 | the outer merge; its contract is carried by `OuterJoinCounts` (the row multiset), `OuterJoinKeepsLeft` and `OuterJoinKeepsRight` |
| Merge.OuterJoinCounts | proteinFinder.py:419 | each row occurs in the outer merge as often as the matching (left, right) pairs, unmatched left rows and unmatched right rows require |
| Merge.OuterJoinKeepsLeft | proteinFinder.py:419 | every query row appears in the merge under its key |
| Merge.OuterJoinKeepsRight | proteinFinder.py:419 | every response row appears in the merge under its key |
| Merge.MatchQueryWithResponse | proteinFinder.py:394-420 | fails exactly when the response has no rows, where `stack` is called on a Series; otherwise the merge of the query table with the exploded response has the outer-join row counts and keeps every query row and every exploded response row |
| Merge.ProcessUniprotRes | proteinFinder.py:422-454 | fails exactly when the response table has no columns (`NoColumns`) or no rows (`NoResponseRows`); otherwise has the outer-join row counts against the renamed, exploded response and keeps every query row |
| Program.NcbiTable | proteinFinder.py:466-470 | the NCBI search fails only on an empty query list; otherwise every query has a row and every row carries a query |
| Program.UniprotIdRun | proteinFinder.py:487-496 | an empty `idType` is refused before any request; a successful mapping keeps a merged row for every query |
| Program.UniprotTextRun | proteinFinder.py:497-501 | a text search succeeds exactly when the list is non-empty and every request succeeds, and then every query has a row |
| Program.NcbiUniprotRun | proteinFinder.py:472-482 | a successful NCBI-then-UniProt run keeps, for every query, a merged row that pairs the query with an id of one of its own rows in the NCBI table |
| Program.Run | proteinFinder.py:460-501 | a query file that cannot be read stops the run with the read's error; otherwise the run is the one chosen by `website` and `inputDataType` on a non-empty query list, and a run that succeeds has a row for every query read |
| Program.ReadFailureIgnoresServices | proteinFinder.py:463-464 | an unreadable query file fails with a read error whatever the services would answer |
| Program.NcbiRunCoversQueries | proteinFinder.py:466-470 | given that every esearch body carries `esearchresult.idlist` (see "Left out"), the NCBI mode succeeds on a readable file, and every query read has a row |

## Left out

- HTTP is left out: `requests.get`/`post`, URLs, API keys, `raise_for_status` and the distinct exceptions it raises. Every refused request is the one error `HttpError`, and a response is only `(ok, text)`.
- `time.sleep` rate limiting and all `print` feedback are left out; they are timing and console output only.
- `initArguments` and `argparse` are not modelled. `Program.Args` holds the parsed values, and their defaults are not modelled.
- File opening, the `csv` reader, `json.loads` and `pd.read_csv` are left out. The model starts from parsed CSV rows, decoded `idlist`s and a rectangular table (`Merge.Frame`). A body that is not valid JSON or TSV is not modelled, nor is a JSON body that lacks `esearchresult.idlist`.
- `to_csv` writes are left out. `Program.Run` returns the table the run finally leaves in the output file. In NCBI-then-UniProt mode the NCBI table is written there first and then overwritten; that first write is not modelled.
- `getUniprotEntrysWithNCBIIds` is left out because the main block never calls it.
- The organism list is modelled as read (`QueryFile.ReadQueryFile`), but no search uses it. The main block passes `--organism` to the text search instead.
- The `astype(str)` coercion of the key column is left out. With it, a missing value would become `nan`.
- Column naming in the merge is left out: the names pandas gives clashing non-key columns, and a response column that already carries the key label. Cells are kept as plain sequences.
- Merge.MatchQueryWithResponse: states the merged rows as a multiset, not in the key-sorted order pandas gives them.
- Merge.ProcessUniprotRes: same as above, the row order of the merge is not stated.
- UniprotSearch.QueryTerms: a failure is the same `HttpError` whichever request was refused. The model does not state that the requests after the first refused one are never sent.
- Ncbi.QueryNcbiDb: every esearch body is assumed to carry `esearchresult.idlist`, and the result is that decoded list. A body without it (an error page, say) raises `KeyError` at proteinFinder.py:187; that failure is not modelled. A response that is not ok is not otherwise distinguished, matching the code, which only prints its status.
- UniprotMapping.MapRetrieve: the POST's `from`/`to`/`format`/`columns` fields are passed through unchanged. Only the `query` field is stated.
