# ArchViz diagram store, service and JSON index — a Dafny model

This project models the core of ArchViz, a small web service that stores
architecture diagrams (node/connection graphs with metadata) and lists them
together with a catalogue of diagrams bundled as JSON files:

- **the diagram store** (`DiagramRepository`: `save`, `findById`, `findAll`,
  `deleteById`) as the in-memory variant implements it: a class holding a
  `map<string, Diagram>` keyed by diagram id, with `findAll` a filter by an
  exact tag and a case-insensitive title substring, combined by AND;
- **the diagram service** (`listAll`, `getById`, `create`, `update`) as a class
  over the store and a given static catalogue: listing is the store's answer
  followed by the catalogue diagrams passing the same predicate, lookup tries
  the store first, `create` stamps version 1 and source `"db"`, `update` never
  creates and raises the version by exactly one;
- **the `/json/` index** of `ArchViz.listJsonFiles`: two resource patterns are
  walked in order, each filename is kept at its first occurrence, nameless
  resources and failed patterns are skipped, and an HTML list of links is built;
- **the HTML access-log filter** of `ArchViz`: the chain always runs first;
  only `.html` requests are logged, attributed to `X-Forwarded-For` unless it is
  absent or blank, else to the remote address.

The test classes of the store and the service are modelled too, as client
methods (`RepositoryTests`, `ServiceTests`) that drive the classes and state
each test's assertions as postconditions.

Files: `options.dfy` (Option), `text.dfy` (ASCII lower-casing, substring
search, `isBlank`), `domain.dfy` (Diagram, DiagramSummary, the filter
predicate), `repository.dfy`, `catalogue.dfy`, `service.dfy`,
`json_index.dfy`, `access_log.dfy`, `repository_tests.dfy`,
`service_tests.dfy`.

The clock and the id generator are parameters (`now`, `newId`). A resource
pattern's outcome is an input (`Resolution`: the filenames found, or a
failure). The flow document is an opaque `Json` value.

## Model

| member | source | states |
|---|---|---|
| Text.ContainsIffOccurs | src/test/java/io/github/drompincen/archviz/repository/InMemoryDiagramRepositoryTest.java:56-64 | the left-to-right search used by the query filter succeeds exactly when the query occurs at some position of the title (both directions) |
| Text.ContainsIgnoreCaseIsCaseBlind | src/test/java/io/github/drompincen/archviz/repository/InMemoryDiagramRepositoryTest.java:66-72 | case-insensitive matching gives the same answer when either the title or the query is lower-cased first |
| Domain.QueryMatchesTitleOnly | src/test/java/io/github/drompincen/archviz/repository/InMemoryDiagramRepositoryTest.java:56-72 | the query filter depends only on the title up to letter case, and not on the query's case |
| Repository.InMemoryDiagramRepository.constructor | src/test/java/io/github/drompincen/archviz/repository/InMemoryDiagramRepositoryTest.java:17-20 | a new store is empty and every record is filed under its own id |
| Repository.InMemoryDiagramRepository.Save | src/main/java/io/github/drompincen/archviz/repository/DiagramRepository.java:10 | inserts or overwrites the record under the diagram's id, changes no other id, and returns the diagram saved |
| Repository.InMemoryDiagramRepository.FindById | src/main/java/io/github/drompincen/archviz/repository/DiagramRepository.java:12 | returns the record stored under the id, or empty when there is none |
| Repository.InMemoryDiagramRepository.FindAll | src/main/java/io/github/drompincen/archviz/repository/DiagramRepository.java:14 | returns every stored record passing both filters, only such records, each once; its length is the number of matching ids |
| Repository.InMemoryDiagramRepository.DeleteById | src/main/java/io/github/drompincen/archviz/repository/DiagramRepository.java:16 | removes the id and nothing else; an absent id leaves the store as it was |
| Repository.LookupAfterSave | src/test/java/io/github/drompincen/archviz/repository/DynamoDiagramRepositoryTest.java:95-122 | findById after save returns the whole record saved: title, tags in order, flow and both timestamps |
| Repository.LookupAfterSaveOther | src/main/java/io/github/drompincen/archviz/repository/DiagramRepository.java:10-12 | saving one id leaves the answer for every other id unchanged |
| Repository.SaveOverwrites | src/test/java/io/github/drompincen/archviz/repository/InMemoryDiagramRepositoryTest.java:91-97 | two saves under one id leave only the second record |
| Repository.LookupAfterDelete | src/test/java/io/github/drompincen/archviz/repository/InMemoryDiagramRepositoryTest.java:84-89 | after deleteById the id is not found and every other id answers as before |
| Repository.DeleteAbsentIsNoop | src/main/java/io/github/drompincen/archviz/repository/DiagramRepository.java:16 | deleting an id that is not stored changes nothing |
| Repository.QueryResultSize | src/test/java/io/github/drompincen/archviz/repository/InMemoryDiagramRepositoryTest.java:46-54 | any answer of findAll has exactly one entry per matching id |
| Repository.UnfilteredQueryReturnsAll | src/test/java/io/github/drompincen/archviz/repository/InMemoryDiagramRepositoryTest.java:37-44 | with neither filter findAll returns every stored record, as many as there are ids |
| Catalogue.StaticMatches | src/test/java/io/github/drompincen/archviz/service/DiagramServiceTest.java:56-81 | a catalogue diagram is kept exactly when it is in the catalogue and passes the store's tag/query predicate |
| Catalogue.StaticMatchesUnfiltered | src/test/java/io/github/drompincen/archviz/service/DiagramServiceTest.java:42-54 | with neither filter the whole catalogue is kept, in order |
| Catalogue.FindStatic | src/test/java/io/github/drompincen/archviz/service/StaticFileServiceTest.java:45-60 | a found diagram is in the catalogue and has the id asked for; empty exactly when no catalogue diagram has that id |
| Catalogue.FindStaticOnlyStaticIds | src/test/java/io/github/drompincen/archviz/service/StaticFileServiceTest.java:26-37 | a catalogue whose ids all carry the "file-" prefix never answers an id without it |
| Service.NewDiagram | src/test/java/io/github/drompincen/archviz/service/DiagramServiceTest.java:113-139 | a created record has the generated id, the request's title, description, tags and flow, version 1, source "db", both timestamps now, and empty tags when none were given |
| Service.ApplyUpdate | src/test/java/io/github/drompincen/archviz/service/DiagramServiceTest.java:141-154 | an update replaces exactly the supplied fields, raises the version by one, refreshes updatedAt, and keeps id, createdAt and source |
| Service.ApplyUpdatesCountsVersions | src/test/java/io/github/drompincen/archviz/service/DiagramServiceTest.java:141-154 | after n updates the version has grown by exactly n and id, createdAt and source are unchanged |
| Service.EmptyUpdateOnlyStamps | src/test/java/io/github/drompincen/archviz/service/DiagramServiceTest.java:141-154 | an update supplying no field changes only the version and the update time |
| Service.CreateThenUpdate | src/test/java/io/github/drompincen/archviz/service/DiagramServiceTest.java:141-154 | the first update of a created diagram gives version 2, keeps its creation time and source "db" |
| Service.ResolvePrefersStore | src/test/java/io/github/drompincen/archviz/service/DiagramServiceTest.java:83-92 | a store hit is the answer of getById whatever the catalogue holds |
| Service.ResolveFallsBack | src/test/java/io/github/drompincen/archviz/service/DiagramServiceTest.java:94-111 | on a store miss getById answers from the catalogue, and is empty exactly when no catalogue diagram has the id |
| Service.CreateThenResolve | src/test/java/io/github/drompincen/archviz/service/DiagramServiceTest.java:113-130 | a diagram just created is what getById returns for its id |
| Service.ListingSize | src/test/java/io/github/drompincen/archviz/service/DiagramServiceTest.java:42-54 | the listing has one entry per matching store id plus one per matching catalogue diagram; unfiltered, store size plus catalogue size |
| Service.ListingSoundAndComplete | src/test/java/io/github/drompincen/archviz/service/DiagramServiceTest.java:56-81 | every listed summary comes from a store record or catalogue diagram passing both filters, and every such diagram is listed |
| Service.ListingIdsDisjoint | src/test/java/io/github/drompincen/archviz/service/DiagramServiceTest.java:42-54 | when store ids lack the "file-" prefix, no store entry of the listing shares an id with a catalogue entry |
| Service.DiagramService.constructor | src/test/java/io/github/drompincen/archviz/service/DiagramServiceTest.java:37-40 | the service is built over the given store and catalogue |
| Service.DiagramService.ListAll | src/test/java/io/github/drompincen/archviz/service/DiagramServiceTest.java:42-81 | the summaries of an acceptable findAll answer followed by the catalogue diagrams passing the same filters |
| Service.DiagramService.GetById | src/test/java/io/github/drompincen/archviz/service/DiagramServiceTest.java:83-111 | the store's record if any, else the catalogue's, else empty |
| Service.DiagramService.Create | src/test/java/io/github/drompincen/archviz/service/DiagramServiceTest.java:113-139 | saves and returns the new record under the generated id; the store grows by one when the id was fresh |
| Service.DiagramService.Update | src/test/java/io/github/drompincen/archviz/service/DiagramServiceTest.java:141-163 | a missing id returns empty and leaves the store untouched; otherwise the updated record is saved and returned |
| JsonIndex.PresentMembers | ArchViz.java:75-76 | a name is listed exactly when some resource carries it; nameless resources contribute nothing |
| JsonIndex.DedupMembers | ArchViz.java:74-78 | deduplication keeps every discovered name and adds none |
| JsonIndex.DedupNoDuplicates | ArchViz.java:76-77 | no filename is listed twice |
| JsonIndex.DedupPrefix | ArchViz.java:69-79 | names found by a later pattern never displace or reorder names already listed |
| JsonIndex.DedupKeepsFirstOccurrenceOrder | ArchViz.java:74-78 | listed names appear in the order of their first discovery |
| JsonIndex.CollectFileNames | ArchViz.java:67-82 | the nested loops produce the deduplicated sequence of all names discovered, pattern after pattern |
| Text.ConcatAppend | ArchViz.java:84-89 | appending two runs of pieces to a string builder writes the first run's text followed by the second's |
| JsonIndex.LinksAppend | ArchViz.java:85-87 | the links of two runs of files are each run's links, one after the other |
| JsonIndex.PageListsEveryFile | ArchViz.java:84-89 | the page opens with `<html><body>`, closes with `</body></html>`, and contains the link of every listed file |
| JsonIndex.RenderIndex | ArchViz.java:84-89 | the page-building loop yields the head, one link per file in list order, and the tail |
| JsonIndex.ListJsonFiles | ArchViz.java:63-90 | the page lists the deduplicated names of the source-tree pattern followed by those of the class-path pattern |
| JsonIndex.ListedNames | ArchViz.java:69-82 | source-tree names come first; a failed pattern contributes nothing while the other contributes all its names |
| AccessLog.ClientIpChoice | ArchViz.java:49-52 | the header is used exactly when present and not blank, otherwise the remote address |
| AccessLog.FilterTrace | ArchViz.java:43-59 | the chain runs exactly once and first; one access line follows exactly when the chain returned and the URI ends with ".html"; a chain that throws leaves the chain call as the only effect |
| AccessLog.LoggedIpFollowsHeader | ArchViz.java:48-57 | a logged `.html` access carries the header's address when usable, else the remote address |
| RepositoryTests.MicroQueryFacts | src/test/java/io/github/drompincen/archviz/repository/InMemoryDiagramRepositoryTest.java:56-64 | "micro" matches "Microservice Architecture" and not "Event Pipeline" |
| RepositoryTests.SaveAndFindById | src/test/java/io/github/drompincen/archviz/repository/InMemoryDiagramRepositoryTest.java:22-30 | the saved diagram is found with its title and tags |
| RepositoryTests.FindByIdNotFound | src/test/java/io/github/drompincen/archviz/repository/InMemoryDiagramRepositoryTest.java:32-35 | an id never saved is not found |
| RepositoryTests.FindAllNoFilters | src/test/java/io/github/drompincen/archviz/repository/InMemoryDiagramRepositoryTest.java:37-44 | two ids saved, unfiltered findAll returns two records |
| RepositoryTests.FindAllFilterByTag | src/test/java/io/github/drompincen/archviz/repository/InMemoryDiagramRepositoryTest.java:46-54 | tag "java" returns only "Alpha" |
| RepositoryTests.FindAllFilterByQuery | src/test/java/io/github/drompincen/archviz/repository/InMemoryDiagramRepositoryTest.java:56-64 | query "micro" returns only "Microservice Architecture" |
| RepositoryTests.FindAllFilterByQueryCaseInsensitive | src/test/java/io/github/drompincen/archviz/repository/InMemoryDiagramRepositoryTest.java:66-72 | query "MICRO" matches "Microservice Architecture" |
| RepositoryTests.FindAllFilterByTagAndQuery | src/test/java/io/github/drompincen/archviz/repository/InMemoryDiagramRepositoryTest.java:74-82 | tag "java" with query "micro" returns only id "1" |
| RepositoryTests.DeleteById | src/test/java/io/github/drompincen/archviz/repository/InMemoryDiagramRepositoryTest.java:84-89 | a deleted id is no longer found |
| RepositoryTests.SaveOverwritesExisting | src/test/java/io/github/drompincen/archviz/repository/InMemoryDiagramRepositoryTest.java:91-97 | the second save under id "1" is the one found |
| ServiceTests.EventQueryFacts | src/test/java/io/github/drompincen/archviz/service/DiagramServiceTest.java:70-81 | "event" does not match "Microservice Flow" in any letter case |
| ServiceTests.ListAllMergesDbAndStaticDiagrams | src/test/java/io/github/drompincen/archviz/service/DiagramServiceTest.java:42-54 | one store record and one catalogue diagram give two summaries |
| ServiceTests.ListAllFiltersStaticByTag | src/test/java/io/github/drompincen/archviz/service/DiagramServiceTest.java:56-68 | a catalogue diagram tagged "java" is not listed for tag "python" |
| ServiceTests.ListAllFiltersStaticByQuery | src/test/java/io/github/drompincen/archviz/service/DiagramServiceTest.java:70-81 | "Microservice Flow" is not listed for query "event" |
| ServiceTests.GetByIdReturnsDbResult | src/test/java/io/github/drompincen/archviz/service/DiagramServiceTest.java:83-92 | a stored id is answered by the store record, source "db", whatever the catalogue |
| ServiceTests.GetByIdFallsBackToStaticFile | src/test/java/io/github/drompincen/archviz/service/DiagramServiceTest.java:94-103 | a store miss is answered by the catalogue diagram, source "file" |
| ServiceTests.GetByIdNotFound | src/test/java/io/github/drompincen/archviz/service/DiagramServiceTest.java:105-111 | an id in neither source is not found |
| ServiceTests.CreateSetsFieldsCorrectly | src/test/java/io/github/drompincen/archviz/service/DiagramServiceTest.java:113-130 | create copies title, description and tags, sets version 1, source "db" and both timestamps |
| ServiceTests.CreateNullTagsDefaultsToEmptyList | src/test/java/io/github/drompincen/archviz/service/DiagramServiceTest.java:132-139 | absent tags become the empty list |
| ServiceTests.UpdateExistingDiagram | src/test/java/io/github/drompincen/archviz/service/DiagramServiceTest.java:141-154 | the update replaces the title and takes version 1 to 2 |
| ServiceTests.UpdateNotFound | src/test/java/io/github/drompincen/archviz/service/DiagramServiceTest.java:156-163 | updating a missing id returns empty and writes nothing |

## Left out

- The DynamoDB store variant and its embedded test server: an AWS client, its attribute encoding and a separate process. Only the store contract its tests assert (round trip of tags, flow and timestamps; miss; delete) is modelled, on the in-memory variant.
- Loading the static catalogue (scanning resources, parsing JSON, skipping files that fail to parse): I/O and a library parser. The catalogue is a given sequence, assumed to carry the "file-" id prefix and source "file".
- Resolving resource patterns in `listJsonFiles`: each pattern's outcome is an input, a list of optional filenames or a failure.
- HTTP routing, JSON marshalling, status codes and the store-variant configuration: framework plumbing. The service's delete, a pass-through to the store, is covered by the store's `DeleteById`.
- The browser UI: presentation code in JavaScript.
- The logger call: only whether a line is logged and with which address, method, URI and status.
- The clock and id generation: `now` and `newId` are parameters; a generated id is not proved fresh, and `Create` states the store's growth only for a fresh id.
- The flow document's structure: an opaque `Json` value carried unchanged.
- Diagrams as shared mutable objects: a diagram is a value here, so there is no aliasing between a caller's object and the one held in the store, and a caller's later setter calls cannot change a stored record.
- The exception a throwing chain raises in the access-log filter: only that it ends the filter before logging (the `Threw` outcome), not its type or how the framework answers it.
- Thread-safety of the in-memory map: operations are modelled one at a time.
- Locale-dependent lower-casing: case-insensitive matching folds ASCII letters only.
- Null titles and null tag lists inside stored records: records always have a title and a tag list.
- Backend failures (`StorageUnavailable`): the in-memory store never fails.
- Service.DiagramService.Update: does not model Java `int` wrap-around of the version after 2^31 - 1 updates, because the record class that declares the field's width is not part of this model.
- Service.ResolvePrefersStore: states that a store hit does not depend on the catalogue, not the mock's "loader never called" count, which has no counterpart in a value model.
- Repository.InMemoryDiagramRepository.FindAll: the order of the answer is left open (an arbitrary walk over the map), as the interface promises no order.
