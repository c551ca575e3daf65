/**
 * The diagram service's test scenarios, run against a real in-memory store
 * and a given catalogue in place of the mocked collaborators. `now` stands
 * for the clock; the fresh id is a parameter of `Create`.
 */
module ServiceTests {
  import opened Options
  import opened Domain
  import Text
  import Repository
  import Catalogue
  import opened Service
  import RepositoryTests

  function MakeDiagram(id: string, title: string, source: string, now: Instant): Diagram
  {
    Diagram(id, title, None, [], None, 1, now, now, source)
  }

  /** "event" does not occur in "Microservice Flow" in any letter case: the title has no 'n'. */
  lemma EventQueryFacts()
    ensures !Text.ContainsIgnoreCase("Microservice Flow", "event")
  {
    RepositoryTests.TitleLacksLetter("Microservice Flow", "event", 3);
  }

  method ListAllMergesDbAndStaticDiagrams(now: Instant) returns (result: seq<DiagramSummary>)
    ensures |result| == 2
  {
    var repo := new Repository.InMemoryDiagramRepository();
    var _ := repo.Save(MakeDiagram("db-1", "DB Diagram", DbSource, now));
    var catalogue := [MakeDiagram("file-test", "File Diagram", FileSource, now)];
    var service := new DiagramService(repo, catalogue);
    ghost var stored;
    result, stored := service.ListAll(None, None);
    ListingSize(repo.records, catalogue, None, None, stored);
  }

  method ListAllFiltersStaticByTag(now: Instant) returns (result: seq<DiagramSummary>)
    ensures |result| == 0
  {
    var repo := new Repository.InMemoryDiagramRepository();
    var catalogue := [MakeDiagram("file-test", "File Diagram", FileSource, now).(tags := ["java"])];
    var service := new DiagramService(repo, catalogue);
    ghost var stored;
    result, stored := service.ListAll(Some("python"), None);
    assert !Matches(catalogue[0], Some("python"), None);
    assert Catalogue.StaticMatches(catalogue, Some("python"), None) == [];
    assert Repository.MatchingIds(repo.records, Some("python"), None) == {};
  }

  method ListAllFiltersStaticByQuery(now: Instant) returns (result: seq<DiagramSummary>)
    ensures |result| == 0
  {
    var repo := new Repository.InMemoryDiagramRepository();
    var catalogue := [MakeDiagram("file-test", "Microservice Flow", FileSource, now)];
    var service := new DiagramService(repo, catalogue);
    ghost var stored;
    result, stored := service.ListAll(None, Some("event"));
    EventQueryFacts();
    assert Catalogue.StaticMatches(catalogue, None, Some("event")) == [];
    assert Repository.MatchingIds(repo.records, None, Some("event")) == {};
  }

  method GetByIdReturnsDbResult(now: Instant, catalogue: seq<Diagram>) returns (result: Option<Diagram>)
    requires Catalogue.WellFormed(catalogue)
    ensures result.Some? && result.value.source == DbSource
  {
    var repo := new Repository.InMemoryDiagramRepository();
    var _ := repo.Save(MakeDiagram("1", "DB Diagram", DbSource, now));
    var service := new DiagramService(repo, catalogue);
    result := service.GetById("1");
  }

  method GetByIdFallsBackToStaticFile(now: Instant) returns (result: Option<Diagram>)
    ensures result.Some? && result.value.source == FileSource
  {
    var repo := new Repository.InMemoryDiagramRepository();
    var catalogue := [MakeDiagram("file-test", "File Diagram", FileSource, now)];
    var service := new DiagramService(repo, catalogue);
    result := service.GetById("file-test");
  }

  method GetByIdNotFound(now: Instant) returns (result: Option<Diagram>)
    ensures result == None
  {
    var repo := new Repository.InMemoryDiagramRepository();
    var catalogue := [MakeDiagram("file-test", "File Diagram", FileSource, now)];
    var service := new DiagramService(repo, catalogue);
    result := service.GetById("missing");
  }

  method CreateSetsFieldsCorrectly(newId: string, now: Instant, flow: Json) returns (created: Diagram)
    ensures created.id == newId && created.title == "New Diagram" && created.description == Some("Desc")
    ensures created.tags == ["tag1"] && created.version == 1 && created.source == DbSource
    ensures created.createdAt == now && created.updatedAt == now
  {
    var repo := new Repository.InMemoryDiagramRepository();
    var service := new DiagramService(repo, []);
    created := service.Create(CreateRequest("New Diagram", Some("Desc"), Some(["tag1"]), Some(flow)), newId, now);
  }

  method CreateNullTagsDefaultsToEmptyList(newId: string, now: Instant) returns (created: Diagram)
    ensures created.tags == []
  {
    var repo := new Repository.InMemoryDiagramRepository();
    var service := new DiagramService(repo, []);
    created := service.Create(CreateRequest("No Tags", None, None, None), newId, now);
  }

  method UpdateExistingDiagram(created: Instant, now: Instant) returns (updated: Option<Diagram>)
    ensures updated.Some? && updated.value.title == "New Title" && updated.value.version == 2
  {
    var repo := new Repository.InMemoryDiagramRepository();
    var _ := repo.Save(MakeDiagram("1", "Old Title", DbSource, created));
    var service := new DiagramService(repo, []);
    updated := service.Update("1", UpdateRequest(Some("New Title"), Some("New Desc"), Some(["updated"]), None), now);
  }

  /** A miss returns empty and leaves the (empty) store without a single write. */
  method UpdateNotFound(now: Instant) returns (updated: Option<Diagram>, stored: nat)
    ensures updated == None && stored == 0
  {
    var repo := new Repository.InMemoryDiagramRepository();
    var service := new DiagramService(repo, []);
    updated := service.Update("missing", UpdateRequest(Some("Title"), None, None, None), now);
    stored := |repo.records|;
  }
}
