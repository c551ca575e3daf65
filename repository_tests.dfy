/**
 * The in-memory store's test scenarios, each driven through the store's
 * methods and its result stated as a postcondition. `now` stands for the
 * clock the tests read.
 */
module RepositoryTests {
  import opened Options
  import opened Domain
  import Text
  import opened Repository

  function MakeDiagram(id: string, title: string, tags: seq<string>, now: Instant): Diagram
  {
    Diagram(id, title, None, tags, None, 1, now, now, DbSource)
  }

  /** The ids matching among two records stored under distinct ids. */
  lemma MatchingIdsOfTwo(a: Diagram, b: Diagram, tag: Option<string>, query: Option<string>)
    requires a.id != b.id
    ensures MatchingIds(map[a.id := a][b.id := b], tag, query)
            == (if Matches(a, tag, query) then {a.id} else {}) + (if Matches(b, tag, query) then {b.id} else {})
  {
  }

  /** A title whose lower-cased start is the lower-cased query matches the query. */
  lemma TitleStartMatches(title: string, q: string)
    requires |q| <= |title| && Text.Lower(title)[..|q|] == Text.Lower(q)
    ensures Text.ContainsIgnoreCase(title, q)
  {
  }

  /** A lower-case letter absent from a title in both cases is absent from the lower-cased title. */
  lemma LetterMissing(title: string, c: char)
    requires 'a' <= c <= 'z'
    requires c !in title && ((c as int - 32) as char) !in title
    ensures c !in Text.Lower(title)
  {
    forall i | 0 <= i < |title| ensures Text.Lower(title)[i] != c {
      assert title[i] != c;
    }
  }

  /** A query with a letter that the title lacks in either case does not match the title. */
  lemma TitleLacksLetter(title: string, q: string, k: nat)
    requires k < |q| && 'a' <= Text.Lower(q)[k] <= 'z'
    requires Text.Lower(q)[k] !in title && ((Text.Lower(q)[k] as int - 32) as char) !in title
    ensures !Text.ContainsIgnoreCase(title, q)
  {
    LetterMissing(title, Text.Lower(q)[k]);
    Text.ContainsOnlyIfCharPresent(Text.Lower(title), Text.Lower(q), k);
  }

  /** "micro" picks "Microservice Architecture" and not "Event Pipeline". */
  lemma MicroQueryFacts()
    ensures Text.ContainsIgnoreCase("Microservice Architecture", "micro")
    ensures !Text.ContainsIgnoreCase("Event Pipeline", "micro")
  {
    TitleStartMatches("Microservice Architecture", "micro");
    TitleLacksLetter("Event Pipeline", "micro", 0);
  }

  method SaveAndFindById(now: Instant) returns (found: Option<Diagram>)
    ensures found.Some? && found.value.title == "Test Diagram" && found.value.tags == ["tag1"]
  {
    var repo := new InMemoryDiagramRepository();
    var _ := repo.Save(MakeDiagram("1", "Test Diagram", ["tag1"], now));
    found := repo.FindById("1");
  }

  method FindByIdNotFound() returns (found: Option<Diagram>)
    ensures found == None
  {
    var repo := new InMemoryDiagramRepository();
    found := repo.FindById("nonexistent");
  }

  method FindAllNoFilters(now: Instant) returns (all: seq<Diagram>)
    ensures |all| == 2
  {
    var repo := new InMemoryDiagramRepository();
    var _ := repo.Save(MakeDiagram("1", "Alpha", ["a"], now));
    var _ := repo.Save(MakeDiagram("2", "Beta", ["b"], now));
    all := repo.FindAll(None, None);
    UnfilteredQueryReturnsAll(repo.records, all);
  }

  method FindAllFilterByTag(now: Instant) returns (filtered: seq<Diagram>)
    ensures |filtered| == 1 && filtered[0].title == "Alpha"
  {
    var repo := new InMemoryDiagramRepository();
    var alpha := MakeDiagram("1", "Alpha", ["java", "spring"], now);
    var beta := MakeDiagram("2", "Beta", ["python"], now);
    var _ := repo.Save(alpha);
    var _ := repo.Save(beta);
    filtered := repo.FindAll(Some("java"), None);
    MatchingIdsOfTwo(alpha, beta, Some("java"), None);
    assert filtered[0] in filtered;
  }

  method FindAllFilterByQuery(now: Instant) returns (filtered: seq<Diagram>)
    ensures |filtered| == 1 && filtered[0].title == "Microservice Architecture"
  {
    var repo := new InMemoryDiagramRepository();
    var micro := MakeDiagram("1", "Microservice Architecture", [], now);
    var event := MakeDiagram("2", "Event Pipeline", [], now);
    var _ := repo.Save(micro);
    var _ := repo.Save(event);
    filtered := repo.FindAll(None, Some("micro"));
    MicroQueryFacts();
    MatchingIdsOfTwo(micro, event, None, Some("micro"));
    assert filtered[0] in filtered;
  }

  method FindAllFilterByQueryCaseInsensitive(now: Instant) returns (filtered: seq<Diagram>)
    ensures |filtered| == 1
  {
    var repo := new InMemoryDiagramRepository();
    var micro := MakeDiagram("1", "Microservice Architecture", [], now);
    var _ := repo.Save(micro);
    filtered := repo.FindAll(None, Some("MICRO"));
    TitleStartMatches(micro.title, "MICRO");
    assert MatchingIds(repo.records, None, Some("MICRO")) == {"1"};
  }

  method FindAllFilterByTagAndQuery(now: Instant) returns (filtered: seq<Diagram>)
    ensures |filtered| == 1 && filtered[0].id == "1"
  {
    var repo := new InMemoryDiagramRepository();
    var java := MakeDiagram("1", "Microservice Architecture", ["java"], now);
    var python := MakeDiagram("2", "Microservice Pipeline", ["python"], now);
    var _ := repo.Save(java);
    var _ := repo.Save(python);
    filtered := repo.FindAll(Some("java"), Some("micro"));
    TitleStartMatches(java.title, "micro");
    MatchingIdsOfTwo(java, python, Some("java"), Some("micro"));
    assert filtered[0] in filtered;
  }

  method DeleteById(now: Instant) returns (found: Option<Diagram>)
    ensures found == None
  {
    var repo := new InMemoryDiagramRepository();
    var _ := repo.Save(MakeDiagram("1", "Test", [], now));
    repo.DeleteById("1");
    found := repo.FindById("1");
  }

  method SaveOverwritesExisting(now: Instant) returns (found: Option<Diagram>)
    ensures found.Some? && found.value.title == "Updated"
  {
    var repo := new InMemoryDiagramRepository();
    var _ := repo.Save(MakeDiagram("1", "Original", [], now));
    var _ := repo.Save(MakeDiagram("1", "Updated", [], now));
    found := repo.FindById("1");
  }
}
