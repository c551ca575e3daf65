/**
 * The diagram service: merges the store with the static catalogue for
 * listing and lookup, and owns the create/update rules (version, source,
 * timestamps, defaults). The clock and the id generator are parameters.
 */
module Service {
  import opened Options
  import opened Domain
  import Text
  import Repository
  import Catalogue

  datatype CreateRequest = CreateRequest(
    title: string,
    description: Option<string>,
    tags: Option<seq<string>>,
    flow: Option<Json>)

  /** Every field is optional: an absent one keeps the stored value. */
  datatype UpdateRequest = UpdateRequest(
    title: Option<string>,
    description: Option<string>,
    tags: Option<seq<string>>,
    flow: Option<Json>)

  /** The record `create` builds: version 1, source "db", both timestamps `now`, absent tags empty. */
  function NewDiagram(req: CreateRequest, id: string, now: Instant): (d: Diagram)
    ensures d.id == id && d.version == 1 && d.source == DbSource
    ensures d.createdAt == now && d.updatedAt == now
    ensures d.title == req.title && d.description == req.description && d.flow == req.flow
    ensures req.tags.None? ==> d.tags == []
    ensures req.tags.Some? ==> d.tags == req.tags.value
  {
    var tags := if req.tags.Some? then req.tags.value else [];
    Diagram(id, req.title, req.description, tags, req.flow, 1, now, now, DbSource)
  }

  function Choose<T>(supplied: Option<T>, current: T): T
  {
    if supplied.Some? then supplied.value else current
  }

  /** The record `update` writes back: supplied fields replaced, version + 1, updatedAt refreshed. */
  function ApplyUpdate(d: Diagram, req: UpdateRequest, now: Instant): (u: Diagram)
    ensures u.version == d.version + 1 && u.updatedAt == now
    ensures u.id == d.id && u.createdAt == d.createdAt && u.source == d.source
    ensures u.title == (if req.title.Some? then req.title.value else d.title)
    ensures u.description == (if req.description.Some? then req.description else d.description)
    ensures u.tags == (if req.tags.Some? then req.tags.value else d.tags)
    ensures u.flow == (if req.flow.Some? then req.flow else d.flow)
  {
    d.(title := Choose(req.title, d.title),
       description := if req.description.Some? then req.description else d.description,
       tags := Choose(req.tags, d.tags),
       flow := if req.flow.Some? then req.flow else d.flow,
       version := d.version + 1,
       updatedAt := now)
  }

  /** A run of updates, the i-th at time `times[i]`. */
  function ApplyUpdates(d: Diagram, reqs: seq<UpdateRequest>, times: seq<Instant>): Diagram
    requires |reqs| == |times|
    decreases |reqs|
  {
    if reqs == [] then d
    else ApplyUpdates(ApplyUpdate(d, reqs[0], times[0]), reqs[1..], times[1..])
  }

  /** Each update raises the version by exactly one; id, creation time and source never change. */
  lemma {:induction false} ApplyUpdatesCountsVersions(d: Diagram, reqs: seq<UpdateRequest>, times: seq<Instant>)
    requires |reqs| == |times|
    ensures ApplyUpdates(d, reqs, times).version == d.version + |reqs|
    ensures ApplyUpdates(d, reqs, times).id == d.id
    ensures ApplyUpdates(d, reqs, times).createdAt == d.createdAt
    ensures ApplyUpdates(d, reqs, times).source == d.source
    decreases |reqs|
  {
    if reqs != [] {
      ApplyUpdatesCountsVersions(ApplyUpdate(d, reqs[0], times[0]), reqs[1..], times[1..]);
    }
  }

  /** An update that supplies nothing only bumps the version and the update time. */
  lemma EmptyUpdateOnlyStamps(d: Diagram, now: Instant)
    ensures ApplyUpdate(d, UpdateRequest(None, None, None, None), now) == d.(version := d.version + 1, updatedAt := now)
  {
  }

  /** The first update of a freshly created diagram yields version 2 and keeps its creation time. */
  lemma CreateThenUpdate(req: CreateRequest, id: string, created: Instant, upd: UpdateRequest, later: Instant)
    ensures ApplyUpdate(NewDiagram(req, id, created), upd, later).version == 2
    ensures ApplyUpdate(NewDiagram(req, id, created), upd, later).createdAt == created
    ensures ApplyUpdate(NewDiagram(req, id, created), upd, later).source == DbSource
  {
  }

  /** `getById`: the store first, the catalogue only on a store miss. */
  function Resolve(records: map<string, Diagram>, catalogue: seq<Diagram>, id: string): Option<Diagram>
  {
    if id in records then Some(records[id]) else Catalogue.FindStatic(catalogue, id)
  }

  /** A store hit is the answer whatever the catalogue holds: the catalogue is not consulted. */
  lemma ResolvePrefersStore(records: map<string, Diagram>, c1: seq<Diagram>, c2: seq<Diagram>, id: string)
    requires id in records
    ensures Resolve(records, c1, id) == Some(records[id])
    ensures Resolve(records, c1, id) == Resolve(records, c2, id)
  {
  }

  /** On a store miss the answer is the catalogue's; it is empty exactly when both miss. */
  lemma ResolveFallsBack(records: map<string, Diagram>, catalogue: seq<Diagram>, id: string)
    requires id !in records
    ensures Resolve(records, catalogue, id) == Catalogue.FindStatic(catalogue, id)
    ensures Resolve(records, catalogue, id).None? <==> forall d :: d in catalogue ==> d.id != id
  {
    var r := Catalogue.FindStatic(catalogue, id);
    if r.Some? {
      assert r.value in catalogue && r.value.id == id;
    }
  }

  /** A record just created under an id is what getById returns for it. */
  lemma CreateThenResolve(records: map<string, Diagram>, catalogue: seq<Diagram>, req: CreateRequest, id: string, now: Instant)
    ensures Resolve(records[id := NewDiagram(req, id, now)], catalogue, id) == Some(NewDiagram(req, id, now))
  {
  }

  /** The listing: store results, then the catalogue diagrams passing the same filters, all summarised. */
  function Listing(stored: seq<Diagram>, catalogue: seq<Diagram>, tag: Option<string>, query: Option<string>): seq<DiagramSummary>
  {
    Summaries(stored + Catalogue.StaticMatches(catalogue, tag, query))
  }

  /** The listing has one entry per matching store record plus one per matching catalogue diagram. */
  lemma ListingSize(m: map<string, Diagram>, catalogue: seq<Diagram>, tag: Option<string>, query: Option<string>, stored: seq<Diagram>)
    requires Repository.KeyedById(m) && Repository.IsQueryResult(m, tag, query, stored)
    ensures |Listing(stored, catalogue, tag, query)|
            == |Repository.MatchingIds(m, tag, query)| + |Catalogue.StaticMatches(catalogue, tag, query)|
    ensures tag.None? && query.None? ==> |Listing(stored, catalogue, tag, query)| == |m| + |catalogue|
  {
    Repository.QueryResultSize(m, tag, query, stored);
    if tag.None? && query.None? {
      Repository.UnfilteredQueryReturnsAll(m, stored);
      Catalogue.StaticMatchesUnfiltered(catalogue);
    }
  }

  /** `s` summarises a store record or a catalogue diagram that passes both filters. */
  ghost predicate SummarisesMatch(m: map<string, Diagram>, catalogue: seq<Diagram>, tag: Option<string>, query: Option<string>, s: DiagramSummary)
  {
    exists d :: Matches(d, tag, query) && (d in catalogue || (d.id in m && m[d.id] == d)) && s == Summarize(d)
  }

  /**
   * Every listed entry summarises a store record or a catalogue diagram that
   * passes both filters, and every such diagram is listed.
   */
  lemma ListingSoundAndComplete(m: map<string, Diagram>, catalogue: seq<Diagram>, tag: Option<string>, query: Option<string>, stored: seq<Diagram>)
    requires Repository.IsQueryResult(m, tag, query, stored)
    ensures forall s :: s in Listing(stored, catalogue, tag, query) ==> SummarisesMatch(m, catalogue, tag, query, s)
    ensures forall d :: d in catalogue && Matches(d, tag, query) ==> Summarize(d) in Listing(stored, catalogue, tag, query)
    ensures forall id :: id in m && Matches(m[id], tag, query) ==> Summarize(m[id]) in Listing(stored, catalogue, tag, query)
  {
    var statics := Catalogue.StaticMatches(catalogue, tag, query);
    var all := stored + statics;
    var listing := Listing(stored, catalogue, tag, query);
    forall s | s in listing ensures SummarisesMatch(m, catalogue, tag, query, s) {
      var k :| 0 <= k < |listing| && listing[k] == s;
      var d := all[k];
      if k < |stored| {
        assert d == stored[k] && d in stored;
      } else {
        assert d == statics[k - |stored|] && d in statics;
      }
      assert Matches(d, tag, query) && (d in catalogue || (d.id in m && m[d.id] == d)) && s == Summarize(d);
    }
    forall d | d in all ensures Summarize(d) in listing {
      var k :| 0 <= k < |all| && all[k] == d;
      assert listing[k] == Summarize(d);
    }
  }

  /** Store ids without the static prefix never collide with catalogue ids, so no merge step is needed. */
  lemma ListingIdsDisjoint(m: map<string, Diagram>, catalogue: seq<Diagram>, tag: Option<string>, query: Option<string>, stored: seq<Diagram>)
    requires Repository.IsQueryResult(m, tag, query, stored)
    requires Catalogue.WellFormed(catalogue)
    requires forall id :: id in m ==> !Text.StartsWith(id, StaticIdPrefix)
    ensures forall i, j :: 0 <= i < |stored| <= j < |Listing(stored, catalogue, tag, query)| ==>
              Listing(stored, catalogue, tag, query)[i].id != Listing(stored, catalogue, tag, query)[j].id
  {
    var statics := Catalogue.StaticMatches(catalogue, tag, query);
    var all := stored + statics;
    var listing := Listing(stored, catalogue, tag, query);
    forall i, j | 0 <= i < |stored| <= j < |listing| ensures listing[i].id != listing[j].id {
      assert stored[i] in stored;
      assert all[j] == statics[j - |stored|] && all[j] in statics;
      var k :| 0 <= k < |catalogue| && catalogue[k] == all[j];
      assert Text.StartsWith(all[j].id, StaticIdPrefix);
    }
  }

  class DiagramService {
    const repo: Repository.InMemoryDiagramRepository
    const catalogue: seq<Diagram>

    ghost predicate Valid()
      reads this, repo
    {
      repo.Valid() && Catalogue.WellFormed(catalogue)
    }

    constructor (repo: Repository.InMemoryDiagramRepository, catalogue: seq<Diagram>)
      requires repo.Valid() && Catalogue.WellFormed(catalogue)
      ensures Valid() && this.repo == repo && this.catalogue == catalogue
    {
      this.repo := repo;
      this.catalogue := catalogue;
    }

    /** `listAll`: the store's findAll, then the catalogue filtered by the same predicate, projected to summaries. */
    method ListAll(tag: Option<string>, query: Option<string>) returns (summaries: seq<DiagramSummary>, ghost stored: seq<Diagram>)
      requires Valid()
      ensures Repository.IsQueryResult(repo.records, tag, query, stored)
      ensures summaries == Listing(stored, catalogue, tag, query)
      ensures |summaries| == |Repository.MatchingIds(repo.records, tag, query)| + |Catalogue.StaticMatches(catalogue, tag, query)|
    {
      var fromStore := repo.FindAll(tag, query);
      stored := fromStore;
      summaries := Summaries(fromStore + Catalogue.StaticMatches(catalogue, tag, query));
      ListingSize(repo.records, catalogue, tag, query, stored);
    }

    method GetById(id: string) returns (found: Option<Diagram>)
      ensures found == Resolve(repo.records, catalogue, id)
    {
      found := repo.FindById(id);
      if found.None? {
        found := Catalogue.FindStatic(catalogue, id);
      }
    }

    /** `create`: builds the new record under the generated id at the given time and saves it. */
    method Create(req: CreateRequest, newId: string, now: Instant) returns (created: Diagram)
      requires Valid()
      modifies repo
      ensures Valid()
      ensures created == NewDiagram(req, newId, now)
      ensures repo.records == old(repo.records)[newId := created]
      ensures newId !in old(repo.records) ==> |repo.records| == |old(repo.records)| + 1
    {
      var d := NewDiagram(req, newId, now);
      created := repo.Save(d);
    }

    /** `update`: a miss returns empty and writes nothing; a hit writes back the updated record. */
    method Update(id: string, req: UpdateRequest, now: Instant) returns (updated: Option<Diagram>)
      requires Valid()
      modifies repo
      ensures Valid()
      ensures id !in old(repo.records) ==> updated == None && repo.records == old(repo.records)
      ensures id in old(repo.records) ==>
                updated == Some(ApplyUpdate(old(repo.records)[id], req, now))
                && repo.records == old(repo.records)[id := updated.value]
    {
      var existing := repo.FindById(id);
      if existing.None? {
        return None;
      }
      var d := ApplyUpdate(existing.value, req, now);
      var saved := repo.Save(d);
      updated := Some(saved);
    }
  }
}
