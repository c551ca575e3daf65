/**
 * The diagram store: a record set keyed by diagram id, with the four
 * operations of the repository interface (`save`, `findById`, `findAll`,
 * `deleteById`), as the in-memory variant implements them over a map.
 */
module Repository {
  import opened Options
  import opened Domain

  /** Every record is filed under its own id. */
  ghost predicate KeyedById(m: map<string, Diagram>)
  {
    forall id :: id in m ==> m[id].id == id
  }

  /** What `findById` answers for a record set. */
  function Lookup(m: map<string, Diagram>, id: string): Option<Diagram>
  {
    if id in m then Some(m[id]) else None
  }

  /** The ids whose records pass both filters. */
  ghost function MatchingIds(m: map<string, Diagram>, tag: Option<string>, query: Option<string>): set<string>
  {
    set id | id in m && Matches(m[id], tag, query)
  }

  ghost predicate DistinctIds(ds: seq<Diagram>)
  {
    forall i, j :: 0 <= i < j < |ds| ==> ds[i].id != ds[j].id
  }

  /**
   * `ds` is an acceptable answer of `findAll(tag, query)` on `m`: every
   * element is a stored record passing both filters, every stored record
   * passing both filters is an element, each once. The order is not fixed.
   */
  ghost predicate IsQueryResult(m: map<string, Diagram>, tag: Option<string>, query: Option<string>, ds: seq<Diagram>)
  {
    && (forall d :: d in ds ==> d.id in m && m[d.id] == d && Matches(d, tag, query))
    && (forall id :: id in m && Matches(m[id], tag, query) ==> m[id] in ds)
    && DistinctIds(ds)
  }

  class InMemoryDiagramRepository {
    var records: map<string, Diagram>

    ghost predicate Valid()
      reads this
    {
      KeyedById(records)
    }

    constructor ()
      ensures Valid() && records == map[]
    {
      records := map[];
    }

    /** Inserts the diagram, or replaces the one stored under its id; returns it. */
    method Save(d: Diagram) returns (saved: Diagram)
      requires Valid()
      modifies this
      ensures Valid()
      ensures saved == d
      ensures records == old(records)[d.id := d]
    {
      records := records[d.id := d];
      saved := d;
    }

    method FindById(id: string) returns (found: Option<Diagram>)
      ensures found == Lookup(records, id)
    {
      if id in records {
        found := Some(records[id]);
      } else {
        found := None;
      }
    }

    /** Filters the stored records by tag and query; the order is that of an unspecified walk over the map. */
    method FindAll(tag: Option<string>, query: Option<string>) returns (result: seq<Diagram>)
      requires Valid()
      ensures IsQueryResult(records, tag, query, result)
      ensures |result| == |MatchingIds(records, tag, query)|
    {
      var remaining := records.Keys;
      result := [];
      while remaining != {}
        invariant remaining <= records.Keys
        invariant forall d :: d in result ==> d.id in records && d.id !in remaining && records[d.id] == d && Matches(d, tag, query)
        invariant forall id :: id in records && id !in remaining && Matches(records[id], tag, query) ==> records[id] in result
        invariant DistinctIds(result)
        decreases remaining
      {
        var id :| id in remaining;
        var d := records[id];
        if Matches(d, tag, query) {
          result := result + [d];
        }
        remaining := remaining - {id};
      }
      QueryResultSize(records, tag, query, result);
    }

    /** Removes the record stored under `id`; an absent id is not an error. */
    method DeleteById(id: string)
      requires Valid()
      modifies this
      ensures Valid()
      ensures records == old(records) - {id}
    {
      records := records - {id};
    }
  }

  /** Save then findById gives back the very record saved: title, tags in order, flow, timestamps. */
  lemma LookupAfterSave(m: map<string, Diagram>, d: Diagram)
    ensures Lookup(m[d.id := d], d.id) == Some(d)
  {
  }

  /** Saving one id leaves the answers for every other id as they were. */
  lemma LookupAfterSaveOther(m: map<string, Diagram>, d: Diagram, id: string)
    requires id != d.id
    ensures Lookup(m[d.id := d], id) == Lookup(m, id)
  {
  }

  /** A second save under the same id wins: only the later record is kept. */
  lemma SaveOverwrites(m: map<string, Diagram>, first: Diagram, second: Diagram)
    requires first.id == second.id
    ensures m[first.id := first][second.id := second] == m[second.id := second]
    ensures Lookup(m[first.id := first][second.id := second], first.id) == Some(second)
  {
  }

  /** After deleteById, findById of that id is empty, and other ids are untouched. */
  lemma LookupAfterDelete(m: map<string, Diagram>, id: string, other: string)
    requires other != id
    ensures Lookup(m - {id}, id) == None
    ensures Lookup(m - {id}, other) == Lookup(m, other)
  {
  }

  /** Deleting an absent id changes nothing. */
  lemma DeleteAbsentIsNoop(m: map<string, Diagram>, id: string)
    requires Lookup(m, id) == None
    ensures m - {id} == m
  {
  }

  /** A sequence with distinct ids has as many ids as elements. */
  lemma {:induction false} DistinctIdsCount(ds: seq<Diagram>)
    requires DistinctIds(ds)
    ensures |set i | 0 <= i < |ds| :: ds[i].id| == |ds|
  {
    if ds != [] {
      var n := |ds| - 1;
      var init := ds[..n];
      DistinctIdsCount(init);
      var all := set i | 0 <= i < |ds| :: ds[i].id;
      var front := set i | 0 <= i < |init| :: init[i].id;
      assert all == front + {ds[n].id};
      assert ds[n].id !in front;
    }
  }

  /** Any answer of findAll holds exactly one record per matching id. */
  lemma QueryResultSize(m: map<string, Diagram>, tag: Option<string>, query: Option<string>, ds: seq<Diagram>)
    requires KeyedById(m) && IsQueryResult(m, tag, query, ds)
    ensures |ds| == |MatchingIds(m, tag, query)|
  {
    var ids := set i | 0 <= i < |ds| :: ds[i].id;
    forall id | id in MatchingIds(m, tag, query) ensures id in ids {
      var i :| 0 <= i < |ds| && ds[i] == m[id];
    }
    assert ids == MatchingIds(m, tag, query);
    DistinctIdsCount(ds);
  }

  /** With neither filter, findAll returns every stored record. */
  lemma UnfilteredQueryReturnsAll(m: map<string, Diagram>, ds: seq<Diagram>)
    requires KeyedById(m) && IsQueryResult(m, None, None, ds)
    ensures |ds| == |m|
    ensures forall id :: id in m ==> m[id] in ds
  {
    assert MatchingIds(m, None, None) == m.Keys;
    QueryResultSize(m, None, None, ds);
  }
}
