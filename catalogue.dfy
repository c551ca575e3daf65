/**
 * The static catalogue: the diagrams bundled as JSON resources. Loading and
 * parsing them is outside this model; the catalogue is a given sequence.
 */
module Catalogue {
  import opened Options
  import opened Domain
  import Text

  /** Every catalogue diagram carries the "file-" id prefix and source "file". */
  predicate WellFormed(c: seq<Diagram>)
  {
    forall i :: 0 <= i < |c| ==> Text.StartsWith(c[i].id, StaticIdPrefix) && c[i].source == FileSource
  }

  /** The catalogue diagrams passing the same tag/query predicate as the store, in catalogue order. */
  function StaticMatches(c: seq<Diagram>, tag: Option<string>, query: Option<string>): (r: seq<Diagram>)
    ensures |r| <= |c|
    ensures forall d :: d in r <==> d in c && Matches(d, tag, query)
  {
    if c == [] then []
    else (if Matches(c[0], tag, query) then [c[0]] else []) + StaticMatches(c[1..], tag, query)
  }

  /** With neither filter, the whole catalogue is kept, in order. */
  lemma {:induction false} StaticMatchesUnfiltered(c: seq<Diagram>)
    ensures StaticMatches(c, None, None) == c
  {
    if c != [] {
      StaticMatchesUnfiltered(c[1..]);
      assert [c[0]] + c[1..] == c;
    }
  }

  /** `loadStaticDiagramById`: the first catalogue diagram with that id, if any. */
  function FindStatic(c: seq<Diagram>, id: string): (r: Option<Diagram>)
    ensures r.Some? ==> r.value in c && r.value.id == id
    ensures r.None? ==> forall d :: d in c ==> d.id != id
  {
    if c == [] then None
    else if c[0].id == id then Some(c[0])
    else FindStatic(c[1..], id)
  }

  /** A well-formed catalogue answers only for ids with the static prefix. */
  lemma FindStaticOnlyStaticIds(c: seq<Diagram>, id: string)
    requires WellFormed(c)
    requires !Text.StartsWith(id, StaticIdPrefix)
    ensures FindStatic(c, id) == None
  {
    forall d | d in c ensures d.id != id {
      var i :| 0 <= i < |c| && c[i] == d;
    }
  }
}
