/**
 * The `/json/` index page: the JSON filenames found under two resource
 * patterns (the source tree first, then the class path), each name once in
 * order of discovery, rendered as an HTML list of links.
 */
module JsonIndex {
  import opened Options
  import Text

  /**
   * What resolving one resource pattern yields: the filename of each resource
   * found (None where a resource has no filename), or an I/O failure.
   */
  datatype Resolution = Resolved(filenames: seq<Option<string>>) | Failed

  /** The filenames that are present, in order. */
  function Present(names: seq<Option<string>>): seq<string>
    decreases |names|
  {
    if names == [] then []
    else
      var last := names[|names| - 1];
      Present(names[..|names| - 1]) + (if last.Some? then [last.value] else [])
  }

  /** A name is listed exactly when some resource carries it; resources without a name contribute nothing. */
  lemma {:induction false} PresentMembers(names: seq<Option<string>>, f: string)
    ensures f in Present(names) <==> Some(f) in names
    decreases |names|
  {
    if names != [] {
      var init := names[..|names| - 1];
      PresentMembers(init, f);
      assert names == init + [names[|names| - 1]];
    }
  }

  /** What one pattern contributes: nothing when its resolution failed. */
  function Discovered(r: Resolution): seq<string>
  {
    if r.Failed? then [] else Present(r.filenames)
  }

  /** All names found, pattern after pattern, duplicates included. */
  function AllDiscovered(rs: seq<Resolution>): seq<string>
    decreases |rs|
  {
    if rs == [] then [] else AllDiscovered(rs[..|rs| - 1]) + Discovered(rs[|rs| - 1])
  }

  /** Keep the first occurrence of every name: walk left to right, appending names not seen yet. */
  function Dedup(xs: seq<string>): seq<string>
    decreases |xs|
  {
    if xs == [] then []
    else
      var seen := Dedup(xs[..|xs| - 1]);
      var x := xs[|xs| - 1];
      if x in seen then seen else seen + [x]
  }

  ghost predicate NoDuplicates(xs: seq<string>)
  {
    forall i, j :: 0 <= i < j < |xs| ==> xs[i] != xs[j]
  }

  lemma DedupSnoc(xs: seq<string>, x: string)
    ensures Dedup(xs + [x]) == if x in Dedup(xs) then Dedup(xs) else Dedup(xs) + [x]
  {
    assert (xs + [x])[..|xs|] == xs;
  }

  /** Deduplication drops no name and invents none. */
  lemma {:induction false} DedupMembers(xs: seq<string>)
    ensures forall x :: x in Dedup(xs) <==> x in xs
    decreases |xs|
  {
    if xs != [] {
      var init := xs[..|xs| - 1];
      DedupMembers(init);
      assert xs == init + [xs[|xs| - 1]];
    }
  }

  /** No name is listed twice. */
  lemma {:induction false} DedupNoDuplicates(xs: seq<string>)
    ensures NoDuplicates(Dedup(xs))
    decreases |xs|
  {
    if xs != [] {
      DedupNoDuplicates(xs[..|xs| - 1]);
    }
  }

  /** Names discovered later never displace or reorder names discovered earlier. */
  lemma {:induction false} DedupPrefix(a: seq<string>, b: seq<string>)
    ensures Dedup(a) <= Dedup(a + b)
    decreases |b|
  {
    if b == [] {
      assert a + b == a;
    } else {
      var init := b[..|b| - 1];
      DedupPrefix(a, init);
      assert a + b == (a + init) + [b[|b| - 1]];
      DedupSnoc(a + init, b[|b| - 1]);
    }
  }

  /** The position at which `x` first appears in `xs`. */
  function FirstIndex(xs: seq<string>, x: string): (k: nat)
    requires x in xs
    ensures k < |xs| && xs[k] == x && x !in xs[..k]
  {
    if xs[0] == x then 0 else 1 + FirstIndex(xs[1..], x)
  }

  lemma {:induction false} FirstIndexSnoc(xs: seq<string>, y: string, x: string)
    requires x in xs
    ensures FirstIndex(xs + [y], x) == FirstIndex(xs, x)
    decreases |xs|
  {
    if xs[0] != x {
      assert (xs + [y])[1..] == xs[1..] + [y];
      assert x in xs[1..];
      FirstIndexSnoc(xs[1..], y, x);
    }
  }

  /** The listed names appear in the order in which each was first discovered. */
  lemma {:induction false} DedupKeepsFirstOccurrenceOrder(xs: seq<string>)
    ensures forall x :: x in Dedup(xs) ==> x in xs
    ensures forall i, j :: 0 <= i < j < |Dedup(xs)| ==> FirstIndex(xs, Dedup(xs)[i]) < FirstIndex(xs, Dedup(xs)[j])
    decreases |xs|
  {
    DedupMembers(xs);
    if xs != [] {
      var init := xs[..|xs| - 1];
      var x := xs[|xs| - 1];
      assert xs == init + [x];
      DedupKeepsFirstOccurrenceOrder(init);
      DedupMembers(init);
      var d := Dedup(xs);
      forall i, j | 0 <= i < j < |d| ensures FirstIndex(xs, d[i]) < FirstIndex(xs, d[j]) {
        var prev := Dedup(init);
        assert d[i] == prev[i] && d[i] in init;
        FirstIndexSnoc(init, x, d[i]);
        if j < |prev| {
          assert d[j] == prev[j];
          FirstIndexSnoc(init, x, d[j]);
        } else {
          assert d[j] == x && x !in init;
          assert FirstIndex(xs, x) == |init|;
        }
      }
    }
  }

  /** What the outer loop adds for pattern `i`: that pattern's names, after those of the patterns before it. */
  lemma AllDiscoveredStep(results: seq<Resolution>, i: nat)
    requires i < |results|
    ensures AllDiscovered(results[..i + 1]) == AllDiscovered(results[..i]) + Discovered(results[i])
    ensures results[i].Failed? ==> AllDiscovered(results[..i + 1]) == AllDiscovered(results[..i])
  {
    assert results[..i + 1][..i] == results[..i];
    assert AllDiscovered(results[..i]) + [] == AllDiscovered(results[..i]);
  }

  /** What the inner loop adds at step `j`: name `j` when it is present, nothing otherwise. */
  lemma PresentStep(before: seq<string>, names: seq<Option<string>>, j: nat)
    requires j < |names|
    ensures names[j].Some? ==> before + Present(names[..j + 1]) == before + Present(names[..j]) + [names[j].value]
    ensures names[j].None? ==> before + Present(names[..j + 1]) == before + Present(names[..j])
  {
    assert names[..j + 1][..j] == names[..j];
  }

  /** The nested loops of `listJsonFiles`: every name of every pattern, appended when not yet listed. */
  method CollectFileNames(results: seq<Resolution>) returns (files: seq<string>)
    ensures files == Dedup(AllDiscovered(results))
  {
    files := [];
    ghost var seen: seq<string> := [];
    var i := 0;
    while i < |results|
      invariant 0 <= i <= |results|
      invariant seen == AllDiscovered(results[..i])
      invariant files == Dedup(seen)
    {
      AllDiscoveredStep(results, i);
      match results[i] {
        case Failed =>
        case Resolved(names) =>
          ghost var before := seen;
          assert names[..0] == [] && before + Present(names[..0]) == before;
          var j := 0;
          while j < |names|
            invariant 0 <= j <= |names|
            invariant seen == before + Present(names[..j])
            invariant files == Dedup(seen)
          {
            PresentStep(before, names, j);
            var name := names[j];
            if name.Some? {
              DedupSnoc(seen, name.value);
              if name.value !in files {
                files := files + [name.value];
              }
              seen := seen + [name.value];
            }
            j := j + 1;
          }
          assert names[..j] == names;
      }
      i := i + 1;
    }
    assert results[..i] == results;
  }

  /** One link line of the page; filenames are written as they are, unescaped. */
  function Anchor(f: string): string
  {
    AnchorOpen + f + AnchorMiddle + f + AnchorClose
  }

  const AnchorOpen: string := "<a href=\""
  const AnchorMiddle: string := "\">"
  const AnchorClose: string := "</a><br>"

  /** The link line of each file, in list order. */
  function Anchors(files: seq<string>): seq<string>
  {
    seq(|files|, k requires 0 <= k < |files| => Anchor(files[k]))
  }

  function Links(files: seq<string>): string
  {
    Text.Concat(Anchors(files))
  }

  const PageHead: string := "<html><body>"
  const PageTail: string := "</body></html>"

  function Page(files: seq<string>): string
  {
    PageHead + Links(files) + PageTail
  }

  /** The links of two runs of files are the links of each, one after the other. */
  lemma LinksAppend(a: seq<string>, b: seq<string>)
    ensures Links(a + b) == Links(a) + Links(b)
  {
    assert Anchors(a + b) == Anchors(a) + Anchors(b);
    Text.ConcatAppend(Anchors(a), Anchors(b));
  }

  lemma AnchorOccursInPage(files: seq<string>, k: nat)
    requires k < |files|
    ensures Text.Contains(Page(files), Anchor(files[k]))
  {
    var parts := Anchors(files);
    Text.ConcatAround(parts, k);
    Text.Regroup(PageHead, Text.Concat(parts[..k]), parts[k], Text.Concat(parts[k + 1..]), PageTail);
    var front := PageHead + Text.Concat(parts[..k]);
    var back := Text.Concat(parts[k + 1..]) + PageTail;
    Text.OccursInMiddle(front, parts[k], back);
  }

  /** The page opens and closes the document, and links every listed file. */
  lemma PageListsEveryFile(files: seq<string>)
    ensures Text.StartsWith(Page(files), PageHead)
    ensures Text.EndsWith(Page(files), PageTail)
    ensures forall k :: 0 <= k < |files| ==> Text.Contains(Page(files), Anchor(files[k]))
  {
    var page := Page(files);
    assert page[..|PageHead|] == PageHead;
    assert page[|page| - |PageTail|..] == PageTail;
    forall k | 0 <= k < |files| ensures Text.Contains(page, Anchor(files[k])) {
      AnchorOccursInPage(files, k);
    }
  }

  /** The page-building loop of `listJsonFiles`. */
  method RenderIndex(files: seq<string>) returns (html: string)
    ensures html == Page(files)
  {
    ghost var parts := Anchors(files);
    html := PageHead;
    var i := 0;
    while i < |files|
      invariant 0 <= i <= |files|
      invariant html == PageHead + Text.Concat(parts[..i])
    {
      Text.ConcatStep(parts, i);
      Text.AppendFive(html, AnchorOpen, files[i], AnchorMiddle, files[i], AnchorClose);
      Text.AppendAssoc(PageHead, Text.Concat(parts[..i]), parts[i]);
      html := html + AnchorOpen + files[i] + AnchorMiddle + files[i] + AnchorClose;
      i := i + 1;
    }
    assert parts[..i] == parts;
    html := html + PageTail;
  }

  /** `listJsonFiles`, given what each of its two patterns resolved to. */
  method ListJsonFiles(fileSystem: Resolution, classpath: Resolution) returns (html: string)
    ensures html == Page(Dedup(Discovered(fileSystem) + Discovered(classpath)))
  {
    var files := CollectFileNames([fileSystem, classpath]);
    assert [fileSystem, classpath][..1] == [fileSystem];
    assert [fileSystem][..0] == [];
    assert AllDiscovered([fileSystem]) == [] + Discovered(fileSystem);
    assert AllDiscovered([fileSystem, classpath]) == AllDiscovered([fileSystem]) + Discovered(classpath);
    assert [] + Discovered(fileSystem) == Discovered(fileSystem);
    html := RenderIndex(files);
  }

  /**
   * The source tree's names come first and in their own order; a failed
   * pattern contributes nothing and the other still contributes all its names.
   */
  lemma ListedNames(fileSystem: Resolution, classpath: Resolution)
    ensures Dedup(Discovered(fileSystem)) <= Dedup(Discovered(fileSystem) + Discovered(classpath))
    ensures fileSystem.Failed? ==> Dedup(Discovered(fileSystem) + Discovered(classpath)) == Dedup(Discovered(classpath))
    ensures classpath.Failed? ==> Dedup(Discovered(fileSystem) + Discovered(classpath)) == Dedup(Discovered(fileSystem))
    ensures forall f :: f in Dedup(Discovered(fileSystem) + Discovered(classpath)) <==>
              (fileSystem.Resolved? && Some(f) in fileSystem.filenames) || (classpath.Resolved? && Some(f) in classpath.filenames)
  {
    var fs := Discovered(fileSystem);
    var cp := Discovered(classpath);
    DedupPrefix(fs, cp);
    assert [] + cp == cp;
    assert fs + [] == fs;
    DedupMembers(fs + cp);
    forall f ensures f in fs <==> fileSystem.Resolved? && Some(f) in fileSystem.filenames {
      if fileSystem.Resolved? { PresentMembers(fileSystem.filenames, f); }
    }
    forall f ensures f in cp <==> classpath.Resolved? && Some(f) in classpath.filenames {
      if classpath.Resolved? { PresentMembers(classpath.filenames, f); }
    }
  }
}
