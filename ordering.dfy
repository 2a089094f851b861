/**
 * `formatSections` (src/PluginDefinition.cpp): sorts the sections by header,
 * leaving a leading section without header where it is.
 */
module Ordering {
  import opened Lex
  import opened Sorting
  import opened Sections

  function HeaderOf(s: Section): string { s.header }

  /** How many leading sections stay in place: the preamble, when there is one. */
  function Pinned(secs: seq<Section>): (n: nat)
    ensures n <= |secs|
  {
    if |secs| > 0 && secs[0].header == [] then 1 else 0
  }

  /** `r` is `secs` with the pinned preamble kept first and every other section
      sorted by header. */
  predicate Reordered(secs: seq<Section>, r: seq<Section>) {
    var n := Pinned(secs);
    && |r| == |secs|
    && r[..n] == secs[..n]
    && multiset(r[n..]) == multiset(secs[n..])
    && SortedBy(r[n..], HeaderOf)
  }

  method FormatSections(sections: seq<Section>) returns (r: seq<Section>)
    ensures Reordered(sections, r)
  {
    var a := new Section[|sections|](k requires 0 <= k < |sections| => sections[k]);
    assert a[..] == sections;
    var start := if |sections| > 0 && sections[0].header == [] then 1 else 0;
    SortFrom(a, start, HeaderOf);
    r := a[..];
  }

  /** Reordering only permutes the sections. */
  lemma ReorderedPerm(secs: seq<Section>, r: seq<Section>)
    requires Reordered(secs, r)
    ensures multiset(r) == multiset(secs)
  {
    var n := Pinned(secs);
    assert r == r[..n] + r[n..];
    assert secs == secs[..n] + secs[n..];
  }

  /** The preamble, when there is one, stays first. */
  lemma ReorderedPreamble(secs: seq<Section>, r: seq<Section>)
    requires Reordered(secs, r) && |secs| > 0 && secs[0].header == []
    ensures r[0] == secs[0]
  {
    assert r[..1][0] == secs[..1][0];
  }

  /** Sorting keeps what `parseSections` guarantees: at most one section
      without header, and it comes first. */
  lemma ReorderedWellFormed(secs: seq<Section>, r: seq<Section>)
    requires Reordered(secs, r) && WellFormed(secs)
    ensures WellFormed(r)
  {
    var n := Pinned(secs);
    ReorderedPerm(secs, r);
    forall k | 0 <= k < |r| ensures SectionOk(r[k]) {
      assert r[k] in multiset(secs);
    }
    forall k | 0 < k < |r| ensures r[k].header != [] {
      assert r[k] == r[n..][k - n];
      assert r[k] in multiset(secs[n..]);
      var j :| 0 <= j < |secs[n..]| && secs[n..][j] == r[k];
      assert secs[n + j] == r[k];
    }
  }
}
