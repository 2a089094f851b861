/**
 * `formatIni` and the two menu toggles (src/PluginDefinition.cpp): the editor
 * text goes through `formatWhitespace`, `parseSections`, optionally
 * `formatSections` and `formatKeys` on every section, and `rebuildBuffer`.
 */
module Plugin {
  import opened Wrappers
  import opened Text
  import opened Streams
  import opened Seqs
  import opened Sections
  import opened SectionContent
  import opened Ordering
  import opened Keys
  import opened KeyProperties
  import opened Whitespace
  import opened Rebuild
  import opened RebuildShape
  import opened Reformat

  /** What a reader sees of a text: the lines `getline` reads, trimmed, blank ones dropped. */
  function VisibleLines(s: string): seq<string> {
    NonBlank(TrimAll(GetLines(s)))
  }

  /** A section as the later stages rely on it: trimmed header, no '\n' anywhere. */
  predicate Clean(s: Section) {
    Trimmed(s.header) && '\n' !in s.header && NoNewlines(s.lines)
  }

  predicate AllClean(secs: seq<Section>) {
    forall k :: 0 <= k < |secs| ==> Clean(secs[k])
  }

  /** `after` is `before` with `formatKeys` applied to every section. */
  ghost predicate KeysApplied(before: seq<Section>, after: seq<Section>) {
    && |after| == |before|
    && forall k :: 0 <= k < |before| ==>
         after[k].header == before[k].header && KeysFormatted(before[k].lines, after[k].lines)
  }

  /** The loop `for (auto& sec : sections) formatKeys(sec);`, each section replaced in place. */
  method FormatAllKeys(sections: seq<Section>) returns (r: seq<Section>)
    ensures KeysApplied(sections, r)
  {
    r := sections;
    var i := 0;
    while i < |r|
      invariant 0 <= i <= |r| == |sections|
      invariant forall k :: 0 <= k < i ==>
        r[k].header == sections[k].header && KeysFormatted(sections[k].lines, r[k].lines)
      invariant forall k :: i <= k < |r| ==> r[k] == sections[k]
    {
      var s := FormatKeys(r[i]);
      r := r[i := s];
      i := i + 1;
    }
  }

  /** Formatting the keys keeps the sections clean, and a section blank. */
  lemma KeysAppliedClean(before: seq<Section>, after: seq<Section>)
    requires KeysApplied(before, after) && AllClean(before)
    ensures AllClean(after)
    ensures AllBlank(after) <==> AllBlank(before)
  {
    forall k | 0 <= k < |before|
      ensures Clean(after[k]) && (BlankSection(after[k]) <==> BlankSection(before[k]))
    {
      var l, o := before[k].lines, after[k].lines;
      KeysFormattedNoNewlines(l, o);
      KeysFormattedBlank(l, o);
      KeysFormattedSolid(l, o);
      if o != [] {
        assert !IsWs(o[0][0]);
      }
    }
  }

  /** Sorting the sections keeps them clean, and keeps them all blank or not. */
  lemma ReorderedClean(secs: seq<Section>, r: seq<Section>)
    requires Reordered(secs, r)
    ensures AllClean(r) <==> AllClean(secs)
    ensures AllBlank(r) <==> AllBlank(secs)
  {
    ReorderedPerm(secs, r);
    PermAll(r, secs, Clean);
    PermAll(r, secs, BlankSection);
  }

  lemma {:induction false} ParseUpToClean(lines: seq<string>)
    requires NoNewlines(lines)
    ensures AllClean(ParseUpTo(lines).sections) && Clean(ParseUpTo(lines).current)
    decreases |lines|
  {
    if lines != [] {
      var init, line := lines[..|lines| - 1], lines[|lines| - 1];
      assert NoNewlines(init) by {
        assert forall k :: 0 <= k < |init| ==> init[k] == lines[k];
      }
      ParseUpToClean(init);
      var st := ParseUpTo(init);
      if IsHeader(line) {
        TrimKeepsOut(line, '\n');
        assert forall k :: 0 <= k < |st.sections| ==> (st.sections + [st.current])[k] == st.sections[k];
      } else {
        NoNewlinesConcat(st.current.lines, [line]);
      }
    }
  }

  /** `parseSections` on '\n'-free lines gives clean sections. */
  lemma ParseClean(lines: seq<string>)
    requires NoNewlines(lines)
    ensures AllClean(Parse(lines))
  {
    ParseUpToClean(lines);
    var st := ParseUpTo(lines);
    assert forall k :: 0 <= k < |st.sections| ==> Parse(lines)[k] == st.sections[k];
  }

  /** Marking headers changes nothing once every line is trimmed. */
  lemma {:induction false} TrimAllMarkHeaders(lines: seq<string>)
    ensures TrimAll(MarkHeaders(lines)) == TrimAll(lines)
    decreases |lines|
  {
    if lines != [] {
      var init, l := lines[..|lines| - 1], lines[|lines| - 1];
      TrimAllMarkHeaders(init);
      var m := MarkHeaders(lines);
      assert m[..|m| - 1] == MarkHeaders(init);
      TrimTrimmed(Trim(l));
    }
  }

  /** The lines `parseSections` reads from `formatWhitespace`'s text: the header
      test is defined on each, they are all blank exactly when the input is, and
      they show what the input shows. */
  lemma FormattedLines(text: string)
    ensures HeaderTestsDefined(GetLines(FormatWs(text)))
    ensures BlankLines(GetLines(FormatWs(text))) <==> AllWs(text)
    ensures NonBlank(TrimAll(GetLines(FormatWs(text)))) == VisibleLines(text)
  {
    var ls := WsLines(GetLines(text));
    WsLinesNormal(GetLines(text));
    GetLinesOfCrlf(ls);
    var lines := GetLines(FormatWs(text));
    assert lines == AppendCr(ls);
    forall k | 0 <= k < |lines| ensures HeaderTestDefined(lines[k]) {
      TrimCr(ls[k]);
    }
    AllWsGetLines(FormatWs(text));
    NormalJoinBlank(ls);
    WsLinesBlank(GetLines(text));
    AllWsGetLines(text);
    TrimAllCr(ls);
    WsLinesContent(GetLines(text));
  }

  /** What the rebuilt text shows: the headers and the trimmed non-blank body
      lines of the sections, in order. */
  lemma RebuiltVisible(secs: seq<Section>)
    requires AllClean(secs)
    ensures VisibleLines(Rebuilt(secs)) == NonBlank(TrimAll(Flatten(secs)))
  {
    var outs := SectionOuts(secs);
    var p := Paragraphs(Nonempty(outs));
    RebuiltParagraphs(secs);
    OutsPlain(secs);
    NonemptyPlain(outs);
    ParagraphsPlain(Nonempty(outs));
    GetLinesOfCrlf(p);
    OutsSolid(secs);
    NonemptyFilled(outs);
    ParagraphsTrimmed(Nonempty(outs));
    TrimAllCr(p);
    RebuiltContent(secs);
  }

  /** Sections on their way to `rebuildBuffer`: clean, and all blank exactly when the input text is. */
  predicate Ready(secs: seq<Section>, text: string) {
    AllClean(secs) && (AllBlank(secs) <==> AllWs(text))
  }

  lemma ParsedReady(text: string)
    ensures Ready(Parse(GetLines(FormatWs(text))), text)
  {
    var lines := GetLines(FormatWs(text));
    FormattedLines(text);
    ParseClean(lines);
    ParseBlank(lines);
  }

  /** Without sorting, the rebuilt text shows exactly what the input shows. */
  lemma ParsedVisible(text: string)
    ensures VisibleLines(Rebuilt(Parse(GetLines(FormatWs(text))))) == VisibleLines(text)
  {
    var lines := GetLines(FormatWs(text));
    FormattedLines(text);
    ParseClean(lines);
    RebuiltVisible(Parse(lines));
    ParseFlatten(lines);
    TrimAllMarkHeaders(lines);
  }

  /** The shape of what `rebuildBuffer` returns for ready sections. */
  lemma ReadyRebuilt(secs: seq<Section>, text: string)
    requires Ready(secs, text)
    ensures Rebuilt(secs) == [] <==> AllWs(text)
    ensures Rebuilt(secs) != [] ==> !IsWs(Rebuilt(secs)[0])
    ensures Rebuilt(secs) != [] ==> EndsWith(Rebuilt(secs), "\r\n") && !EndsWith(Rebuilt(secs), "\r\n\r\n")
    ensures !HasBlankRun(Rebuilt(secs))
  {
    RebuiltEmpty(secs);
    RebuiltEnding(secs);
  }

  /** `sorted` is what the optional `formatSections` step leaves of `parsed`. */
  predicate SortStage(parsed: seq<Section>, sortSections: bool, sorted: seq<Section>) {
    if sortSections then Reordered(parsed, sorted) else sorted == parsed
  }

  /** `keyed` is what the optional `formatKeys` loop leaves of `sorted`. */
  ghost predicate KeyStage(sorted: seq<Section>, sortKeys: bool, keyed: seq<Section>) {
    if sortKeys then KeysApplied(sorted, keyed) else keyed == sorted
  }

  /** `result` is the text `rebuildBuffer` writes for the sections parsed from
      the whitespace-formatted text, sorted and key-formatted as the options say. */
  ghost predicate Pipeline(text: string, sortSections: bool, sortKeys: bool, result: string) {
    var parsed := Parse(GetLines(FormatWs(text)));
    exists sorted: seq<Section>, keyed: seq<Section> ::
      SortStage(parsed, sortSections, sorted) && KeyStage(sorted, sortKeys, keyed) && result == Rebuilt(keyed)
  }

  /** The text `formatIni` writes with both options off. */
  function Unsorted(text: string): string {
    Rebuilt(Parse(GetLines(FormatWs(text))))
  }

  /** With both options off the pipeline leaves exactly one text. */
  lemma PipelineUnsorted(text: string, result: string)
    ensures Pipeline(text, false, false, result) <==> result == Unsorted(text)
  {
    var parsed := Parse(GetLines(FormatWs(text)));
    if result == Unsorted(text) {
      assert SortStage(parsed, false, parsed) && KeyStage(parsed, false, parsed);
    }
  }

  /** With both options off the written text is the blocks its sections write,
      one blank line between two blocks. */
  lemma UnsortedBlocks(text: string) returns (bs: seq<seq<string>>)
    ensures Blocks(bs) && Unsorted(text) == JoinCrlf(Paragraphs(bs))
  {
    var ls := WsLines(GetLines(text));
    WsLinesNormal(GetLines(text));
    GetLinesOfCrlf(ls);
    var lines := GetLines(FormatWs(text));
    assert lines == AppendCr(ls);
    var secs := Parse(lines);
    ParsedReady(text);
    assert TrimmedHeaders(secs) && PlainSections(secs);
    assert TrimmedLines(ls);
    ParseRereadable(ls);
    ParseWellFormed(lines);
    OutsBlocks(secs);
    bs := Nonempty(SectionOuts(secs));
    RebuiltParagraphs(secs);
  }

  /** Such text comes back unchanged through `formatIni` with both options off. */
  lemma UnsortedOfBlocks(bs: seq<seq<string>>)
    requires Blocks(bs)
    ensures Unsorted(JoinCrlf(Paragraphs(bs))) == JoinCrlf(Paragraphs(bs))
  {
    var p := Paragraphs(bs);
    var u := JoinCrlf(p);
    ParagraphsNormal(bs);
    GetLinesOfCrlf(p);
    WsLinesFixpoint(p);
    assert FormatWs(u) == u;
    var lines := AppendCr(p);
    assert GetLines(FormatWs(u)) == lines;
    var secs := Parse(lines);
    ParseClean(lines);
    assert TrimmedHeaders(secs);
    Reread(bs);
    RebuiltParagraphs(secs);
  }

  /** `formatIni` with both options off changes nothing the second time. */
  lemma UnsortedIdempotent(text: string)
    ensures Unsorted(Unsorted(text)) == Unsorted(text)
  {
    var bs := UnsortedBlocks(text);
    UnsortedOfBlocks(bs);
  }

  /** The text `formatIni` writes back for a non-empty document. */
  method Transform(text: string, sortSections: bool, sortKeys: bool) returns (result: string)
    ensures result == [] <==> AllWs(text)
    ensures result != [] ==> !IsWs(result[0])
    ensures result != [] ==> EndsWith(result, "\r\n") && !EndsWith(result, "\r\n\r\n")
    ensures !HasBlankRun(result)
    ensures !sortSections && !sortKeys ==> VisibleLines(result) == VisibleLines(text)
    ensures !sortSections && !sortKeys ==> result == Unsorted(text)
    ensures Pipeline(text, sortSections, sortKeys, result)
  {
    var buffer := FormatWhitespace(text);
    FormattedLines(text);
    var sections := ParseSections(buffer);
    ghost var parsed := sections;
    ParsedReady(text);
    if sortSections {
      var sorted := FormatSections(sections);
      ReorderedClean(sections, sorted);
      sections := sorted;
    }
    ghost var sorted := sections;
    assert SortStage(parsed, sortSections, sorted);
    if sortKeys {
      var keyed := FormatAllKeys(sections);
      KeysAppliedClean(sections, keyed);
      sections := keyed;
    }
    assert KeyStage(sorted, sortKeys, sections);
    result := RebuildBuffer(sections);
    ReadyRebuilt(sections, text);
    if !sortSections && !sortKeys {
      ParsedVisible(text);
    }
  }

  /** The plugin state: the two options `g_sortSections` and `g_sortKeys`. */
  class IniTools {
    var sortSections: bool
    var sortKeys: bool

    /** Both options start switched on. */
    constructor ()
      ensures sortSections && sortKeys
    {
      sortSections := true;
      sortKeys := true;
    }

    method ToggleSectionSort()
      modifies this
      ensures sortSections == !old(sortSections) && sortKeys == old(sortKeys)
    {
      sortSections := !sortSections;
    }

    method ToggleKeySort()
      modifies this
      ensures sortKeys == !old(sortKeys) && sortSections == old(sortSections)
    {
      sortKeys := !sortKeys;
    }

    /** `formatIni` on the document text: `None` leaves an empty document
        untouched, `Some(t)` replaces the document with `t`. */
    method FormatIni(text: string) returns (r: Option<string>)
      ensures r.None? <==> text == []
      ensures r.Some? ==> (r.value == [] <==> AllWs(text)) && !HasBlankRun(r.value)
      ensures r.Some? && r.value != [] ==> !IsWs(r.value[0])
      ensures r.Some? && r.value != [] ==> EndsWith(r.value, "\r\n") && !EndsWith(r.value, "\r\n\r\n")
      ensures r.Some? && !sortSections && !sortKeys ==> VisibleLines(r.value) == VisibleLines(text)
      ensures r.Some? && !sortSections && !sortKeys ==> r.value == Unsorted(text)
      ensures r.Some? ==> Pipeline(text, sortSections, sortKeys, r.value)
    {
      if |text| == 0 {
        return None;
      }
      var t := Transform(text, sortSections, sortKeys);
      r := Some(t);
    }
  }
}
