/**
 * `rebuildBuffer` (src/PluginDefinition.cpp): writes every section back as
 * CRLF-terminated lines, with one blank line after each section that wrote
 * something, except the last section; then cuts trailing stripped characters
 * and ends the text with a single CRLF.
 */
module Rebuild {
  import opened Wrappers
  import opened Text
  import opened Streams
  import opened Seqs
  import opened Sections
  import opened Whitespace

  /** The header line, when there is one. */
  function HeaderPart(s: Section): seq<string> {
    if s.header == [] then [] else [s.header]
  }

  /** The lines written for one section: its header, then its non-blank body
      lines, trimmed. */
  function SectionOut(s: Section): seq<string> {
    HeaderPart(s) + NonBlank(TrimAll(s.lines))
  }

  /** The lines each section writes, in order. */
  function SectionOuts(secs: seq<Section>): (r: seq<seq<string>>)
    ensures |r| == |secs|
    ensures forall k :: 0 <= k < |secs| ==> r[k] == SectionOut(secs[k])
  {
    seq(|secs|, k requires 0 <= k < |secs| => SectionOut(secs[k]))
  }

  /** The separator written after block `i`: a blank line when that block is
      not empty and not the last one. */
  function Gap(outs: seq<seq<string>>, i: nat): seq<string>
    requires i < |outs|
  {
    if outs[i] != [] && i < |outs| - 1 then [[]] else []
  }

  /** The lines written for the first `i` blocks, each followed by its separator. */
  function Layout(outs: seq<seq<string>>, i: nat): seq<string>
    requires i <= |outs|
    decreases i
  {
    if i == 0 then [] else Layout(outs, i - 1) + outs[i - 1] + Gap(outs, i - 1)
  }

  /** The lines written before the final cut. */
  function Emitted(secs: seq<Section>): seq<string> {
    Layout(SectionOuts(secs), |secs|)
  }

  /** The final cut: everything after the last non-stripped character goes and
      one CRLF is put back; a text with no such character is left as it is. */
  function Truncate(s: string): string {
    var last := FindLastNotOf(s);
    if last.None? then s else s[..last.value + 1] + "\r\n"
  }

  /** The text `rebuildBuffer` returns. */
  function Rebuilt(secs: seq<Section>): string {
    Truncate(JoinCrlf(Emitted(secs)))
  }

  lemma TrimmedBodyStep(ls: seq<string>, j: nat)
    requires j < |ls|
    ensures NonBlank(TrimAll(ls[..j + 1]))
            == NonBlank(TrimAll(ls[..j])) + if Trim(ls[j]) == [] then [] else [Trim(ls[j])]
  {
    TakeOfTake(ls, j);
    var t := TrimAll(ls[..j]);
    assert TrimAll(ls[..j + 1]) == t + [Trim(ls[j])];
    SnocTake(t, Trim(ls[j]));
  }

  /** The text written for a header: the header and CRLF, or nothing. */
  function HeaderLine(s: Section): string {
    if s.header == [] then [] else s.header + "\r\n"
  }

  /** The text written for body lines: each non-blank one trimmed, with CRLF. */
  function BodyText(ls: seq<string>): string
    decreases |ls|
  {
    if ls == [] then []
    else
      var t := Trim(ls[|ls| - 1]);
      BodyText(ls[..|ls| - 1]) + if t == [] then [] else t + "\r\n"
  }

  /** The text written for one section before its separator. */
  function SectionText(s: Section): string {
    HeaderLine(s) + BodyText(s.lines)
  }

  function SectionTexts(secs: seq<Section>): (r: seq<string>)
    ensures |r| == |secs|
    ensures forall k :: 0 <= k < |secs| ==> r[k] == SectionText(secs[k])
  {
    seq(|secs|, k requires 0 <= k < |secs| => SectionText(secs[k]))
  }

  /** The text the outer loop has built after `i` turns. */
  function Glue(texts: seq<string>, i: nat): string
    requires i <= |texts|
    decreases i
  {
    if i == 0 then []
    else if texts[i - 1] != [] && i - 1 < |texts| - 1 then Glue(texts, i - 1) + texts[i - 1] + "\r\n"
    else Glue(texts, i - 1) + texts[i - 1]
  }

  lemma GlueStep(texts: seq<string>, i: nat)
    requires i < |texts|
    ensures Glue(texts, i + 1) == if texts[i] != [] && i < |texts| - 1 then Glue(texts, i) + texts[i] + "\r\n"
                                  else Glue(texts, i) + texts[i]
  {
  }

  lemma BodyTextStep(ls: seq<string>, j: nat)
    requires j < |ls|
    ensures BodyText(ls[..j + 1]) == BodyText(ls[..j]) + if Trim(ls[j]) == [] then [] else Trim(ls[j]) + "\r\n"
  {
    TakeOfTake(ls, j);
  }

  lemma {:induction false} BodyTextJoin(ls: seq<string>)
    ensures BodyText(ls) == JoinCrlf(NonBlank(TrimAll(ls)))
    decreases |ls|
  {
    if ls != [] {
      var n := |ls| - 1;
      BodyTextJoin(ls[..n]);
      TrimmedBodyStep(ls, n);
      TakeAll(ls);
      var t := Trim(ls[n]);
      if t != [] {
        JoinCrlfSnoc(NonBlank(TrimAll(ls[..n])), t);
        Assoc(JoinCrlf(NonBlank(TrimAll(ls[..n]))), t, "\r\n");
      } else {
        assert NonBlank(TrimAll(ls[..n])) + [] == NonBlank(TrimAll(ls[..n]));
      }
    }
  }

  lemma SectionTextJoin(s: Section)
    ensures SectionText(s) == JoinCrlf(SectionOut(s))
  {
    BodyTextJoin(s.lines);
    JoinCrlfAppend(HeaderPart(s), NonBlank(TrimAll(s.lines)));
    if s.header != [] {
      JoinCrlfSingle(s.header);
    }
  }

  lemma JoinCrlfEmpty(ls: seq<string>)
    ensures JoinCrlf(ls) == [] <==> ls == []
  {
  }

  lemma LayoutStep(outs: seq<seq<string>>, i: nat)
    requires i < |outs|
    ensures Layout(outs, i + 1) == Layout(outs, i) + outs[i] + Gap(outs, i)
  {
  }

  /** The text of a block and its separator, appended to the text of a prefix. */
  lemma JoinBlock(l: seq<string>, o: seq<string>, x: seq<string>, b: bool)
    requires x == if b then [[]] else []
    ensures JoinCrlf(l + o + x) == if b then JoinCrlf(l) + JoinCrlf(o) + "\r\n" else JoinCrlf(l) + JoinCrlf(o)
  {
    JoinCrlfAppend(l, o);
    if b {
      JoinCrlfSnoc(l + o, []);
    } else {
      assert l + o + x == l + o;
    }
  }

  lemma {:induction false} GlueLayout(texts: seq<string>, outs: seq<seq<string>>, i: nat)
    requires |texts| == |outs| && i <= |outs|
    requires forall k :: 0 <= k < |outs| ==> texts[k] == JoinCrlf(outs[k])
    ensures Glue(texts, i) == JoinCrlf(Layout(outs, i))
    decreases i
  {
    if i > 0 {
      var n := i - 1;
      var l, o := Layout(outs, n), outs[n];
      var b := o != [] && n < |outs| - 1;
      var g := if b then JoinCrlf(l) + JoinCrlf(o) + "\r\n" else JoinCrlf(l) + JoinCrlf(o);
      assert Glue(texts, i) == g by {
        GlueLayout(texts, outs, n);
        GlueStep(texts, n);
        JoinCrlfEmpty(o);
      }
      assert JoinCrlf(Layout(outs, i)) == g by {
        LayoutStep(outs, n);
        JoinBlock(l, o, Gap(outs, n), b);
      }
    }
  }


  /** The loop's text is the CRLF-joined lines of `Emitted`. */
  lemma GlueEmitted(secs: seq<Section>)
    ensures Glue(SectionTexts(secs), |secs|) == JoinCrlf(Emitted(secs))
  {
    var texts, outs := SectionTexts(secs), SectionOuts(secs);
    forall k | 0 <= k < |outs|
      ensures texts[k] == JoinCrlf(outs[k])
    {
      SectionTextJoin(secs[k]);
    }
    GlueLayout(texts, outs, |secs|);
  }

  method RebuildBuffer(sections: seq<Section>) returns (result: string)
    ensures result == Rebuilt(sections)
  {
    result := [];
    ghost var texts := SectionTexts(sections);
    var i := 0;
    while i < |sections|
      invariant 0 <= i <= |sections|
      invariant result == Glue(texts, i)
    {
      var hasContent;
      GlueStep(texts, i);
      result, hasContent := WriteSection(result, sections[i]);
      if hasContent && i < |sections| - 1 {
        result := result + "\r\n";
      }
      i := i + 1;
    }
    GlueEmitted(sections);
    var last := FindLastNotOf(result);
    if last.Some? {
      result := result[..last.value + 1] + "\r\n";
    }
  }

  /** The body of the outer loop up to the separator: writes the header and the
      non-blank trimmed body lines of one section and says whether it wrote any. */
  method WriteSection(result: string, s: Section) returns (r: string, hasContent: bool)
    ensures r == result + SectionText(s)
    ensures hasContent <==> SectionText(s) != []
  {
    r := result;
    hasContent := false;
    if s.header != [] {
      r := r + (s.header + "\r\n");
      hasContent := true;
    }
    ghost var written := HeaderLine(s);
    var j := 0;
    while j < |s.lines|
      invariant 0 <= j <= |s.lines|
      invariant written == HeaderLine(s) + BodyText(s.lines[..j])
      invariant r == result + written
      invariant hasContent <==> written != []
    {
      BodyTextStep(s.lines, j);
      var trimmedLine := Trim(s.lines[j]);
      if trimmedLine != [] {
        Assoc(result, written, trimmedLine + "\r\n");
        Assoc(HeaderLine(s), BodyText(s.lines[..j]), trimmedLine + "\r\n");
        r := r + (trimmedLine + "\r\n");
        hasContent := true;
        written := written + (trimmedLine + "\r\n");
      }
      j := j + 1;
    }
    TakeAll(s.lines);
  }
}
