/**
 * `IniSection` and `parseSections` (src/PluginDefinition.cpp): the lines of
 * the normalised text are grouped into sections, each a header (empty for the
 * preamble before the first header) and its body lines.
 */
module Sections {
  import opened Text
  import opened Streams
  import opened Seqs

  datatype Section = Section(header: string, lines: seq<string>)

  /** The header test reads the first character of the trimmed line whenever the
      untrimmed line is longer than 2; this is defined only if that trimmed text
      is not empty. */
  predicate HeaderTestDefined(line: string) {
    |line| > 2 ==> Trim(line) != []
  }

  predicate HeaderTestsDefined(lines: seq<string>) {
    forall k :: 0 <= k < |lines| ==> HeaderTestDefined(lines[k])
  }

  /** The header test: the untrimmed line is longer than 2 and its trimmed text
      starts with '[' and ends with ']'. */
  predicate IsHeader(line: string) {
    var t := Trim(line);
    |line| > 2 && t != [] && t[0] == '[' && t[|t| - 1] == ']'
  }

  /** What a stored header looks like: bracketed and trimmed. */
  predicate HeaderText(h: string) {
    |h| >= 2 && h[0] == '[' && h[|h| - 1] == ']' && Trimmed(h)
  }

  /** A section with no header and no body line is never stored, except as the last one. */
  predicate IsEmpty(s: Section) {
    s.header == [] && s.lines == []
  }

  /** The loop state of `parseSections`: the stored sections and the current one. */
  datatype Parser = Parser(sections: seq<Section>, current: Section)

  /** One iteration of the loop. */
  function ParseStep(st: Parser, line: string): Parser {
    if IsHeader(line) then
      Parser(if !IsEmpty(st.current) then st.sections + [st.current] else st.sections,
             Section(Trim(line), []))
    else
      Parser(st.sections, st.current.(lines := st.current.lines + [line]))
  }

  /** The loop state after the loop has run over `lines`. */
  function ParseUpTo(lines: seq<string>): Parser
    decreases |lines|
  {
    if lines == [] then Parser([], Section([], []))
    else ParseStep(ParseUpTo(lines[..|lines| - 1]), lines[|lines| - 1])
  }

  /** What `parseSections` returns for the lines: the stored sections, then the
      current one, pushed even when it is empty. */
  function Parse(lines: seq<string>): seq<Section> {
    ParseUpTo(lines).sections + [ParseUpTo(lines).current]
  }

  /** A header is either missing or bracketed and trimmed, and no body line
      passes the header test. */
  predicate SectionOk(s: Section) {
    && (s.header == [] || HeaderText(s.header))
    && forall j :: 0 <= j < |s.lines| ==> !IsHeader(s.lines[j])
  }

  /** The sections `parseSections` returns are well formed: there is at least
      one; only the first can have an empty header; each one is `SectionOk`. */
  predicate WellFormed(secs: seq<Section>) {
    && |secs| >= 1
    && (forall k :: 0 < k < |secs| ==> secs[k].header != [])
    && (forall k :: 0 <= k < |secs| ==> SectionOk(secs[k]))
  }

  method ParseSections(buffer: string) returns (sections: seq<Section>)
    requires HeaderTestsDefined(GetLines(buffer))
    ensures sections == Parse(GetLines(buffer))
    ensures WellFormed(sections)
  {
    var lines := GetLines(buffer);
    sections := [];
    var current := Section([], []);
    var i := 0;
    while i < |lines|
      invariant 0 <= i <= |lines|
      invariant ParseUpTo(lines[..i]) == Parser(sections, current)
    {
      ParseUpToStep(lines, i);
      var line := lines[i];
      var trimmed := Trim(line);
      assert HeaderTestDefined(line);
      if |line| > 2 && trimmed[0] == '[' && trimmed[|trimmed| - 1] == ']' {
        if current.header != [] || current.lines != [] {
          sections := sections + [current];
        }
        current := Section(trimmed, []);
      } else {
        current := current.(lines := current.lines + [line]);
      }
      i := i + 1;
    }
    TakeAll(lines);
    sections := sections + [current];
    ParseWellFormed(lines);
  }

  lemma ParseUpToStep(lines: seq<string>, i: nat)
    requires i < |lines|
    ensures ParseUpTo(lines[..i + 1]) == ParseStep(ParseUpTo(lines[..i]), lines[i])
  {
    TakeSnoc(lines, i);
    SnocTake(lines[..i], lines[i]);
  }

  /** What the loop keeps true. */
  predicate StateOk(st: Parser) {
    && WellFormed(st.sections + [st.current])
    && (st.current.header == [] ==> st.sections == [])
  }

  lemma WellFormedSnoc(secs: seq<Section>, x: Section)
    requires WellFormed(secs) && SectionOk(x) && x.header != []
    ensures WellFormed(secs + [x])
  {
    assert forall k :: 0 <= k < |secs| ==> (secs + [x])[k] == secs[k];
  }

  lemma WellFormedLast(secs: seq<Section>, c: Section, x: Section)
    requires WellFormed(secs + [c]) && SectionOk(x) && x.header == c.header
    ensures WellFormed(secs + [x])
  {
    assert forall k :: 0 <= k < |secs| ==> (secs + [x])[k] == (secs + [c])[k];
  }

  lemma ParseStepOk(st: Parser, line: string)
    requires StateOk(st)
    ensures StateOk(ParseStep(st, line))
  {
    var st' := ParseStep(st, line);
    if IsHeader(line) {
      assert HeaderText(Trim(line));
      if !IsEmpty(st.current) {
        WellFormedSnoc(st.sections + [st.current], st'.current);
      } else {
        assert st'.sections + [st'.current] == [st'.current];
      }
    } else {
      assert (st.sections + [st.current])[|st.sections|] == st.current;
      var ls := st.current.lines + [line];
      assert forall j :: 0 <= j < |ls| ==> !IsHeader(ls[j]) by {
        assert forall j :: 0 <= j < |st.current.lines| ==> ls[j] == st.current.lines[j];
      }
      WellFormedLast(st.sections, st.current, st'.current);
    }
  }

  lemma {:induction false} ParseUpToOk(lines: seq<string>)
    ensures StateOk(ParseUpTo(lines))
    decreases |lines|
  {
    if lines != [] {
      ParseUpToOk(lines[..|lines| - 1]);
      ParseStepOk(ParseUpTo(lines[..|lines| - 1]), lines[|lines| - 1]);
    }
  }

  lemma ParseWellFormed(lines: seq<string>)
    ensures WellFormed(Parse(lines))
  {
    ParseUpToOk(lines);
  }
}

module SectionContent {
  import opened Text
  import opened Streams
  import opened Seqs
  import opened Sections

  /** The lines a section stands for: its header, when it has one, then its body. */
  function SectionLines(s: Section): seq<string> {
    (if s.header == [] then [] else [s.header]) + s.lines
  }

  /** The lines of all sections, in order. */
  function Flatten(secs: seq<Section>): seq<string> {
    if secs == [] then [] else Flatten(secs[..|secs| - 1]) + SectionLines(secs[|secs| - 1])
  }

  /** The input lines with every header line replaced by its trimmed text. */
  function MarkHeaders(lines: seq<string>): (r: seq<string>)
    ensures |r| == |lines|
  {
    if lines == [] then []
    else
      var l := lines[|lines| - 1];
      MarkHeaders(lines[..|lines| - 1]) + [if IsHeader(l) then Trim(l) else l]
  }

  lemma FlattenSnoc(secs: seq<Section>, s: Section)
    ensures Flatten(secs + [s]) == Flatten(secs) + SectionLines(s)
  {
    assert (secs + [s])[..|secs|] == secs;
  }

  lemma FlattenSnoc2(secs: seq<Section>, s: Section, t: Section)
    ensures Flatten(secs + [s] + [t]) == Flatten(secs) + SectionLines(s) + SectionLines(t)
  {
    FlattenSnoc(secs + [s], t);
    FlattenSnoc(secs, s);
  }

  /** A header line closes the current section (kept only when not empty) and opens a new one. */
  lemma FlattenHeaderStep(st: Parser, line: string)
    requires IsHeader(line)
    ensures Flatten(ParseStep(st, line).sections + [ParseStep(st, line).current])
         == Flatten(st.sections + [st.current]) + [Trim(line)]
  {
    var h := Section(Trim(line), []);
    assert SectionLines(h) == [Trim(line)];
    FlattenSnoc(st.sections, st.current);
    if !IsEmpty(st.current) {
      FlattenSnoc2(st.sections, st.current, h);
    } else {
      assert SectionLines(st.current) == [];
      FlattenSnoc(st.sections, h);
    }
  }

  /** Any other line joins the current section's body as it is. */
  lemma FlattenBodyStep(st: Parser, line: string)
    requires !IsHeader(line)
    ensures Flatten(ParseStep(st, line).sections + [ParseStep(st, line).current])
         == Flatten(st.sections + [st.current]) + [line]
  {
    var c := st.current.(lines := st.current.lines + [line]);
    var f, l := Flatten(st.sections), SectionLines(st.current);
    assert ParseStep(st, line) == Parser(st.sections, c);
    assert SectionLines(c) == l + [line] by {
      var h: seq<string> := if c.header == [] then [] else [c.header];
      Assoc(h, st.current.lines, [line]);
    }
    assert Flatten(st.sections + [c]) == f + (l + [line]) by {
      FlattenSnoc(st.sections, c);
    }
    assert Flatten(st.sections + [st.current]) == f + l by {
      FlattenSnoc(st.sections, st.current);
    }
    Assoc(f, l, [line]);
  }

  /** No line is lost, duplicated or reordered by `parseSections`: reading the
      sections back in order gives the input lines, with header lines trimmed. */
  lemma {:induction false} ParseFlatten(lines: seq<string>)
    ensures Flatten(Parse(lines)) == MarkHeaders(lines)
    decreases |lines|
  {
    if lines == [] {
      assert Parse(lines) == [Section([], [])];
      FlattenSnoc([], Section([], []));
    } else {
      var init, line := lines[..|lines| - 1], lines[|lines| - 1];
      ParseFlatten(init);
      var st := ParseUpTo(init);
      assert Parse(lines) == ParseStep(st, line).sections + [ParseStep(st, line).current];
      if IsHeader(line) {
        FlattenHeaderStep(st, line);
      } else {
        FlattenBodyStep(st, line);
      }
    }
  }


  /** A section with nothing a reader can see: no header and only blank lines. */
  predicate BlankSection(s: Section) {
    s.header == [] && BlankLines(s.lines)
  }

  predicate AllBlank(secs: seq<Section>) {
    forall k :: 0 <= k < |secs| ==> BlankSection(secs[k])
  }

  /** Headers are either missing or never blank. */
  predicate SolidHeaders(secs: seq<Section>) {
    forall k :: 0 <= k < |secs| ==> secs[k].header == [] || !AllWs(secs[k].header)
  }

  /** The lines of a section with no blank header are blank exactly when the section is. */
  lemma SectionLinesBlank(s: Section)
    requires s.header == [] || !AllWs(s.header)
    ensures BlankLines(SectionLines(s)) <==> BlankSection(s)
  {
    var b := SectionLines(s);
    if s.header == [] {
      assert b == s.lines;
    } else {
      assert b[0] == s.header;
    }
    forall k | 0 <= k < |s.lines| ensures b[|b| - |s.lines| + k] == s.lines[k] {
    }
  }

  lemma {:induction false} FlattenBlank(secs: seq<Section>)
    requires SolidHeaders(secs)
    ensures AllBlank(secs) <==> BlankLines(Flatten(secs))
    decreases |secs|
  {
    if secs != [] {
      var init, s := secs[..|secs| - 1], secs[|secs| - 1];
      assert SolidHeaders(init) by {
        assert forall k :: 0 <= k < |init| ==> init[k] == secs[k];
      }
      FlattenBlank(init);
      var a, b := Flatten(init), SectionLines(s);
      assert BlankLines(Flatten(secs)) <==> BlankLines(a) && BlankLines(b) by {
        assert Flatten(secs) == a + b;
        BlankLinesConcat(a, b);
      }
      assert BlankLines(b) <==> BlankSection(s) by {
        assert s == secs[|secs| - 1];
        SectionLinesBlank(s);
      }
      assert AllBlank(secs) <==> AllBlank(init) && BlankSection(s) by {
        assert forall k :: 0 <= k < |init| ==> init[k] == secs[k];
      }
    }
  }

  /** Each line is marked on its own. */
  lemma {:induction false} MarkHeadersIndex(lines: seq<string>, k: nat)
    requires k < |lines|
    ensures MarkHeaders(lines)[k] == if IsHeader(lines[k]) then Trim(lines[k]) else lines[k]
    decreases |lines|
  {
    var init, l := lines[..|lines| - 1], lines[|lines| - 1];
    var mi := MarkHeaders(init);
    assert MarkHeaders(lines) == mi + [if IsHeader(l) then Trim(l) else l];
    if k < |init| {
      MarkHeadersIndex(init, k);
      assert MarkHeaders(lines)[k] == mi[k];
      assert init[k] == lines[k];
    } else {
      assert k == |mi|;
    }
  }

  lemma MarkHeadersBlank(lines: seq<string>)
    ensures BlankLines(MarkHeaders(lines)) <==> BlankLines(lines)
  {
    var m := MarkHeaders(lines);
    forall k | 0 <= k < |lines| ensures AllWs(m[k]) <==> AllWs(lines[k]) {
      MarkHeadersIndex(lines, k);
    }
  }

  /** `parseSections` yields only blank sections exactly when every input line is blank. */
  lemma ParseBlank(lines: seq<string>)
    ensures AllBlank(Parse(lines)) <==> BlankLines(lines)
  {
    var secs := Parse(lines);
    ParseWellFormed(lines);
    assert SolidHeaders(secs) by {
      forall k | 0 <= k < |secs| && secs[k].header != []
        ensures !AllWs(secs[k].header)
      {
        assert HeaderText(secs[k].header);
        assert !IsWs(secs[k].header[0]);
      }
    }
    FlattenBlank(secs);
    ParseFlatten(lines);
    MarkHeadersBlank(lines);
  }
}
