/**
 * Reading back the text `rebuildBuffer` writes: `getline` returns its lines
 * with their '\r', and `parseSections` groups them into sections again. Every
 * block a section wrote comes back as the block of one section, which makes
 * `formatIni` with both options off idempotent.
 */
module Reformat {
  import opened Text
  import opened Streams
  import opened Seqs
  import opened Sections
  import opened Whitespace
  import opened Rebuild
  import opened RebuildShape

  /** A written line that passes the header test once it is read back with its '\r'. */
  predicate Opens(x: string) {
    IsHeader(x + "\r")
  }

  /** The lines one section writes: trimmed, non-blank and '\n'-free, and none
      after the first one a header line. */
  predicate Block(b: seq<string>) {
    && b != [] && SolidLines(b) && NoNewlines(b)
    && forall j {:trigger Opens(b[j])} :: 0 < j < |b| ==> !Opens(b[j])
  }

  /** Blocks that read back one section each: every block after the first opens with a header. */
  predicate Blocks(bs: seq<seq<string>>) {
    forall k :: 0 <= k < |bs| ==> Block(bs[k]) && (k > 0 ==> Opens(bs[k][0]))
  }

  /** A line as `getline` returns it from CRLF text: its trimmed text, then '\r'. */
  predicate CrLine(line: string) {
    line == Trim(line) + "\r"
  }

  /** A section read from such lines: its header is a header line again, and
      no trimmed body line is one. */
  predicate Rereadable(s: Section) {
    && (s.header == [] || Opens(s.header))
    && forall j {:trigger Opens(Trim(s.lines[j]))} :: 0 <= j < |s.lines| ==> !Opens(Trim(s.lines[j]))
  }

  predicate AllRereadable(secs: seq<Section>) {
    forall k :: 0 <= k < |secs| ==> Rereadable(secs[k])
  }

  /** The state `parseSections` starts from. */
  const Start := Parser([], Section([], []))

  /** The loop state after the loop has run over `lines` from state `st`. */
  function ParseFrom(st: Parser, lines: seq<string>): Parser
    decreases |lines|
  {
    if lines == [] then st else ParseStep(ParseFrom(st, lines[..|lines| - 1]), lines[|lines| - 1])
  }

  /** The blocks a loop state stands for: those of the stored sections and of
      the current one, empty ones dropped. */
  function Outs(st: Parser): seq<seq<string>> {
    Nonempty(SectionOuts(st.sections + [st.current]))
  }

  lemma {:induction false} ParseUpToFrom(lines: seq<string>)
    ensures ParseUpTo(lines) == ParseFrom(Start, lines)
    decreases |lines|
  {
    if lines != [] {
      ParseUpToFrom(lines[..|lines| - 1]);
    }
  }

  lemma {:induction false} ParseFromAppend(st: Parser, a: seq<string>, b: seq<string>)
    ensures ParseFrom(st, a + b) == ParseFrom(ParseFrom(st, a), b)
    decreases |b|
  {
    if b == [] {
      assert a + b == a;
    } else {
      var n := |b| - 1;
      ParseFromAppend(st, a, b[..n]);
      assert (a + b)[..|a + b| - 1] == a + b[..n];
      assert (a + b)[|a + b| - 1] == b[n];
    }
  }

  lemma ParseFromSnoc(st: Parser, lines: seq<string>)
    requires lines != []
    ensures ParseFrom(st, lines) == ParseStep(ParseFrom(st, lines[..|lines| - 1]), lines[|lines| - 1])
  {
  }

  /** The loop over lines read back with their '\r', one line at a time. */
  lemma ParseFromCrSnoc(st: Parser, ys: seq<string>)
    requires ys != []
    ensures ParseFrom(st, AppendCr(ys))
         == ParseStep(ParseFrom(st, AppendCr(ys[..|ys| - 1])), ys[|ys| - 1] + "\r")
  {
    var cr := AppendCr(ys);
    ParseFromSnoc(st, cr);
    AppendCrInit(ys);
  }

  lemma ParseFromOne(st: Parser, line: string)
    ensures ParseFrom(st, [line]) == ParseStep(st, line)
  {
    assert [line][..0] == [];
  }

  lemma AppendCrAppend(a: seq<string>, b: seq<string>)
    ensures AppendCr(a + b) == AppendCr(a) + AppendCr(b)
  {
    forall k | 0 <= k < |a + b| ensures AppendCr(a + b)[k] == (AppendCr(a) + AppendCr(b))[k] {
      if k < |a| {
        assert (a + b)[k] == a[k];
      } else {
        assert (a + b)[k] == b[k - |a|];
      }
    }
  }

  /** One more section adds its block, unless it writes nothing. */
  lemma OutsSnoc(secs: seq<Section>, s: Section)
    ensures Nonempty(SectionOuts(secs + [s]))
         == Nonempty(SectionOuts(secs)) + if SectionOut(s) == [] then [] else [SectionOut(s)]
  {
    var o := SectionOuts(secs + [s]);
    assert forall k :: 0 <= k < |secs| ==> (secs + [s])[k] == secs[k];
    assert o[..|secs|] == SectionOuts(secs);
    assert o[|secs|] == SectionOut(s);
  }

  /** One more body line adds its trimmed text to the block, unless it is blank. */
  lemma SectionOutSnoc(s: Section, line: string)
    ensures SectionOut(s.(lines := s.lines + [line]))
         == SectionOut(s) + if Trim(line) == [] then [] else [Trim(line)]
  {
    var t := Trim(line);
    TrimAllAppend(s.lines, [line]);
    assert TrimAll([line]) == [t] by {
      assert [line][..0] == [];
    }
    NonBlankAppend(TrimAll(s.lines), [t]);
    assert NonBlank([t]) == if t == [] then [] else [t] by {
      assert [t][..0] == [];
    }
    Assoc(HeaderPart(s), NonBlank(TrimAll(s.lines)), NonBlank([t]));
  }

  /** A line that is not a header line joins the current section's body. */
  lemma BodyLine(st: Parser, y: string)
    requires y != [] && Trimmed(y) && !Opens(y)
    ensures ParseStep(st, y + "\r").sections == st.sections
    ensures SectionOut(ParseStep(st, y + "\r").current) == SectionOut(st.current) + [y]
  {
    TrimCr(y);
    SectionOutSnoc(st.current, y + "\r");
  }

  /** Lines that are not header lines all join the current section's body. */
  lemma {:induction false} BodyRun(st: Parser, ys: seq<string>)
    requires SolidLines(ys) && forall j {:trigger Opens(ys[j])} :: 0 <= j < |ys| ==> !Opens(ys[j])
    ensures ParseFrom(st, AppendCr(ys)).sections == st.sections
    ensures SectionOut(ParseFrom(st, AppendCr(ys)).current) == SectionOut(st.current) + ys
    decreases |ys|
  {
    if ys == [] {
      assert AppendCr(ys) == [];
      assert SectionOut(st.current) + ys == SectionOut(st.current);
    } else {
      var n := |ys| - 1;
      var init := ys[..n];
      assert SolidLines(init) && forall j {:trigger Opens(init[j])} :: 0 <= j < |init| ==> !Opens(init[j]) by {
        assert forall j :: 0 <= j < |init| ==> init[j] == ys[j];
      }
      BodyRun(st, init);
      var mid := ParseFrom(st, AppendCr(init));
      ParseFromCrSnoc(st, ys);
      assert !Opens(ys[n]);
      BodyLine(mid, ys[n]);
      Assoc(SectionOut(st.current), init, [ys[n]]);
      LastSplit(ys);
    }
  }

  /** A blank line read back adds nothing to any block. */
  lemma BlankLine(st: Parser)
    ensures Outs(ParseStep(st, "\r")) == Outs(st)
  {
    var cr: string := "\r";
    assert !IsHeader(cr);
    assert AllWs(cr);
    assert Trim(cr) == [];
    SectionOutSnoc(st.current, cr);
    var st' := ParseStep(st, cr);
    assert st'.sections == st.sections;
    assert SectionOut(st'.current) == SectionOut(st.current) + [];
    assert SectionOut(st.current) + [] == SectionOut(st.current);
    OutsSnoc(st.sections, st.current);
    OutsSnoc(st'.sections, st'.current);
  }

  /** A header line stores the current section and starts a block of its own. */
  lemma HeaderLine(st: Parser, x: string)
    requires Trimmed(x) && Opens(x)
    ensures Nonempty(SectionOuts(ParseStep(st, x + "\r").sections)) == Outs(st)
    ensures SectionOut(ParseStep(st, x + "\r").current) == [x]
  {
    TrimCr(x);
    var st' := ParseStep(st, x + "\r");
    assert st'.current == Section(x, []);
    assert NonBlank(TrimAll([])) == [];
    if IsEmpty(st.current) {
      assert SectionOut(st.current) == [];
      OutsSnoc(st.sections, st.current);
    }
  }

  /** A block read back from the start, with no header line, fills the first section. */
  lemma FirstRun(g: seq<string>)
    requires g != [] && SolidLines(g) && forall j {:trigger Opens(g[j])} :: 0 <= j < |g| ==> !Opens(g[j])
    ensures Outs(ParseFrom(Start, AppendCr(g))) == [g]
  {
    BodyRun(Start, g);
    var st := ParseFrom(Start, AppendCr(g));
    assert SectionOut(Start.current) == [];
    assert SectionOut(st.current) == g;
    OutsSnoc([], st.current);
    assert [] + [st.current] == [st.current];
    assert st.sections + [st.current] == [st.current];
  }

  /** The loop over lines read back with their '\r', first line first. */
  lemma ParseFromHead(st: Parser, g: seq<string>)
    requires g != []
    ensures ParseFrom(st, AppendCr(g)) == ParseFrom(ParseStep(st, g[0] + "\r"), AppendCr(g[1..]))
  {
    var head: string := g[0] + "\r";
    HeadSplit(g);
    AppendCrAppend([g[0]], g[1..]);
    assert AppendCr([g[0]]) == [head];
    ParseFromAppend(st, [head], AppendCr(g[1..]));
    ParseFromOne(st, head);
  }

  /** A block that opens with a header line starts a section of its own. */
  lemma HeaderRun(st: Parser, g: seq<string>)
    requires Block(g) && Opens(g[0])
    ensures Outs(ParseFrom(st, AppendCr(g))) == Outs(st) + [g]
  {
    var rest := g[1..];
    assert SolidLines(rest) && forall j {:trigger Opens(rest[j])} :: 0 <= j < |rest| ==> !Opens(rest[j]) by {
      forall j | 0 <= j < |rest| ensures !Opens(rest[j]) {
        assert rest[j] == g[j + 1];
      }
    }
    var head: string := g[0] + "\r";
    ParseFromHead(st, g);
    var st1 := ParseStep(st, head);
    HeaderLine(st, g[0]);
    BodyRun(st1, rest);
    var st2 := ParseFrom(st1, AppendCr(rest));
    OutsSnoc(st2.sections, st2.current);
    HeadSplit(g);
  }

  /** A block read back, either opening with a header line or from the start,
      adds itself to the blocks. */
  lemma GroupRun(st: Parser, g: seq<string>)
    requires Block(g) && (Opens(g[0]) || st == Start)
    ensures Outs(ParseFrom(st, AppendCr(g))) == Outs(st) + [g]
  {
    if Opens(g[0]) {
      HeaderRun(st, g);
    } else {
      assert forall j {:trigger Opens(g[j])} :: 0 <= j < |g| ==> !Opens(g[j]);
      FirstRun(g);
      OutsSnoc([], Start.current);
      assert Outs(Start) == [];
    }
  }

  /** The loop over a block and a blank line after some lines. */
  lemma SpreadParse(xs: seq<string>, g: seq<string>)
    ensures ParseFrom(Start, AppendCr(xs + g + [[]]))
         == ParseStep(ParseFrom(ParseFrom(Start, AppendCr(xs)), AppendCr(g)), "\r")
  {
    var cr: string := "\r";
    var x := AppendCr(xs);
    AppendCrAppend(xs + g, [[]]);
    AppendCrAppend(xs, g);
    var blank: string := [];
    assert AppendCr([blank])[0] == blank + cr;
    assert blank + cr == cr;
    assert AppendCr([blank]) == [cr];
    ParseFromAppend(Start, x, AppendCr(g));
    ParseFromAppend(Start, x + AppendCr(g), [cr]);
    ParseFromOne(ParseFrom(ParseFrom(Start, x), AppendCr(g)), cr);
  }

  /** Reading back blocks each followed by a blank line gives those blocks. */
  lemma {:induction false} SpreadRun(bs: seq<seq<string>>)
    requires Blocks(bs)
    ensures Outs(ParseFrom(Start, AppendCr(Spread(bs)))) == bs
    decreases |bs|
  {
    if bs == [] {
      assert AppendCr([]) == [];
      OutsSnoc([], Start.current);
    } else {
      var init, g := bs[..|bs| - 1], bs[|bs| - 1];
      assert Blocks(init) by {
        assert forall k :: 0 <= k < |init| ==> init[k] == bs[k];
      }
      var x := AppendCr(Spread(init));
      var st0 := ParseFrom(Start, x);
      assert Outs(st0) == init by {
        SpreadRun(init);
      }
      var st1 := ParseFrom(st0, AppendCr(g));
      assert Spread(bs) == Spread(init) + g + [[]];
      SpreadParse(Spread(init), g);
      if init == [] {
        assert Spread(init) == [];
        assert x == [];
      }
      assert Opens(g[0]) || st0 == Start;
      GroupRun(st0, g);
      BlankLine(st1);
      LastSplit(bs);
    }
  }

  /** Reading back the blocks' lines, one blank line between two blocks, and
      parsing them gives the blocks again. */
  lemma Reread(bs: seq<seq<string>>)
    requires Blocks(bs)
    ensures Nonempty(SectionOuts(Parse(AppendCr(Paragraphs(bs))))) == bs
  {
    var lines := AppendCr(Paragraphs(bs));
    assert Nonempty(SectionOuts(Parse(lines))) == Outs(ParseFrom(Start, lines)) by {
      ParseUpToFrom(lines);
    }
    if bs == [] {
      assert lines == [];
      OutsSnoc([], Start.current);
    } else {
      var init, g := bs[..|bs| - 1], bs[|bs| - 1];
      assert Blocks(init) by {
        assert forall k :: 0 <= k < |init| ==> init[k] == bs[k];
      }
      var x := AppendCr(Spread(init));
      var st0 := ParseFrom(Start, x);
      assert Outs(st0) == init by {
        SpreadRun(init);
      }
      assert ParseFrom(Start, lines) == ParseFrom(st0, AppendCr(g)) by {
        assert Paragraphs(bs) == Spread(init) + g;
        AppendCrAppend(Spread(init), g);
        ParseFromAppend(Start, x, AppendCr(g));
      }
      if init == [] {
        assert Spread(init) == [];
        assert x == [];
      }
      assert Opens(g[0]) || st0 == Start;
      GroupRun(st0, g);
      LastSplit(bs);
    }
  }

  /** Blocks shaped this way give normal-form text: trimmed '\n'-free lines,
      never a blank one first or two in a row. */
  lemma ParagraphsNormal(bs: seq<seq<string>>)
    requires Blocks(bs)
    ensures NormalLines(Paragraphs(bs))
  {
    assert FilledBlocks(bs) && SolidBlocks(bs) && PlainBlocks(bs);
    ParagraphsShape(bs);
    ParagraphsTrimmed(bs);
    ParagraphsPlain(bs);
  }

  lemma RereadableSnoc(secs: seq<Section>, s: Section)
    requires AllRereadable(secs) && Rereadable(s)
    ensures AllRereadable(secs + [s])
  {
    var r := secs + [s];
    forall k | 0 <= k < |r| ensures Rereadable(r[k]) {
      if k < |secs| {
        assert r[k] == secs[k];
      }
    }
  }

  lemma RereadableBody(c: Section, line: string)
    requires Rereadable(c) && !Opens(Trim(line))
    ensures Rereadable(c.(lines := c.lines + [line]))
  {
    var ls := c.lines + [line];
    forall j | 0 <= j < |ls| ensures !Opens(Trim(ls[j])) {
      if j < |c.lines| {
        assert ls[j] == c.lines[j];
      }
    }
  }

  /** One iteration over a line that carries its '\r' keeps the sections rereadable. */
  lemma StepRereadable(st: Parser, line: string)
    requires CrLine(line) && AllRereadable(st.sections) && Rereadable(st.current)
    ensures AllRereadable(ParseStep(st, line).sections) && Rereadable(ParseStep(st, line).current)
  {
    assert IsHeader(line) == Opens(Trim(line));
    if IsHeader(line) {
      RereadableSnoc(st.sections, st.current);
      assert Rereadable(Section(Trim(line), []));
    } else {
      RereadableBody(st.current, line);
    }
  }

  /** `parseSections` over lines that each carry their '\r' gives rereadable sections. */
  lemma {:induction false} ParseUpToRereadable(lines: seq<string>)
    requires forall k {:trigger CrLine(lines[k])} :: 0 <= k < |lines| ==> CrLine(lines[k])
    ensures AllRereadable(ParseUpTo(lines).sections) && Rereadable(ParseUpTo(lines).current)
    decreases |lines|
  {
    if lines != [] {
      var init, line := lines[..|lines| - 1], lines[|lines| - 1];
      assert forall k {:trigger CrLine(init[k])} :: 0 <= k < |init| ==> CrLine(init[k]) by {
        forall k | 0 <= k < |init| ensures CrLine(init[k]) {
          assert init[k] == lines[k];
        }
      }
      assert CrLine(line);
      ParseUpToRereadable(init);
      StepRereadable(ParseUpTo(init), line);
    }
  }

  lemma ParseRereadable(ls: seq<string>)
    requires TrimmedLines(ls)
    ensures AllRereadable(Parse(AppendCr(ls)))
  {
    var lines := AppendCr(ls);
    forall k | 0 <= k < |lines| ensures CrLine(lines[k]) {
      TrimCr(ls[k]);
    }
    ParseUpToRereadable(lines);
    var st := ParseUpTo(lines);
    assert forall k :: 0 <= k < |st.sections| ==> Parse(lines)[k] == st.sections[k];
  }

  /** The lines that are left after trimming and dropping blank ones are lines of the input. */
  lemma {:induction false} NonBlankIn(xs: seq<string>)
    ensures forall y :: y in NonBlank(xs) ==> y in xs && y != []
    decreases |xs|
  {
    if xs != [] {
      var init := xs[..|xs| - 1];
      NonBlankIn(init);
      assert xs == init + [xs[|xs| - 1]];
    }
  }

  /** What a rereadable section writes is a block, opening with its header when it has one. */
  lemma SectionBlock(s: Section)
    requires Trimmed(s.header) && '\n' !in s.header && NoNewlines(s.lines) && Rereadable(s)
    requires SectionOut(s) != []
    ensures Block(SectionOut(s))
    ensures s.header != [] ==> Opens(SectionOut(s)[0])
  {
    SectionOutSolid(s);
    SectionOutPlain(s);
    var o, h, t := SectionOut(s), HeaderPart(s), TrimAll(s.lines);
    var body := NonBlank(t);
    NonBlankIn(t);
    forall j | |h| <= j < |o| ensures !Opens(o[j]) {
      var y := o[j];
      assert y == body[j - |h|];
      assert y in t;
      var i :| 0 <= i < |t| && t[i] == y;
      TrimAllIndex(s.lines, i);
    }
  }

  lemma BlocksSnoc(bs: seq<seq<string>>, b: seq<string>)
    requires Blocks(bs) && Block(b) && (bs != [] ==> Opens(b[0]))
    ensures Blocks(bs + [b])
  {
    var r := bs + [b];
    forall k | 0 <= k < |r| ensures Block(r[k]) && (k > 0 ==> Opens(r[k][0])) {
      if k < |bs| {
        assert r[k] == bs[k];
      }
    }
  }

  lemma {:induction false} NonemptyBlocks(outs: seq<seq<string>>)
    requires forall k :: 0 <= k < |outs| && outs[k] != [] ==> Block(outs[k]) && (k > 0 ==> Opens(outs[k][0]))
    ensures Blocks(Nonempty(outs))
    decreases |outs|
  {
    if outs != [] {
      var n := |outs| - 1;
      var init, o := outs[..n], outs[n];
      assert forall k :: 0 <= k < |init| && init[k] != [] ==> Block(init[k]) && (k > 0 ==> Opens(init[k][0])) by {
        assert forall k :: 0 <= k < |init| ==> init[k] == outs[k];
      }
      NonemptyBlocks(init);
      var ne := Nonempty(init);
      if init == [] {
        assert ne == [];
      }
      if o != [] {
        BlocksSnoc(ne, o);
      } else {
        assert Nonempty(outs) == ne + [];
      }
    }
  }

  /** The sections read from CRLF text write blocks that read back one section each. */
  lemma OutsBlocks(secs: seq<Section>)
    requires TrimmedHeaders(secs) && PlainSections(secs) && AllRereadable(secs)
    requires forall k :: 0 < k < |secs| ==> secs[k].header != []
    ensures Blocks(Nonempty(SectionOuts(secs)))
  {
    var outs := SectionOuts(secs);
    forall k | 0 <= k < |outs| && outs[k] != []
      ensures Block(outs[k]) && (k > 0 ==> Opens(outs[k][0]))
    {
      SectionBlock(secs[k]);
    }
    NonemptyBlocks(outs);
  }
}
