/**
 * What the text `rebuildBuffer` returns looks like: the lines of the sections
 * that wrote something, one blank line between two such sections, and nothing
 * after the last one but a single CRLF.
 */
module RebuildShape {
  import opened Text
  import opened Streams
  import opened Seqs
  import opened Sections
  import opened SectionContent
  import opened Whitespace
  import opened Rebuild

  /** The blocks that are not empty, in order. */
  function Nonempty(outs: seq<seq<string>>): seq<seq<string>> {
    if outs == [] then []
    else
      var last := outs[|outs| - 1];
      Nonempty(outs[..|outs| - 1]) + if last == [] then [] else [last]
  }

  /** Every block followed by a blank line. */
  function Spread(bs: seq<seq<string>>): seq<string> {
    if bs == [] then [] else Spread(bs[..|bs| - 1]) + bs[|bs| - 1] + [[]]
  }

  /** The blocks with one blank line between two neighbours and none after the last. */
  function Paragraphs(bs: seq<seq<string>>): seq<string> {
    if bs == [] then [] else Spread(bs[..|bs| - 1]) + bs[|bs| - 1]
  }

  /** The lines of all blocks, in order. */
  function Concat(bs: seq<seq<string>>): seq<string> {
    if bs == [] then [] else Concat(bs[..|bs| - 1]) + bs[|bs| - 1]
  }

  predicate SolidBlocks(bs: seq<seq<string>>) {
    forall k :: 0 <= k < |bs| ==> SolidLines(bs[k])
  }

  /** Blocks that are not empty and hold only trimmed, non-blank lines. */
  predicate FilledBlocks(bs: seq<seq<string>>) {
    forall k :: 0 <= k < |bs| ==> bs[k] != [] && SolidLines(bs[k])
  }

  predicate PlainBlocks(bs: seq<seq<string>>) {
    forall k :: 0 <= k < |bs| ==> NoNewlines(bs[k])
  }

  lemma NonemptyStep(outs: seq<seq<string>>, i: nat)
    requires i < |outs|
    ensures Nonempty(outs[..i + 1]) == Nonempty(outs[..i]) + if outs[i] == [] then [] else [outs[i]]
  {
    TakeOfTake(outs, i);
  }

  lemma SpreadSnoc(bs: seq<seq<string>>, b: seq<string>)
    ensures Spread(bs + [b]) == Spread(bs) + b + [[]]
  {
    SnocTake(bs, b);
  }

  lemma ParagraphsSnoc(bs: seq<seq<string>>, b: seq<string>)
    ensures Paragraphs(bs + [b]) == Spread(bs) + b
  {
    SnocTake(bs, b);
  }

  lemma ConcatSnoc(bs: seq<seq<string>>, b: seq<string>)
    ensures Concat(bs + [b]) == Concat(bs) + b
  {
    SnocTake(bs, b);
  }

  /** Before the last turn, the outer loop has written every non-empty block followed by a blank line. */
  lemma {:induction false} LayoutSpread(outs: seq<seq<string>>, i: nat)
    requires i < |outs|
    ensures Layout(outs, i) == Spread(Nonempty(outs[..i]))
    decreases i
  {
    if i == 0 {
      assert outs[..0] == [];
    } else {
      var n := i - 1;
      LayoutSpread(outs, n);
      LayoutStep(outs, n);
      NonemptyStep(outs, n);
      if outs[n] != [] {
        SpreadSnoc(Nonempty(outs[..n]), outs[n]);
      } else {
        assert Gap(outs, n) == [];
        assert Layout(outs, n) + outs[n] + Gap(outs, n) == Layout(outs, n);
        assert Nonempty(outs[..n]) + [] == Nonempty(outs[..n]);
      }
    }
  }

  /** Cutting after the last non-stripped character of a line that ends with one. */
  lemma TruncateAfter(a: string, l: string, tail: string)
    requires l != [] && !IsWs(l[|l| - 1]) && AllWs(tail)
    ensures Truncate(a + l + tail) == a + l + "\r\n"
  {
    var s := a + l + tail;
    var p := |a| + |l| - 1;
    assert s[p] == l[|l| - 1];
    forall k | p < k < |s| ensures IsWs(s[k]) {
      assert s[k] == tail[k - |a| - |l|];
    }
    FindLastNotOfAt(s, p);
    assert s[..p + 1] == a + l;
  }

  /** Text whose last line is trimmed and not blank is left as it is by the cut,
      and so is the same text with one more CRLF. */
  lemma TruncateSolid(ls: seq<string>)
    requires ls != [] && ls[|ls| - 1] != [] && Trimmed(ls[|ls| - 1])
    ensures Truncate(JoinCrlf(ls)) == JoinCrlf(ls)
    ensures Truncate(JoinCrlf(ls) + "\r\n") == JoinCrlf(ls)
  {
    var l := ls[|ls| - 1];
    var crlf: string := "\r\n";
    var a := JoinCrlf(ls[..|ls| - 1]);
    assert AllWs(crlf);
    assert JoinCrlf(ls) == a + l + crlf by {
      JoinCrlfLast(ls);
    }
    assert Truncate(a + l + crlf) == a + l + crlf by {
      TruncateAfter(a, l, crlf);
    }
    assert Truncate(JoinCrlf(ls) + crlf) == a + l + crlf by {
      AllWsConcat(crlf, crlf);
      TruncateAfter(a, l, crlf + crlf);
      Assoc(a + l, crlf, crlf);
    }
  }

  lemma {:induction false} NonemptyFilled(outs: seq<seq<string>>)
    requires SolidBlocks(outs)
    ensures FilledBlocks(Nonempty(outs))
    decreases |outs|
  {
    if outs != [] {
      var init := outs[..|outs| - 1];
      assert SolidBlocks(init) by {
        assert forall k :: 0 <= k < |init| ==> init[k] == outs[k];
      }
      NonemptyFilled(init);
    }
  }

  lemma {:induction false} NonemptyPlain(outs: seq<seq<string>>)
    requires PlainBlocks(outs)
    ensures PlainBlocks(Nonempty(outs))
    decreases |outs|
  {
    if outs != [] {
      var init := outs[..|outs| - 1];
      assert PlainBlocks(init) by {
        assert forall k :: 0 <= k < |init| ==> init[k] == outs[k];
      }
      NonemptyPlain(init);
    }
  }

  /** The cut drops the blank line written after the last block that wrote something. */
  lemma TruncateLayout(outs: seq<seq<string>>)
    requires SolidBlocks(outs)
    ensures Truncate(JoinCrlf(Layout(outs, |outs|))) == JoinCrlf(Paragraphs(Nonempty(outs)))
  {
    if outs != [] {
      var n := |outs| - 1;
      var ne := Nonempty(outs[..n]);
      LayoutSpread(outs, n);
      LayoutStep(outs, n);
      NonemptyStep(outs, n);
      TakeAll(outs);
      NonemptyFilled(outs);
      assert Gap(outs, n) == [];
      if outs[n] != [] {
        assert Layout(outs, |outs|) == Spread(ne) + outs[n];
        assert Nonempty(outs) == ne + [outs[n]];
        TruncateLast(ne, outs[n]);
      } else {
        assert Layout(outs, |outs|) == Spread(ne);
        assert Nonempty(outs) == ne;
        TruncateSpread(ne);
      }
    }
  }

  /** The last block wrote something: nothing is cut. */
  lemma TruncateLast(ne: seq<seq<string>>, b: seq<string>)
    requires b != [] && SolidLines(b)
    ensures Truncate(JoinCrlf(Spread(ne) + b)) == JoinCrlf(Paragraphs(ne + [b]))
  {
    ParagraphsSnoc(ne, b);
    var ls := Spread(ne) + b;
    assert ls[|ls| - 1] == b[|b| - 1];
    TruncateSolid(ls);
  }

  /** The last block wrote nothing: the blank line after the last block that did is cut. */
  lemma TruncateSpread(ne: seq<seq<string>>)
    requires FilledBlocks(ne)
    ensures Truncate(JoinCrlf(Spread(ne))) == JoinCrlf(Paragraphs(ne))
  {
    if ne != [] {
      var ne', b := ne[..|ne| - 1], ne[|ne| - 1];
      var ls := Spread(ne') + b;
      assert Spread(ne) == ls + [[]];
      assert Paragraphs(ne) == ls;
      assert b != [] && SolidLines(b);
      assert ls[|ls| - 1] == b[|b| - 1];
      JoinCrlfBlank(ls);
      TruncateSolid(ls);
    }
  }

  /** Appending a block of non-blank lines keeps the lines spaced, with or
      without a blank line after it. */
  lemma SpacedAppend(x: seq<string>, b: seq<string>)
    requires Spaced(x) && (x != [] ==> x[|x| - 1] == [])
    requires b != [] && forall k :: 0 <= k < |b| ==> b[k] != []
    ensures Spaced(x + b) && Spaced(x + b + [[]])
  {
    var y := x + b;
    forall k | 0 <= k < |y| - 1 ensures y[k] != [] || y[k + 1] != [] {
      if k + 1 < |x| {
        assert y[k] == x[k] && y[k + 1] == x[k + 1];
      } else {
        assert y[k + 1] == b[k + 1 - |x|];
      }
    }
    if x == [] {
      assert y[0] == b[0];
    } else {
      assert y[0] == x[0];
    }
    var z := y + [[]];
    forall k | 0 <= k < |z| - 1 ensures z[k] != [] || z[k + 1] != [] {
      if k < |y| - 1 {
        assert z[k] == y[k] && z[k + 1] == y[k + 1];
      } else {
        assert z[k] == b[|b| - 1];
      }
    }
    assert z[0] == y[0];
  }

  lemma {:induction false} SpreadShape(bs: seq<seq<string>>)
    requires FilledBlocks(bs)
    ensures Spaced(Spread(bs))
    ensures Spread(bs) != [] ==> Spread(bs)[|Spread(bs)| - 1] == []
    decreases |bs|
  {
    if bs != [] {
      var init, b := bs[..|bs| - 1], bs[|bs| - 1];
      assert FilledBlocks(init) by {
        assert forall k :: 0 <= k < |init| ==> init[k] == bs[k];
      }
      SpreadShape(init);
      SpacedAppend(Spread(init), b);
    }
  }

  /** The paragraphs of non-empty blocks: no blank line first, none last, never two in a row. */
  lemma ParagraphsShape(bs: seq<seq<string>>)
    requires FilledBlocks(bs)
    ensures Spaced(Paragraphs(bs))
    ensures Paragraphs(bs) == [] <==> bs == []
    ensures bs != [] ==> Paragraphs(bs)[|Paragraphs(bs)| - 1] != [] && Trimmed(Paragraphs(bs)[|Paragraphs(bs)| - 1])
  {
    if bs != [] {
      var init, b := bs[..|bs| - 1], bs[|bs| - 1];
      assert FilledBlocks(init) by {
        assert forall k :: 0 <= k < |init| ==> init[k] == bs[k];
      }
      SpreadShape(init);
      SpacedAppend(Spread(init), b);
      var p := Spread(init) + b;
      assert p[|p| - 1] == b[|b| - 1];
    }
  }

  lemma NoNewlinesGap(x: seq<string>)
    requires NoNewlines(x)
    ensures NoNewlines(x + [[]])
  {
    assert forall k :: 0 <= k < |x| ==> (x + [[]])[k] == x[k];
  }

  lemma {:induction false} SpreadPlain(bs: seq<seq<string>>)
    requires PlainBlocks(bs)
    ensures NoNewlines(Spread(bs))
    decreases |bs|
  {
    if bs != [] {
      var init, b := bs[..|bs| - 1], bs[|bs| - 1];
      assert PlainBlocks(init) by {
        assert forall k :: 0 <= k < |init| ==> init[k] == bs[k];
      }
      SpreadPlain(init);
      NoNewlinesConcat(Spread(init), b);
      NoNewlinesGap(Spread(init) + b);
    }
  }

  lemma ParagraphsPlain(bs: seq<seq<string>>)
    requires PlainBlocks(bs)
    ensures NoNewlines(Paragraphs(bs))
  {
    if bs != [] {
      var init := bs[..|bs| - 1];
      assert PlainBlocks(init) by {
        assert forall k :: 0 <= k < |init| ==> init[k] == bs[k];
      }
      SpreadPlain(init);
      NoNewlinesConcat(Spread(init), bs[|bs| - 1]);
    }
  }

  lemma TrimmedAppend(x: seq<string>, b: seq<string>)
    requires TrimmedLines(x) && SolidLines(b)
    ensures TrimmedLines(x + b) && TrimmedLines(x + b + [[]])
  {
    assert forall k :: 0 <= k < |x| ==> (x + b)[k] == x[k];
    assert forall k :: 0 <= k < |b| ==> (x + b)[|x| + k] == b[k];
    assert forall k :: 0 <= k < |x + b| ==> (x + b + [[]])[k] == (x + b)[k];
  }

  lemma {:induction false} SpreadTrimmed(bs: seq<seq<string>>)
    requires SolidBlocks(bs)
    ensures TrimmedLines(Spread(bs))
    decreases |bs|
  {
    if bs != [] {
      var init := bs[..|bs| - 1];
      assert SolidBlocks(init) by {
        assert forall k :: 0 <= k < |init| ==> init[k] == bs[k];
      }
      SpreadTrimmed(init);
      TrimmedAppend(Spread(init), bs[|bs| - 1]);
    }
  }

  lemma ParagraphsTrimmed(bs: seq<seq<string>>)
    requires SolidBlocks(bs)
    ensures TrimmedLines(Paragraphs(bs))
  {
    if bs != [] {
      var init := bs[..|bs| - 1];
      assert SolidBlocks(init) by {
        assert forall k :: 0 <= k < |init| ==> init[k] == bs[k];
      }
      SpreadTrimmed(init);
      TrimmedAppend(Spread(init), bs[|bs| - 1]);
    }
  }

  /** The non-blank lines of `Spread` and of `Paragraphs` are the blocks' lines, in order. */
  lemma {:induction false} SpreadContent(bs: seq<seq<string>>)
    requires FilledBlocks(bs)
    ensures NonBlank(Spread(bs)) == Concat(bs)
    decreases |bs|
  {
    if bs != [] {
      var init, b := bs[..|bs| - 1], bs[|bs| - 1];
      assert FilledBlocks(init) by {
        assert forall k :: 0 <= k < |init| ==> init[k] == bs[k];
      }
      SpreadContent(init);
      NonBlankGap(Spread(init) + b);
      NonBlankAppend(Spread(init), b);
      NonBlankSolid(b);
    }
  }

  lemma ParagraphsContent(bs: seq<seq<string>>)
    requires FilledBlocks(bs)
    ensures NonBlank(Paragraphs(bs)) == Concat(bs)
  {
    if bs != [] {
      var init, b := bs[..|bs| - 1], bs[|bs| - 1];
      assert FilledBlocks(init) by {
        assert forall k :: 0 <= k < |init| ==> init[k] == bs[k];
      }
      SpreadContent(init);
      NonBlankAppend(Spread(init), b);
      NonBlankSolid(b);
    }
  }

  lemma {:induction false} ConcatNonempty(outs: seq<seq<string>>)
    ensures Concat(Nonempty(outs)) == Concat(outs)
    decreases |outs|
  {
    if outs != [] {
      var init, b := outs[..|outs| - 1], outs[|outs| - 1];
      ConcatNonempty(init);
      if b != [] {
        ConcatSnoc(Nonempty(init), b);
      } else {
        assert Nonempty(outs) == Nonempty(init);
        assert Concat(outs) == Concat(init) + [];
      }
    }
  }

  lemma {:induction false} NonemptyEmpty(outs: seq<seq<string>>)
    ensures Nonempty(outs) == [] <==> forall k :: 0 <= k < |outs| ==> outs[k] == []
    decreases |outs|
  {
    if outs != [] {
      var init := outs[..|outs| - 1];
      NonemptyEmpty(init);
      assert forall k :: 0 <= k < |init| ==> init[k] == outs[k];
    }
  }

  /** Sections whose headers are trimmed (as `parseSections` stores them). */
  predicate TrimmedHeaders(secs: seq<Section>) {
    forall k :: 0 <= k < |secs| ==> Trimmed(secs[k].header)
  }

  /** Sections with no '\n' in any header or body line (as `getline` leaves them). */
  predicate PlainSections(secs: seq<Section>) {
    forall k :: 0 <= k < |secs| ==> '\n' !in secs[k].header && NoNewlines(secs[k].lines)
  }

  lemma SectionOutSolid(s: Section)
    requires Trimmed(s.header)
    ensures SolidLines(SectionOut(s))
  {
    NonBlankTrimAllSolid(s.lines);
    SolidConcat(HeaderPart(s), NonBlank(TrimAll(s.lines)));
  }

  lemma SectionOutPlain(s: Section)
    requires '\n' !in s.header && NoNewlines(s.lines)
    ensures NoNewlines(SectionOut(s))
  {
    NonBlankTrimAllPlain(s.lines);
    NoNewlinesConcat(HeaderPart(s), NonBlank(TrimAll(s.lines)));
  }

  /** A section writes nothing exactly when it has no header and only blank lines. */
  lemma SectionOutEmpty(s: Section)
    ensures SectionOut(s) == [] <==> BlankSection(s)
  {
    NonBlankTrimAllEmpty(s.lines);
  }

  lemma OutsSolid(secs: seq<Section>)
    requires TrimmedHeaders(secs)
    ensures SolidBlocks(SectionOuts(secs))
  {
    forall k | 0 <= k < |secs| ensures SolidLines(SectionOuts(secs)[k]) {
      SectionOutSolid(secs[k]);
    }
  }

  lemma OutsPlain(secs: seq<Section>)
    requires PlainSections(secs)
    ensures PlainBlocks(SectionOuts(secs))
  {
    forall k | 0 <= k < |secs| ensures NoNewlines(SectionOuts(secs)[k]) {
      SectionOutPlain(secs[k]);
    }
  }

  /** The rebuilt text, as lines: the non-empty sections' lines with one blank line between two sections. */
  lemma RebuiltParagraphs(secs: seq<Section>)
    requires TrimmedHeaders(secs)
    ensures Rebuilt(secs) == JoinCrlf(Paragraphs(Nonempty(SectionOuts(secs))))
  {
    OutsSolid(secs);
    TruncateLayout(SectionOuts(secs));
  }

  /** The rebuilt text is empty exactly when no section has a header or a non-blank line. */
  lemma RebuiltEmpty(secs: seq<Section>)
    requires TrimmedHeaders(secs)
    ensures Rebuilt(secs) == [] <==> AllBlank(secs)
  {
    var outs := SectionOuts(secs);
    RebuiltParagraphs(secs);
    OutsSolid(secs);
    NonemptyFilled(outs);
    ParagraphsShape(Nonempty(outs));
    JoinCrlfEmpty(Paragraphs(Nonempty(outs)));
    NonemptyEmpty(outs);
    forall k | 0 <= k < |secs| ensures outs[k] == [] <==> BlankSection(secs[k]) {
      SectionOutEmpty(secs[k]);
    }
  }

  /** A non-empty rebuilt text starts with a visible character and ends with
      exactly one CRLF, and it never holds two blank lines in a row. */
  lemma RebuiltEnding(secs: seq<Section>)
    requires TrimmedHeaders(secs) && PlainSections(secs)
    ensures Rebuilt(secs) != [] ==> !IsWs(Rebuilt(secs)[0])
    ensures Rebuilt(secs) != [] ==> EndsWith(Rebuilt(secs), "\r\n") && !EndsWith(Rebuilt(secs), "\r\n\r\n")
    ensures !HasBlankRun(Rebuilt(secs))
  {
    var outs := SectionOuts(secs);
    var p := Paragraphs(Nonempty(outs));
    RebuiltParagraphs(secs);
    OutsSolid(secs);
    OutsPlain(secs);
    NonemptyFilled(outs);
    NonemptyPlain(outs);
    ParagraphsShape(Nonempty(outs));
    ParagraphsPlain(Nonempty(outs));
    NoBlankRun(p);
    if p != [] {
      JoinCrlfEnding(p);
      ParagraphsTrimmed(Nonempty(outs));
      JoinCrlfCons(p);
      assert Trimmed(p[0]) && p[0] != [];
    }
  }

  /** No visible text is lost, duplicated or reordered: the non-blank lines of
      the rebuilt text are the headers and the trimmed non-blank body lines of
      the sections, in order. */
  lemma RebuiltContent(secs: seq<Section>)
    requires TrimmedHeaders(secs)
    ensures NonBlank(Paragraphs(Nonempty(SectionOuts(secs)))) == NonBlank(TrimAll(Flatten(secs)))
  {
    var outs := SectionOuts(secs);
    OutsSolid(secs);
    NonemptyFilled(outs);
    ParagraphsContent(Nonempty(outs));
    ConcatNonempty(outs);
    OutsFlatten(secs);
  }

  /** A section writes its header and its trimmed non-blank body lines. */
  lemma SectionOutLines(s: Section)
    requires Trimmed(s.header)
    ensures SectionOut(s) == NonBlank(TrimAll(SectionLines(s)))
  {
    TrimAllAppend(HeaderPart(s), s.lines);
    NonBlankAppend(TrimAll(HeaderPart(s)), TrimAll(s.lines));
    if s.header != [] {
      TrimTrimmed(s.header);
      assert TrimAll(HeaderPart(s)) == [s.header];
      NonBlankSolid([s.header]);
    }
  }

  /** Blocks made from pieces by trimming and dropping blank lines concatenate
      to the concatenated pieces, trimmed and with blank lines dropped. */
  lemma {:induction false} ConcatPieces(outs: seq<seq<string>>, pieces: seq<seq<string>>)
    requires |outs| == |pieces|
    requires forall k :: 0 <= k < |outs| ==> outs[k] == NonBlank(TrimAll(pieces[k]))
    ensures Concat(outs) == NonBlank(TrimAll(Concat(pieces)))
    decreases |outs|
  {
    if outs != [] {
      var n := |outs| - 1;
      ConcatPieces(outs[..n], pieces[..n]);
      var a, b := Concat(pieces[..n]), pieces[n];
      TrimAllAppend(a, b);
      NonBlankAppend(TrimAll(a), TrimAll(b));
    }
  }

  lemma {:induction false} FlattenConcat(secs: seq<Section>, pieces: seq<seq<string>>)
    requires |pieces| == |secs|
    requires forall k :: 0 <= k < |secs| ==> pieces[k] == SectionLines(secs[k])
    ensures Flatten(secs) == Concat(pieces)
    decreases |secs|
  {
    if secs != [] {
      var n := |secs| - 1;
      FlattenConcat(secs[..n], pieces[..n]);
    }
  }

  lemma OutsFlatten(secs: seq<Section>)
    requires TrimmedHeaders(secs)
    ensures Concat(SectionOuts(secs)) == NonBlank(TrimAll(Flatten(secs)))
  {
    var pieces := seq(|secs|, k requires 0 <= k < |secs| => SectionLines(secs[k]));
    forall k | 0 <= k < |secs| ensures SectionOuts(secs)[k] == NonBlank(TrimAll(pieces[k])) {
      SectionOutLines(secs[k]);
    }
    ConcatPieces(SectionOuts(secs), pieces);
    FlattenConcat(secs, pieces);
  }
}
