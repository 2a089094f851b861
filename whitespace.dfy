/**
 * `formatWhitespace` (src/PluginDefinition.cpp): trims every line, keeps at
 * most one blank line between non-blank ones, never starts with a blank line,
 * and terminates every emitted line with CRLF.
 */
module Whitespace {
  import opened Text
  import opened Streams
  import opened Seqs

  /** One iteration of the loop: a non-blank line is emitted trimmed; a blank
      line is emitted only when something was emitted and the last emitted line
      was not blank. */
  function WsStep(out: seq<string>, line: string): seq<string> {
    var t := Trim(line);
    if t != [] then out + [t]
    else if out == [] || out[|out| - 1] == [] then out
    else out + [[]]
  }

  /** The lines emitted after the loop has run over `lines`. */
  function WsLines(lines: seq<string>): seq<string>
    decreases |lines|
  {
    if lines == [] then [] else WsStep(WsLines(lines[..|lines| - 1]), lines[|lines| - 1])
  }

  lemma WsLinesSnoc(lines: seq<string>, i: nat)
    requires i < |lines|
    ensures WsLines(lines[..i + 1]) == WsStep(WsLines(lines[..i]), lines[i])
  {
    TakeOfTake(lines, i);
  }

  /** What one iteration appends to the emitted lines and to the text. */
  lemma WsStepEmits(out: seq<string>, line: string)
    ensures Trim(line) != [] ==>
      (WsStep(out, line) == out + [Trim(line)] && JoinCrlf(WsStep(out, line)) == JoinCrlf(out) + Trim(line) + "\r\n")
    ensures Trim(line) == [] && (out == [] || out[|out| - 1] == []) ==> WsStep(out, line) == out
    ensures Trim(line) == [] && out != [] && out[|out| - 1] != [] ==>
      (WsStep(out, line) == out + [[]] && JoinCrlf(WsStep(out, line)) == JoinCrlf(out) + "\r\n")
  {
    JoinCrlfSnoc(out, Trim(line));
    JoinCrlfSnoc(out, []);
  }

  /** The text `formatWhitespace` returns. */
  function FormatWs(text: string): string {
    JoinCrlf(WsLines(GetLines(text)))
  }

  /** The shape of `formatWhitespace`'s lines: each one trimmed (possibly blank)
      and '\n'-free, no blank line first, no two blank lines in a row. */
  predicate NormalLines(ls: seq<string>) {
    && (forall k :: 0 <= k < |ls| ==> Trimmed(ls[k]) && '\n' !in ls[k])
    && Spaced(ls)
  }

  /** The body of the loop: what `lastWasEmpty` and the trimmed line call for is appended. */
  method WsEmit(result: string, lastWasEmpty: bool, line: string, ghost out: seq<string>)
    returns (r: string, nowEmpty: bool)
    requires result == JoinCrlf(out)
    requires lastWasEmpty <==> out != [] && out[|out| - 1] == []
    ensures r == JoinCrlf(WsStep(out, line))
    ensures nowEmpty <==> WsStep(out, line) != [] && WsStep(out, line)[|WsStep(out, line)| - 1] == []
  {
    r, nowEmpty := result, lastWasEmpty;
    var trimmed := Trim(line);
    if trimmed == [] {
      if !lastWasEmpty && result != [] {
        JoinCrlfBlank(out);
        r := r + "\r\n";
        nowEmpty := true;
      }
    } else {
      JoinCrlfSnoc(out, trimmed);
      r := r + trimmed + "\r\n";
      nowEmpty := false;
    }
  }

  method FormatWhitespace(buffer: string) returns (result: string)
    ensures result == FormatWs(buffer)
    ensures NormalLines(WsLines(GetLines(buffer)))
    ensures result == [] <==> AllWs(buffer)
  {
    var lines := GetLines(buffer);
    result := [];
    var lastWasEmpty := false;
    ghost var out: seq<string> := [];
    var i := 0;
    while i < |lines|
      invariant 0 <= i <= |lines|
      invariant out == WsLines(lines[..i])
      invariant result == JoinCrlf(out)
      invariant lastWasEmpty <==> out != [] && out[|out| - 1] == []
    {
      WsLinesSnoc(lines, i);
      result, lastWasEmpty := WsEmit(result, lastWasEmpty, lines[i], out);
      out := WsStep(out, lines[i]);
      i := i + 1;
    }
    TakeAll(lines);
    WsLinesNormal(lines);
    FormatWsEmpty(buffer);
  }

  lemma {:induction false} WsLinesNormal(lines: seq<string>)
    requires NoNewlines(lines)
    ensures NormalLines(WsLines(lines))
    decreases |lines|
  {
    if lines != [] {
      var init := lines[..|lines| - 1];
      WsLinesNormal(init);
      TrimKeepsOut(lines[|lines| - 1], '\n');
    }
  }

  /** Nothing is emitted exactly when every line is blank. */
  lemma {:induction false} WsLinesBlank(lines: seq<string>)
    ensures WsLines(lines) == [] <==> BlankLines(lines)
    decreases |lines|
  {
    if lines != [] {
      var init := lines[..|lines| - 1];
      WsLinesBlank(init);
      assert forall k :: 0 <= k < |init| ==> init[k] == lines[k];
    }
  }

  /** Each line with its trimming applied. */
  function TrimAll(lines: seq<string>): (r: seq<string>)
    ensures |r| == |lines|
  {
    if lines == [] then [] else TrimAll(lines[..|lines| - 1]) + [Trim(lines[|lines| - 1])]
  }

  /** The non-blank lines, in order. */
  function NonBlank(ls: seq<string>): seq<string> {
    if ls == [] then []
    else NonBlank(ls[..|ls| - 1]) + (if ls[|ls| - 1] == [] then [] else [ls[|ls| - 1]])
  }

  /** No text is lost or reordered: the non-blank output lines are the trimmed
      non-blank input lines, in order. */
  lemma {:induction false} WsLinesContent(lines: seq<string>)
    ensures NonBlank(WsLines(lines)) == NonBlank(TrimAll(lines))
    decreases |lines|
  {
    if lines != [] {
      var init := lines[..|lines| - 1];
      WsLinesContent(init);
      var out := WsLines(init);
      var t := Trim(lines[|lines| - 1]);
      assert TrimAll(lines) == TrimAll(init) + [t];
      assert (TrimAll(init) + [t])[..|init|] == TrimAll(init);
      if t != [] {
        assert (out + [t])[..|out|] == out;
      } else if !(out == [] || out[|out| - 1] == []) {
        assert (out + [[]])[..|out|] == out;
      }
    }
  }

  /** A trimmed line read back with its '\r' trims to itself. */
  lemma TrimCr(l: string)
    requires Trimmed(l)
    ensures Trim(l + "\r") == l
  {
    assert AllWs("\r");
    assert [] + l + "\r" == l + "\r";
    TrimOfPadded([], l, "\r");
  }

  /** A trimmed line read back with its '\r' is appended as it was, a blank one
      only after a non-blank line. */
  lemma WsStepCr(init: seq<string>, l: string)
    requires Trimmed(l)
    requires l == [] ==> init != [] && init[|init| - 1] != []
    ensures WsStep(init, l + "\r") == init + [l]
  {
    TrimCr(l);
  }

  /** The last normal line, read back with its '\r', is emitted as it was. */
  lemma WsStepNormal(ls: seq<string>)
    requires NormalLines(ls) && ls != []
    ensures WsStep(ls[..|ls| - 1], ls[|ls| - 1] + "\r") == ls
  {
    var init, l := ls[..|ls| - 1], ls[|ls| - 1];
    assert Trimmed(l);
    if l == [] {
      assert |ls| >= 2 && ls[|ls| - 2] != [];
      assert init[|init| - 1] == ls[|ls| - 2];
    }
    WsStepCr(init, l);
    assert ls == init + [l];
  }

  lemma AppendCrInit(ls: seq<string>)
    requires ls != []
    ensures AppendCr(ls)[..|ls| - 1] == AppendCr(ls[..|ls| - 1])
  {
  }

  lemma {:induction false} WsLinesFixpoint(ls: seq<string>)
    requires NormalLines(ls)
    ensures WsLines(AppendCr(ls)) == ls
    decreases |ls|
  {
    if ls != [] {
      var n := |ls|;
      var init, l := ls[..n - 1], ls[n - 1];
      assert NormalLines(init) by {
        assert forall k :: 0 <= k < |init| ==> init[k] == ls[k];
      }
      WsLinesFixpoint(init);
      AppendCrInit(ls);
      WsStepNormal(ls);
    }
  }

  /** `formatWhitespace` is idempotent. */
  lemma FormatWsIdempotent(text: string)
    ensures FormatWs(FormatWs(text)) == FormatWs(text)
  {
    var ls := WsLines(GetLines(text));
    WsLinesNormal(GetLines(text));
    GetLinesOfCrlf(ls);
    WsLinesFixpoint(ls);
  }

  /** The result is blank exactly when the input has no character other than
      space, tab, CR and LF. */
  lemma FormatWsEmpty(text: string)
    ensures FormatWs(text) == [] <==> AllWs(text)
  {
    WsLinesBlank(GetLines(text));
    AllWsGetLines(text);
  }

  lemma TrimAllAppend(a: seq<string>, b: seq<string>)
    ensures TrimAll(a + b) == TrimAll(a) + TrimAll(b)
  {
    var t, ta, tb := TrimAll(a + b), TrimAll(a), TrimAll(b);
    forall k | 0 <= k < |a + b| ensures t[k] == (ta + tb)[k] {
      TrimAllIndex(a + b, k);
      if k < |a| {
        assert (a + b)[k] == a[k];
        TrimAllIndex(a, k);
      } else {
        assert (a + b)[k] == b[k - |a|];
        TrimAllIndex(b, k - |a|);
      }
    }
  }

  lemma {:induction false} NonBlankAppend(a: seq<string>, b: seq<string>)
    ensures NonBlank(a + b) == NonBlank(a) + NonBlank(b)
    decreases |b|
  {
    if b == [] {
      assert a + b == a;
    } else {
      var init := b[..|b| - 1];
      NonBlankAppend(a, init);
      assert (a + b)[..|a + b| - 1] == a + init;
    }
  }

  lemma NonBlankGap(x: seq<string>)
    ensures NonBlank(x + [[]]) == NonBlank(x)
  {
    assert (x + [[]])[..|x|] == x;
  }

  /** Lines that are all non-blank are kept as they are. */
  lemma {:induction false} NonBlankSolid(ls: seq<string>)
    requires SolidLines(ls)
    ensures NonBlank(ls) == ls
    decreases |ls|
  {
    if ls != [] {
      var init := ls[..|ls| - 1];
      assert SolidLines(init) by {
        assert forall k :: 0 <= k < |init| ==> init[k] == ls[k];
      }
      NonBlankSolid(init);
    }
  }

  /** The trimmed non-blank lines are trimmed and not blank. */
  lemma {:induction false} NonBlankTrimAllSolid(ls: seq<string>)
    ensures SolidLines(NonBlank(TrimAll(ls)))
    decreases |ls|
  {
    if ls != [] {
      var init := ls[..|ls| - 1];
      NonBlankTrimAllSolid(init);
      var t := TrimAll(ls);
      assert t[..|t| - 1] == TrimAll(init);
      var n := NonBlank(TrimAll(init));
      if t[|t| - 1] != [] {
        SolidConcat(n, [t[|t| - 1]]);
      }
    }
  }

  /** Trimming keeps '\n' out of lines that had none. */
  lemma {:induction false} NonBlankTrimAllPlain(ls: seq<string>)
    requires NoNewlines(ls)
    ensures NoNewlines(NonBlank(TrimAll(ls)))
    decreases |ls|
  {
    if ls != [] {
      var init := ls[..|ls| - 1];
      NonBlankTrimAllPlain(init);
      var t := TrimAll(ls);
      assert t[..|t| - 1] == TrimAll(init);
      TrimKeepsOut(ls[|ls| - 1], '\n');
      var n := NonBlank(TrimAll(init));
      if t[|t| - 1] != [] {
        NoNewlinesConcat(n, [t[|t| - 1]]);
      }
    }
  }

  /** No trimmed line survives exactly when every line is blank. */
  lemma {:induction false} NonBlankTrimAllEmpty(ls: seq<string>)
    ensures NonBlank(TrimAll(ls)) == [] <==> BlankLines(ls)
    decreases |ls|
  {
    if ls != [] {
      var init := ls[..|ls| - 1];
      NonBlankTrimAllEmpty(init);
      var t := TrimAll(ls);
      assert t[..|t| - 1] == TrimAll(init);
      assert forall k :: 0 <= k < |init| ==> init[k] == ls[k];
    }
  }

  /** `TrimAll` trims each line in place. */
  lemma {:induction false} TrimAllIndex(lines: seq<string>, k: nat)
    requires k < |lines|
    ensures TrimAll(lines)[k] == Trim(lines[k])
    decreases |lines|
  {
    var init := lines[..|lines| - 1];
    var t := TrimAll(init);
    assert TrimAll(lines) == t + [Trim(lines[|lines| - 1])];
    if k < |init| {
      TrimAllIndex(init, k);
      assert TrimAll(lines)[k] == t[k];
      assert init[k] == lines[k];
    } else {
      assert k == |t|;
    }
  }

  lemma TrimAllAt(lines: seq<string>)
    ensures forall k :: 0 <= k < |lines| ==> TrimAll(lines)[k] == Trim(lines[k])
  {
    forall k | 0 <= k < |lines| ensures TrimAll(lines)[k] == Trim(lines[k]) {
      TrimAllIndex(lines, k);
    }
  }

  /** Trimmed lines read back with their '\r' trim to themselves. */
  lemma TrimAllCr(ls: seq<string>)
    requires TrimmedLines(ls)
    ensures TrimAll(AppendCr(ls)) == ls
  {
    TrimAllAt(AppendCr(ls));
    forall k | 0 <= k < |ls| ensures TrimAll(AppendCr(ls))[k] == ls[k] {
      TrimCr(ls[k]);
    }
  }

  /** Text in normal form is blank only when it has no line at all. */
  lemma NormalJoinBlank(ls: seq<string>)
    requires NormalLines(ls)
    ensures AllWs(JoinCrlf(ls)) <==> ls == []
  {
    if ls != [] {
      JoinCrlfCons(ls);
      assert JoinCrlf(ls)[0] == ls[0][0];
    }
  }
}
