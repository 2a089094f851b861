/**
 * Line splitting as `std::getline` does it on a `std::stringstream`, and the
 * CRLF-terminated layout that the formatter writes back.
 */
module Streams {
  import opened Wrappers
  import opened Text

  /**
   * The pieces that repeated `std::getline(ss, line)` calls extract: the text
   * is cut at every '\n', the '\n' is dropped, and a final '\n' does not start
   * an extra empty piece.
   */
  function GetLines(s: string): (r: seq<string>)
    ensures forall k :: 0 <= k < |r| ==> '\n' !in r[k]
    decreases |s|
  {
    if s == [] then []
    else
      match Find(s, '\n')
      case None => [s]
      case Some(p) => [s[..p]] + GetLines(s[p + 1..])
  }

  /** Every piece followed by '\n'. */
  function JoinLf(ls: seq<string>): string {
    if ls == [] then [] else ls[0] + "\n" + JoinLf(ls[1..])
  }

  /** Every line followed by the CRLF terminator the formatter writes. */
  function JoinCrlf(ls: seq<string>): (r: string)
    ensures |r| >= 2 * |ls|
  {
    if ls == [] then [] else JoinCrlf(ls[..|ls| - 1]) + ls[|ls| - 1] + "\r\n"
  }

  /** Every line consists of stripped characters only. */
  predicate BlankLines(ls: seq<string>) {
    forall k :: 0 <= k < |ls| ==> AllWs(ls[k])
  }

  predicate NoNewlines(ls: seq<string>) {
    forall k :: 0 <= k < |ls| ==> '\n' !in ls[k]
  }

  /** Lines that are trimmed and not blank. */
  predicate SolidLines(ls: seq<string>) {
    forall k :: 0 <= k < |ls| ==> ls[k] != [] && Trimmed(ls[k])
  }

  /** Lines that are trimmed, possibly blank. */
  predicate TrimmedLines(ls: seq<string>) {
    forall k :: 0 <= k < |ls| ==> Trimmed(ls[k])
  }

  /** Each line with a '\r' appended: what `getline` returns on CRLF text. */
  function AppendCr(ls: seq<string>): (r: seq<string>)
    ensures |r| == |ls|
    ensures forall k :: 0 <= k < |ls| ==> r[k] == ls[k] + "\r"
  {
    seq(|ls|, k requires 0 <= k < |ls| => ls[k] + "\r")
  }

  predicate EndsWith(s: string, t: string) {
    |t| <= |s| && s[|s| - |t|..] == t
  }

  /** Three CRLFs in a row start at index `k`. */
  predicate BlankRunAt(s: string, k: nat) {
    k + 6 <= |s| && s[k..k + 6] == "\r\n\r\n\r\n"
  }

  /** Three CRLFs in a row somewhere: two consecutive blank lines. */
  predicate HasBlankRun(s: string) {
    exists k :: 0 <= k <= |s| && BlankRunAt(s, k)
  }

  /** No blank line at the start and no two blank lines in a row. */
  predicate Spaced(ls: seq<string>) {
    && (ls != [] ==> ls[0] != [])
    && (forall k :: 0 <= k < |ls| - 1 ==> ls[k] != [] || ls[k + 1] != [])
  }

  /** `getline` takes the text up to the first '\n' and continues after it. */
  lemma GetLinesStep(s: string, p: nat)
    requires Find(s, '\n') == Some(p)
    ensures GetLines(s) == [s[..p]] + GetLines(s[p + 1..])
    ensures s == s[..p] + "\n" + s[p + 1..]
  {
    assert s != [];
    assert s[p] == '\n';
    assert s == s[..p] + [s[p]] + s[p + 1..];
  }

  /** Joining the pieces again gives back the text, with a final '\n' added when it lacked one. */
  lemma {:induction false} JoinGetLines(s: string)
    ensures JoinLf(GetLines(s)) == if s == [] || s[|s| - 1] == '\n' then s else s + "\n"
    decreases |s|
  {
    if s != [] {
      match Find(s, '\n')
      case None =>
        assert s[|s| - 1] in s;
        assert JoinLf([s]) == s + "\n" + JoinLf([]);
      case Some(p) =>
        var head, rest := s[..p], s[p + 1..];
        GetLinesStep(s, p);
        var ls := GetLines(s);
        assert JoinLf(ls) == head + "\n" + JoinLf(GetLines(rest)) by {
          assert ls[0] == head && ls[1..] == GetLines(rest);
        }
        JoinGetLines(rest);
        if rest != [] {
          assert rest[|rest| - 1] == s[|s| - 1];
        }
    }
  }

  /** Splitting a '\n'-joined sequence of '\n'-free pieces gives back the pieces. */
  lemma {:induction false} GetLinesJoin(ls: seq<string>)
    requires NoNewlines(ls)
    ensures GetLines(JoinLf(ls)) == ls
  {
    if ls != [] {
      var s := JoinLf(ls);
      var l := ls[0];
      assert s == l + "\n" + JoinLf(ls[1..]);
      assert s[..|l|] == l;
      FindAt(s, '\n', |l|);
      assert s[|l| + 1..] == JoinLf(ls[1..]);
      GetLinesJoin(ls[1..]);
    }
  }

  lemma JoinCrlfSnoc(ls: seq<string>, l: string)
    ensures JoinCrlf(ls + [l]) == JoinCrlf(ls) + l + "\r\n"
  {
    assert (ls + [l])[..|ls|] == ls;
  }

  lemma SolidConcat(a: seq<string>, b: seq<string>)
    requires SolidLines(a) && SolidLines(b)
    ensures SolidLines(a + b)
  {
    forall k | 0 <= k < |a + b| ensures (a + b)[k] != [] && Trimmed((a + b)[k]) {
      if k < |a| { assert (a + b)[k] == a[k]; } else { assert (a + b)[k] == b[k - |a|]; }
    }
  }

  lemma BlankLinesConcat(a: seq<string>, b: seq<string>)
    ensures BlankLines(a + b) <==> BlankLines(a) && BlankLines(b)
  {
    forall k | 0 <= k < |a| ensures (a + b)[k] == a[k] {
    }
    forall k | 0 <= k < |b| ensures (a + b)[|a| + k] == b[k] {
    }
  }

  lemma NoNewlinesConcat(a: seq<string>, b: seq<string>)
    requires NoNewlines(a) && NoNewlines(b)
    ensures NoNewlines(a + b)
  {
    forall k | 0 <= k < |a + b| ensures '\n' !in (a + b)[k] {
      if k < |a| { assert (a + b)[k] == a[k]; } else { assert (a + b)[k] == b[k - |a|]; }
    }
  }

  lemma JoinCrlfLast(ls: seq<string>)
    requires ls != []
    ensures JoinCrlf(ls) == JoinCrlf(ls[..|ls| - 1]) + ls[|ls| - 1] + "\r\n"
  {
  }

  lemma JoinCrlfBlank(ls: seq<string>)
    ensures JoinCrlf(ls + [[]]) == JoinCrlf(ls) + "\r\n"
  {
    JoinCrlfSnoc(ls, []);
  }

  lemma JoinCrlfSingle(l: string)
    ensures JoinCrlf([l]) == l + "\r\n"
  {
    assert [l][..0] == [];
  }

  lemma {:induction false} JoinCrlfAppend(a: seq<string>, b: seq<string>)
    ensures JoinCrlf(a + b) == JoinCrlf(a) + JoinCrlf(b)
    decreases |b|
  {
    if b == [] {
      assert a + b == a;
    } else {
      var b', x := b[..|b| - 1], b[|b| - 1];
      assert a + b == (a + b') + [x];
      assert b == b' + [x];
      calc {
        JoinCrlf(a + b);
        JoinCrlf((a + b') + [x]);
        { JoinCrlfSnoc(a + b', x); }
        JoinCrlf(a + b') + x + "\r\n";
        { JoinCrlfAppend(a, b'); }
        JoinCrlf(a) + JoinCrlf(b') + x + "\r\n";
        JoinCrlf(a) + (JoinCrlf(b') + x + "\r\n");
        { JoinCrlfSnoc(b', x); }
        JoinCrlf(a) + JoinCrlf(b);
      }
    }
  }

  /** The first line comes first. */
  lemma JoinCrlfCons(ls: seq<string>)
    requires ls != []
    ensures JoinCrlf(ls) == ls[0] + "\r\n" + JoinCrlf(ls[1..])
  {
    assert ls == [ls[0]] + ls[1..];
    JoinCrlfAppend([ls[0]], ls[1..]);
    assert JoinCrlf([ls[0]]) == JoinCrlf([]) + ls[0] + "\r\n";
  }

  /** CRLF terminators are LF terminators after lines that end in '\r'. */
  lemma {:induction false} JoinCrlfIsJoinLf(ls: seq<string>)
    ensures JoinCrlf(ls) == JoinLf(AppendCr(ls))
  {
    if ls != [] {
      JoinCrlfCons(ls);
      JoinCrlfIsJoinLf(ls[1..]);
      assert AppendCr(ls)[1..] == AppendCr(ls[1..]);
    }
  }

  /** `getline` over CRLF-terminated lines returns each line with its '\r' still attached. */
  lemma GetLinesOfCrlf(ls: seq<string>)
    requires NoNewlines(ls)
    ensures GetLines(JoinCrlf(ls)) == AppendCr(ls)
  {
    JoinCrlfIsJoinLf(ls);
    var cr := AppendCr(ls);
    forall k | 0 <= k < |cr| ensures '\n' !in cr[k] {
      assert cr[k] == ls[k] + "\r";
    }
    GetLinesJoin(cr);
  }

  /** A text is blank exactly when every piece `getline` extracts is blank. */
  lemma {:induction false} AllWsGetLines(s: string)
    ensures AllWs(s) <==> BlankLines(GetLines(s))
    decreases |s|
  {
    if s != [] {
      match Find(s, '\n')
      case None =>
        assert GetLines(s) == [s];
        assert GetLines(s)[0] == s;
      case Some(p) =>
        var head, rest := s[..p], s[p + 1..];
        GetLinesStep(s, p);
        AllWsGetLines(rest);
        var ls := GetLines(s);
        assert ls[0] == head;
        assert forall k :: 0 <= k < |GetLines(rest)| ==> GetLines(rest)[k] == ls[k + 1];
        AllWsSplit(head, rest);
    }
  }

  lemma AllWsSplit(head: string, rest: string)
    ensures AllWs(head + "\n" + rest) <==> AllWs(head) && AllWs(rest)
  {
    var s := head + "\n" + rest;
    if AllWs(s) {
      assert forall k :: 0 <= k < |head| ==> head[k] == s[k];
      assert forall k :: 0 <= k < |rest| ==> rest[k] == s[|head| + 1 + k];
    }
    if AllWs(head) && AllWs(rest) {
      AllWsConcat(head, "\n");
      AllWsConcat(head + "\n", rest);
    }
  }

  /** A text that ends in a line ending with a non-'\n' character closes with one CRLF and no blank line. */
  lemma JoinCrlfEnding(ls: seq<string>)
    requires ls != [] && ls[|ls| - 1] != [] && ls[|ls| - 1][|ls[|ls| - 1]| - 1] != '\n'
    ensures EndsWith(JoinCrlf(ls), "\r\n") && !EndsWith(JoinCrlf(ls), "\r\n\r\n")
  {
    var l := ls[|ls| - 1];
    var s := JoinCrlf(ls);
    assert s == JoinCrlf(ls[..|ls| - 1]) + l + "\r\n";
    assert s[|s| - 3] == l[|l| - 1];
  }

  /** A non-blank '\n'-free first line does not put '\n' at index 1. */
  lemma FirstLineNotBlank(ls: seq<string>)
    requires ls != [] && '\n' !in ls[0] && ls[0] != []
    ensures JoinCrlf(ls)[1] != '\n'
  {
    JoinCrlfCons(ls);
    var s := JoinCrlf(ls);
    if |ls[0]| >= 2 {
      assert s[1] == ls[0][1];
      assert ls[0][1] in ls[0];
    } else {
      assert s[1] == '\r';
    }
  }

  /** Lines without '\n' and without two blank lines in a row never produce three CRLFs in a row. */
  lemma {:induction false} NoBlankRun(ls: seq<string>)
    requires NoNewlines(ls)
    requires forall k :: 0 <= k < |ls| - 1 ==> ls[k] != [] || ls[k + 1] != []
    ensures !HasBlankRun(JoinCrlf(ls))
  {
    if ls != [] {
      var l, rest := ls[0], ls[1..];
      assert forall k :: 0 <= k < |rest| ==> rest[k] == ls[k + 1];
      NoBlankRun(rest);
      JoinCrlfCons(ls);
      var s, r := JoinCrlf(ls), JoinCrlf(rest);
      assert s == l + "\r\n" + r;
      forall k | 0 <= k <= |s| ensures !BlankRunAt(s, k) {
        if k + 6 <= |s| {
          if k + 1 < |l| {
            assert s[k + 1] == l[k + 1];
            assert l[k + 1] in l;
          } else if k + 1 == |l| {
            assert s[k + 1] == '\r';
          } else if k == |l| {
            BlankRunAfterLine(l, rest, k);
          } else if k == |l| + 1 {
            assert s[k] == '\n';
          } else {
            assert s[k..k + 6] == r[k - |l| - 2..k - |l| + 4];
            assert !BlankRunAt(r, k - |l| - 2);
          }
        }
      }
    }
  }

  /** Right after the terminator of the first line, the text continues with the next two lines, never both blank. */
  lemma BlankRunAfterLine(l: string, rest: seq<string>, k: nat)
    requires NoNewlines(rest)
    requires |rest| >= 2 ==> rest[0] != [] || rest[1] != []
    requires k == |l| && k + 6 <= |l + "\r\n" + JoinCrlf(rest)|
    ensures (l + "\r\n" + JoinCrlf(rest))[k..k + 6] != "\r\n\r\n\r\n"
  {
    var s, r := l + "\r\n" + JoinCrlf(rest), JoinCrlf(rest);
    assert rest != [];
    assert s[k + 3] == r[1];
    assert s[k..k + 6][3] == s[k + 3] && s[k..k + 6][5] == s[k + 5];
    if rest[0] != [] {
      FirstLineNotBlank(rest);
    } else {
      JoinCrlfCons(rest);
      var r2 := JoinCrlf(rest[1..]);
      assert r == "\r\n" + r2;
      assert rest[1..] != [];
      assert s[k + 5] == r2[1];
      assert rest[1..][0] == rest[1];
      FirstLineNotBlank(rest[1..]);
    }
  }
}
