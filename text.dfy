/**
 * Character classes, `find`-style searches and the `trim` helper that every
 * stage of the INI formatter uses (src/PluginDefinition.cpp, `trim`).
 */
module Text {
  import opened Wrappers

  /** The characters `trim` strips: space, tab, carriage return, line feed. */
  predicate IsWs(c: char) {
    c == ' ' || c == '\t' || c == '\r' || c == '\n'
  }

  predicate AllWs(s: string) {
    forall k :: 0 <= k < |s| ==> IsWs(s[k])
  }

  /** Neither starts nor ends with a character that `trim` strips. */
  predicate Trimmed(s: string) {
    s == [] || (!IsWs(s[0]) && !IsWs(s[|s| - 1]))
  }

  /** `s.find_first_not_of(" \t\r\n")`. */
  function FindFirstNotOf(s: string): (r: Option<nat>)
    ensures r.None? <==> AllWs(s)
    ensures r.Some? ==> r.value < |s| && !IsWs(s[r.value])
    ensures r.Some? ==> forall k :: 0 <= k < r.value ==> IsWs(s[k])
  {
    if s == [] then None
    else if !IsWs(s[0]) then Some(0)
    else
      match FindFirstNotOf(s[1..])
      case None => None
      case Some(i) => Some(i + 1)
  }

  /** `s.find_last_not_of(" \t\r\n")`. */
  function FindLastNotOf(s: string): (r: Option<nat>)
    ensures r.None? <==> AllWs(s)
    ensures r.Some? ==> r.value < |s| && !IsWs(s[r.value])
    ensures r.Some? ==> forall k :: r.value < k < |s| ==> IsWs(s[k])
  {
    if s == [] then None
    else if !IsWs(s[|s| - 1]) then Some(|s| - 1)
    else FindLastNotOf(s[..|s| - 1])
  }

  /** `trim`: the text between the first and the last non-stripped character. */
  function Trim(s: string): (r: string)
    ensures r == [] <==> AllWs(s)
    ensures Trimmed(r)
  {
    match FindFirstNotOf(s)
    case None => []
    case Some(first) =>
      var last := FindLastNotOf(s).value;
      assert first <= last;
      s[first..last + 1]
  }

  /** The contract of `FindLastNotOf` pins its result down. */
  lemma FindLastNotOfAt(s: string, p: nat)
    requires p < |s| && !IsWs(s[p])
    requires forall k :: p < k < |s| ==> IsWs(s[k])
    ensures FindLastNotOf(s) == Some(p)
  {
  }

  /** What `trim` returns is a contiguous piece of its input, with only stripped characters around it. */
  lemma TrimSlice(s: string) returns (i: nat)
    ensures i + |Trim(s)| <= |s| && Trim(s) == s[i..i + |Trim(s)|]
    ensures AllWs(s[..i]) && AllWs(s[i + |Trim(s)|..])
  {
    match FindFirstNotOf(s)
    case None =>
      i := 0;
      assert s[0..] == s;
    case Some(first) =>
      i := first;
      var last := FindLastNotOf(s).value;
      assert last + 1 == i + |Trim(s)|;
  }

  /** `trim` introduces no character: a character absent from the input is absent from the result. */
  lemma TrimKeepsOut(s: string, c: char)
    requires c !in s
    ensures c !in Trim(s)
  {
    var i := TrimSlice(s);
    assert forall k :: 0 <= k < |Trim(s)| ==> Trim(s)[k] == s[i + k];
  }

  /** `s.find(c)`. */
  function Find(s: string, c: char): (r: Option<nat>)
    ensures r.None? <==> c !in s
    ensures r.Some? ==> r.value < |s| && s[r.value] == c && c !in s[..r.value]
  {
    if s == [] then None
    else if s[0] == c then Some(0)
    else
      match Find(s[1..], c)
      case None => None
      case Some(i) =>
        assert s[..i + 1] == [s[0]] + s[1..][..i];
        Some(i + 1)
  }

  /** The contract of `Find` pins its result down: the first occurrence. */
  lemma FindAt(s: string, c: char, p: nat)
    requires p < |s| && s[p] == c && c !in s[..p]
    ensures Find(s, c) == Some(p)
  {
    var r := Find(s, c);
    assert forall k :: 0 <= k < p ==> s[k] == s[..p][k];
    assert r.value <= p;
  }

  /** `trim` removes exactly the padding around a trimmed text. */
  lemma TrimOfPadded(a: string, t: string, b: string)
    requires AllWs(a) && AllWs(b) && Trimmed(t)
    ensures Trim(a + t + b) == t
  {
    var s := a + t + b;
    if t == [] {
      assert AllWs(s) by {
        forall k | 0 <= k < |s| ensures IsWs(s[k]) {
          if k < |a| { assert s[k] == a[k]; } else { assert s[k] == b[k - |a|]; }
        }
      }
    } else {
      assert s[|a|] == t[0];
      assert s[|a| + |t| - 1] == t[|t| - 1];
      var first := FindFirstNotOf(s).value;
      var last := FindLastNotOf(s).value;
      assert first == |a|;
      assert last == |a| + |t| - 1;
      assert s[first..last + 1] == t;
    }
  }

  lemma TrimTrimmed(t: string)
    requires Trimmed(t)
    ensures Trim(t) == t
  {
    assert [] + t + [] == t;
    TrimOfPadded([], t, []);
  }

  lemma AllWsConcat(a: string, b: string)
    requires AllWs(a) && AllWs(b)
    ensures AllWs(a + b)
  {
    forall k | 0 <= k < |a + b| ensures IsWs((a + b)[k]) {
      if k < |a| { assert (a + b)[k] == a[k]; } else { assert (a + b)[k] == b[k - |a|]; }
    }
  }

  /** Padding around any text does not change what `trim` returns. */
  lemma TrimIgnoresPadding(a: string, x: string, b: string)
    requires AllWs(a) && AllWs(b)
    ensures Trim(a + x + b) == Trim(x)
  {
    var t := Trim(x);
    var i := TrimSlice(x);
    var pre, post := x[..i], x[i + |t|..];
    AllWsConcat(a, pre);
    AllWsConcat(post, b);
    assert x == pre + t + post;
    Regroup(a, pre, t, post, b);
    TrimOfPadded(a + pre, t, post + b);
  }

  lemma Regroup(a: string, p: string, t: string, q: string, b: string)
    ensures a + (p + t + q) + b == (a + p) + t + (q + b)
  {
  }

  /** Trimming the text before and after position `p` introduces no character. */
  lemma TrimAroundKeepsOut(s: string, p: nat, c: char)
    requires p < |s| && c !in s
    ensures c !in Trim(s[..p]) && c !in Trim(s[p + 1..])
  {
    var before, after := s[..p], s[p + 1..];
    forall k | 0 <= k < |before| ensures before[k] != c {
      assert before[k] == s[k];
    }
    forall k | 0 <= k < |after| ensures after[k] != c {
      assert after[k] == s[p + 1 + k];
    }
    TrimKeepsOut(before, c);
    TrimKeepsOut(after, c);
  }
}
