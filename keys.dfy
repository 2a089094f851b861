/**
 * `normalizeKeyValue` and `formatKeys` (src/PluginDefinition.cpp): the body
 * lines of a section are split into key/value lines and other lines; the
 * key/value lines are rewritten as `key=value` and sorted by key, and the other
 * lines follow them, trimmed, in their original order.
 */
module Keys {
  import opened Wrappers
  import opened Text
  import opened Lex
  import opened Sorting
  import opened Streams
  import opened Sections
  import opened Seqs

  /** The pair `formatKeys` keeps for a key/value line: its key and the rewritten line. */
  datatype KeyValue = KeyValue(key: string, line: string)

  function KeyOf(kv: KeyValue): string { kv.key }

  /** `p` is the position of the first '=' of `line`. */
  predicate FirstEq(line: string, p: nat) {
    p < |line| && line[p] == '=' && '=' !in line[..p]
  }

  lemma FirstEqUnique(line: string, p: nat, q: nat)
    requires FirstEq(line, p) && FirstEq(line, q)
    ensures p == q
  {
    FindAt(line, '=', p);
    FindAt(line, '=', q);
  }

  /** What a key can be: not empty, trimmed, without '='. */
  predicate KeyText(k: string) {
    k != [] && Trimmed(k) && '=' !in k
  }

  /** The pair of a line whose first '=' is at `p`: the trimmed text before it
      as the key, and key, '=', the trimmed text after it as the line. */
  function PairAt(line: string, p: nat): (r: KeyValue)
    requires p < |line|
    ensures |r.key| < |r.line| && r.line[..|r.key|] == r.key && r.line[|r.key|] == '='
    ensures Trimmed(r.line[|r.key| + 1..])
  {
    var key, value := Trim(line[..p]), Trim(line[p + 1..]);
    assert (key + "=" + value)[|key| + 1..] == value;
    KeyValue(key, key + "=" + value)
  }

  /**
   * `normalizeKeyValue`: a line without '=' or with a blank key is not a
   * key/value line; otherwise the key is the trimmed text before the first
   * '=' and the rewritten line is key, '=', trimmed value.
   */
  function NormalizeKeyValue(line: string): (r: Option<KeyValue>)
    ensures r.Some? ==> var k := r.value.key;
      && KeyText(k) && |k| < |r.value.line| && r.value.line[..|k|] == k
      && r.value.line[|k|] == '=' && Trimmed(r.value.line[|k| + 1..])
  {
    var pos := Find(line, '=');
    if pos.None? || Trim(line[..pos.value]) == [] then None
    else
      TrimKeepsOut(line[..pos.value], '=');
      Some(PairAt(line, pos.value))
  }

  /** Which lines are key/value lines: those whose text before the first '=' is not blank. */
  lemma NormalizeNone(line: string)
    ensures NormalizeKeyValue(line).None? <==> forall p: nat :: FirstEq(line, p) ==> AllWs(line[..p])
  {
    match Find(line, '=')
    case None =>
    case Some(p) =>
      assert FirstEq(line, p);
      forall q | FirstEq(line, q) ensures q == p { FirstEqUnique(line, p, q); }
  }

  /** Where the key and the value of a key/value line come from. */
  lemma NormalizeSplit(line: string) returns (p: nat)
    requires NormalizeKeyValue(line).Some?
    ensures FirstEq(line, p) && NormalizeKeyValue(line) == Some(PairAt(line, p))
  {
    p := Find(line, '=').value;
  }

  lemma EqFree(a: string, k: string, b: string)
    requires AllWs(a) && AllWs(b) && '=' !in k
    ensures '=' !in a + k + b
  {
    forall i | 0 <= i < |a + k + b| ensures (a + k + b)[i] != '=' {
      if i < |a| {
        assert (a + k + b)[i] == a[i];
      } else if i < |a| + |k| {
        assert (a + k + b)[i] == k[i - |a|];
      } else {
        assert (a + k + b)[i] == b[i - |a| - |k|];
      }
    }
  }

  lemma SplitAtEq(x: string, y: string)
    ensures (x + "=" + y)[..|x|] == x && (x + "=" + y)[|x|] == '=' && (x + "=" + y)[|x| + 1..] == y
  {
  }

  lemma Regroup7(a: string, k: string, b: string, c: string, v: string, d: string)
    ensures a + k + b + "=" + c + v + d == (a + k + b) + "=" + (c + v + d)
  {
  }

  /** Reading a key/value line back: any padding around the key, the '=' and
      the value is dropped, and the key and value come back as they were. */
  lemma NormalizePadded(a: string, k: string, b: string, c: string, v: string, d: string)
    requires AllWs(a) && AllWs(b) && AllWs(c) && AllWs(d)
    requires KeyText(k) && Trimmed(v)
    ensures NormalizeKeyValue(a + k + b + "=" + c + v + d) == Some(KeyValue(k, k + "=" + v))
  {
    var x, y := a + k + b, c + v + d;
    Regroup7(a, k, b, c, v, d);
    SplitAtEq(x, y);
    EqFree(a, k, b);
    FindAt(x + "=" + y, '=', |x|);
    TrimOfPadded(a, k, b);
    TrimOfPadded(c, v, d);
  }

  /** A pair is canonical when its line reads back as that very pair. */
  predicate Canonical(kv: KeyValue) {
    NormalizeKeyValue(kv.line) == Some(kv)
  }

  /** A line already of the form key '=' value reads back as that key and line. */
  lemma NormalizeJoined(k: string, v: string)
    requires KeyText(k) && Trimmed(v)
    ensures NormalizeKeyValue(k + "=" + v) == Some(KeyValue(k, k + "=" + v))
  {
    SplitAtEq(k, v);
    FindAt(k + "=" + v, '=', |k|);
    TrimTrimmed(k);
    TrimTrimmed(v);
  }

  /** Normalising a normalised line changes nothing. */
  lemma NormalizeIdempotent(line: string)
    requires NormalizeKeyValue(line).Some?
    ensures Canonical(NormalizeKeyValue(line).value)
  {
    var p := NormalizeSplit(line);
    var kv := PairAt(line, p);
    NormalizeJoined(kv.key, Trim(line[p + 1..]));
  }

  /** A canonical line is trimmed and not empty. */
  lemma CanonicalLine(kv: KeyValue)
    requires Canonical(kv)
    ensures kv.line != [] && Trimmed(kv.line)
  {
    var k, v := kv.key, kv.line[|kv.key| + 1..];
    assert kv.line[0] == k[0];
    if v == [] {
      assert kv.line[|kv.line| - 1] == '=';
    } else {
      assert kv.line[|kv.line| - 1] == v[|v| - 1];
    }
  }

  /** A character other than '=' that is not in the line is not in the rewritten line. */
  lemma NormalizeKeepsOut(line: string, c: char)
    requires NormalizeKeyValue(line).Some? && c !in line && c != '='
    ensures c !in NormalizeKeyValue(line).value.line
  {
    var p := NormalizeSplit(line);
    TrimAroundKeepsOut(line, p, c);
  }

  /** What `formatKeys` keeps of a line that is not a key/value line: its trimmed
      text. Trimming does not make it a key/value line. */
  lemma OtherTrimmed(line: string)
    requires NormalizeKeyValue(line).None?
    ensures NormalizeKeyValue(Trim(line)).None?
  {
    NormalizeNone(line);
    OtherTrimmedAll(line);
    NormalizeNone(Trim(line));
  }

  lemma OtherTrimmedAll(line: string)
    requires forall p: nat :: FirstEq(line, p) ==> AllWs(line[..p])
    ensures forall q: nat :: FirstEq(Trim(line), q) ==> AllWs(Trim(line)[..q])
  {
    var i := TrimSlice(line);
    forall q: nat | FirstEq(Trim(line), q) ensures AllWs(Trim(line)[..q]) {
      OtherTrimmedAt(line, i, q);
    }
  }

  lemma OtherTrimmedAt(line: string, i: nat, q: nat)
    requires i + |Trim(line)| <= |line| && Trim(line) == line[i..i + |Trim(line)|] && AllWs(line[..i])
    requires FirstEq(Trim(line), q)
    requires forall p: nat :: FirstEq(line, p) ==> AllWs(line[..p])
    ensures AllWs(Trim(line)[..q])
  {
    var t := Trim(line);
    assert line[i + q] == t[q];
    assert '=' !in line[..i + q] by {
      forall j | 0 <= j < i + q ensures line[j] != '=' {
        if j < i {
          assert line[..i][j] == line[j];
        } else {
          assert t[..q][j - i] == line[j];
        }
      }
    }
    assert FirstEq(line, i + q);
  }

  /** The other lines `formatKeys` keeps: trimmed, not blank, not key/value lines. */
  predicate OtherLine(o: string) {
    NormalizeKeyValue(o).None? && o != [] && Trimmed(o)
  }

  /** What the classification loop has collected: the pairs and the other lines. */
  datatype Split = Split(pairs: seq<KeyValue>, others: seq<string>)

  /** One iteration of the classification loop. */
  function SplitStep(acc: Split, l: string): Split {
    var kv := NormalizeKeyValue(l);
    if kv.Some? then acc.(pairs := acc.pairs + [kv.value])
    else if Trim(l) != [] then acc.(others := acc.others + [Trim(l)])
    else acc
  }

  /** What the classification loop collects from `lines`. */
  function Classified(lines: seq<string>): Split {
    if lines == [] then Split([], []) else SplitStep(Classified(lines[..|lines| - 1]), lines[|lines| - 1])
  }

  /** The pairs of the key/value lines, in order. */
  function KeyValues(lines: seq<string>): seq<KeyValue> {
    Classified(lines).pairs
  }

  /** The other lines, trimmed, blank ones dropped, in order. */
  function Others(lines: seq<string>): seq<string> {
    Classified(lines).others
  }

  lemma ClassifiedSnoc(lines: seq<string>, l: string)
    ensures Classified(lines + [l]) == SplitStep(Classified(lines), l)
  {
    SnocTake(lines, l);
  }

  lemma ClassifiedStep(lines: seq<string>, i: nat)
    requires i < |lines|
    ensures Classified(lines[..i + 1]) == SplitStep(Classified(lines[..i]), lines[i])
  {
    TakeSnoc(lines, i);
    ClassifiedSnoc(lines[..i], lines[i]);
  }

  /** The rewritten lines of the pairs, in order. */
  function LinesOf(ps: seq<KeyValue>): (r: seq<string>)
    ensures |r| == |ps| && forall k :: 0 <= k < |ps| ==> r[k] == ps[k].line
  {
    seq(|ps|, k requires 0 <= k < |ps| => ps[k].line)
  }

  /** `ps` holds the pairs of `kvs`, sorted by key. */
  predicate Arranged(ps: seq<KeyValue>, kvs: seq<KeyValue>) {
    multiset(ps) == multiset(kvs) && SortedBy(ps, KeyOf)
  }

  /** `out` is a body `formatKeys` may produce from `lines`: the key/value lines
      in some key order, then the other lines. */
  ghost predicate KeysFormatted(lines: seq<string>, out: seq<string>) {
    exists ps :: Arranged(ps, KeyValues(lines)) && out == LinesOf(ps) + Others(lines)
  }

  /** The classification loop of `formatKeys`. */
  method Classify(lines: seq<string>) returns (kvPairs: seq<KeyValue>, others: seq<string>)
    ensures Split(kvPairs, others) == Classified(lines)
  {
    kvPairs, others := [], [];
    var i := 0;
    while i < |lines|
      invariant 0 <= i <= |lines|
      invariant Split(kvPairs, others) == Classified(lines[..i])
    {
      ClassifiedStep(lines, i);
      var line := lines[i];
      var kv := NormalizeKeyValue(line);
      if kv.Some? {
        kvPairs := kvPairs + [kv.value];
      } else {
        var t := Trim(line);
        if t != [] {
          others := others + [t];
        }
      }
      i := i + 1;
    }
    TakeAll(lines);
  }

  /** `std::sort` of the pairs by key. */
  method SortPairs(kvs: seq<KeyValue>) returns (ps: seq<KeyValue>)
    ensures Arranged(ps, kvs)
  {
    var a := new KeyValue[|kvs|](k requires 0 <= k < |kvs| => kvs[k]);
    assert a[..] == kvs;
    SortFrom(a, 0, KeyOf);
    assert a[0..] == a[..];
    ps := a[..];
  }

  method FormatKeys(section: Section) returns (result: Section)
    ensures result.header == section.header
    ensures KeysFormatted(section.lines, result.lines)
  {
    var kvPairs, others := Classify(section.lines);
    kvPairs := SortPairs(kvPairs);
    var lines: seq<string> := [];
    var j := 0;
    while j < |kvPairs|
      invariant 0 <= j <= |kvPairs|
      invariant lines == LinesOf(kvPairs[..j])
    {
      LinesOfStep(kvPairs, j);
      lines := lines + [kvPairs[j].line];
      j := j + 1;
    }
    TakeAll(kvPairs);
    var sorted := lines;
    j := 0;
    while j < |others|
      invariant 0 <= j <= |others|
      invariant lines == sorted + others[..j]
    {
      TakeSnoc(others, j);
      lines := lines + [others[j]];
      j := j + 1;
    }
    TakeAll(others);
    result := section.(lines := lines);
    assert Arranged(kvPairs, KeyValues(section.lines)) && lines == LinesOf(kvPairs) + Others(section.lines);
  }

  lemma LinesOfSnoc(ps: seq<KeyValue>, x: KeyValue)
    ensures LinesOf(ps + [x]) == LinesOf(ps) + [x.line]
  {
  }

  lemma LinesOfStep(ps: seq<KeyValue>, j: nat)
    requires j < |ps|
    ensures LinesOf(ps[..j + 1]) == LinesOf(ps[..j]) + [ps[j].line]
  {
  }
}

/** What the key stage guarantees about the body it produces. */
module KeyProperties {
  import opened Text
  import opened Streams
  import opened Sorting
  import opened Seqs
  import opened Keys

  lemma BlankNotKeyValue(line: string)
    requires AllWs(line)
    ensures NormalizeKeyValue(line).None?
  {
    assert '=' !in line by {
      forall j | 0 <= j < |line| ensures line[j] != '=' { assert IsWs(line[j]); }
    }
  }

  /** Nothing is collected exactly when every body line is blank. */
  lemma {:induction false} ClassifiedBlank(lines: seq<string>)
    ensures Classified(lines) == Split([], []) <==> BlankLines(lines)
    decreases |lines|
  {
    if lines != [] {
      var init, l := lines[..|lines| - 1], lines[|lines| - 1];
      ClassifiedBlank(init);
      assert BlankLines(lines) <==> BlankLines(init) && AllWs(l) by {
        assert forall k :: 0 <= k < |init| ==> init[k] == lines[k];
      }
      if AllWs(l) {
        BlankNotKeyValue(l);
      }
    }
  }

  /** At most one body line comes out per line that went in. */
  lemma {:induction false} ClassifiedCount(lines: seq<string>)
    ensures |KeyValues(lines)| + |Others(lines)| <= |lines|
    decreases |lines|
  {
    if lines != [] {
      ClassifiedCount(lines[..|lines| - 1]);
    }
  }

  predicate AllCanonical(kvs: seq<KeyValue>) {
    forall kv :: kv in kvs ==> Canonical(kv)
  }

  predicate AllOther(os: seq<string>) {
    forall o :: o in os ==> OtherLine(o)
  }


  lemma AllCanonicalSnoc(kvs: seq<KeyValue>, kv: KeyValue)
    requires AllCanonical(kvs) && Canonical(kv)
    ensures AllCanonical(kvs + [kv])
  {
  }

  lemma AllOtherSnoc(os: seq<string>, o: string)
    requires AllOther(os) && OtherLine(o)
    ensures AllOther(os + [o])
  {
  }

  lemma AllCanonicalPerm(ps: seq<KeyValue>, kvs: seq<KeyValue>)
    requires AllCanonical(kvs) && multiset(ps) == multiset(kvs)
    ensures AllCanonical(ps)
  {
    forall kv | kv in ps ensures Canonical(kv) {
      assert kv in multiset(kvs);
    }
  }

  /** Every collected pair reads back as itself and every other line is
      trimmed, not blank and not a key/value line. */
  lemma {:induction false} ClassifiedParts(lines: seq<string>)
    ensures AllCanonical(KeyValues(lines)) && AllOther(Others(lines))
    decreases |lines|
  {
    if lines != [] {
      var init, l := lines[..|lines| - 1], lines[|lines| - 1];
      ClassifiedParts(init);
      var kv := NormalizeKeyValue(l);
      if kv.Some? {
        NormalizeIdempotent(l);
        AllCanonicalSnoc(KeyValues(init), kv.value);
      } else if Trim(l) != [] {
        OtherTrimmed(l);
        TrimTrimmed(Trim(l));
        AllOtherSnoc(Others(init), Trim(l));
      }
    }
  }

  predicate PairsWithout(kvs: seq<KeyValue>, c: char) {
    forall kv :: kv in kvs ==> c !in kv.line
  }

  predicate LinesWithout(os: seq<string>, c: char) {
    forall o :: o in os ==> c !in o
  }

  /** No '\n' is introduced: the rewritten lines only hold characters of the input. */
  lemma {:induction false} ClassifiedNoNewlines(lines: seq<string>)
    requires NoNewlines(lines)
    ensures PairsWithout(KeyValues(lines), '\n') && LinesWithout(Others(lines), '\n')
    decreases |lines|
  {
    if lines != [] {
      var init, l := lines[..|lines| - 1], lines[|lines| - 1];
      assert NoNewlines(init) by {
        assert forall k :: 0 <= k < |init| ==> init[k] == lines[k];
      }
      ClassifiedNoNewlines(init);
      assert '\n' !in l;
      var kv := NormalizeKeyValue(l);
      if kv.Some? {
        NormalizeKeepsOut(l, '\n');
      } else {
        TrimKeepsOut(l, '\n');
      }
    }
  }

  /** The body `formatKeys` produces is empty exactly when every input body line is blank. */
  lemma KeysFormattedBlank(lines: seq<string>, out: seq<string>)
    requires KeysFormatted(lines, out)
    ensures out == [] <==> BlankLines(lines)
  {
    var ps: seq<KeyValue> :| Arranged(ps, KeyValues(lines)) && out == LinesOf(ps) + Others(lines);
    assert |ps| == |multiset(ps)| == |multiset(KeyValues(lines))| == |KeyValues(lines)|;
    ClassifiedBlank(lines);
  }

  /** The body `formatKeys` produces has no more lines than the input body. */
  lemma KeysFormattedCount(lines: seq<string>, out: seq<string>)
    requires KeysFormatted(lines, out)
    ensures |out| <= |lines|
  {
    var ps: seq<KeyValue> :| Arranged(ps, KeyValues(lines)) && out == LinesOf(ps) + Others(lines);
    assert |ps| == |multiset(ps)| == |multiset(KeyValues(lines))| == |KeyValues(lines)|;
    ClassifiedCount(lines);
  }

  lemma SolidPairs(ps: seq<KeyValue>)
    requires AllCanonical(ps)
    ensures SolidLines(LinesOf(ps))
  {
    forall k | 0 <= k < |ps| ensures ps[k].line != [] && Trimmed(ps[k].line) {
      assert ps[k] in ps;
      CanonicalLine(ps[k]);
    }
  }

  lemma SolidOthers(os: seq<string>)
    requires AllOther(os)
    ensures SolidLines(os)
  {
    forall k | 0 <= k < |os| ensures os[k] != [] && Trimmed(os[k]) {
      assert os[k] in os;
    }
  }


  lemma NoNewlinesPairs(ps: seq<KeyValue>)
    requires PairsWithout(ps, '\n')
    ensures NoNewlines(LinesOf(ps))
  {
    forall k | 0 <= k < |ps| ensures '\n' !in ps[k].line {
      assert ps[k] in ps;
    }
  }

  lemma NoNewlinesOthers(os: seq<string>)
    requires LinesWithout(os, '\n')
    ensures NoNewlines(os)
  {
    forall k | 0 <= k < |os| ensures '\n' !in os[k] {
      assert os[k] in os;
    }
  }


  /** Every produced line is trimmed and not blank. */
  lemma KeysFormattedSolid(lines: seq<string>, out: seq<string>)
    requires KeysFormatted(lines, out)
    ensures SolidLines(out)
  {
    var ps: seq<KeyValue> :| Arranged(ps, KeyValues(lines)) && out == LinesOf(ps) + Others(lines);
    ClassifiedParts(lines);
    AllCanonicalPerm(ps, KeyValues(lines));
    SolidPairs(ps);
    SolidOthers(Others(lines));
    SolidConcat(LinesOf(ps), Others(lines));
  }

  /** '\n'-free body lines give '\n'-free produced lines. */
  lemma KeysFormattedNoNewlines(lines: seq<string>, out: seq<string>)
    requires KeysFormatted(lines, out) && NoNewlines(lines)
    ensures NoNewlines(out)
  {
    var ps: seq<KeyValue> :| Arranged(ps, KeyValues(lines)) && out == LinesOf(ps) + Others(lines);
    ClassifiedNoNewlines(lines);
    assert PairsWithout(ps, '\n') by {
      forall kv | kv in ps ensures '\n' !in kv.line {
        assert kv in multiset(KeyValues(lines));
      }
    }
    NoNewlinesPairs(ps);
    NoNewlinesOthers(Others(lines));
    NoNewlinesConcat(LinesOf(ps), Others(lines));
  }

  /** Classifying canonical pair lines gives back those pairs. */
  lemma {:induction false} ReclassifyPairs(ps: seq<KeyValue>)
    requires AllCanonical(ps)
    ensures Classified(LinesOf(ps)) == Split(ps, [])
    decreases |ps|
  {
    if ps != [] {
      var n := |ps|;
      var init := ps[..n - 1];
      assert AllCanonical(init) by {
        assert forall kv :: kv in init ==> kv in ps;
      }
      ReclassifyPairs(init);
      var x := ps[n - 1];
      TakeSnoc(ps, n - 1);
      TakeAll(ps);
      LinesOfSnoc(init, x);
      ClassifiedSnoc(LinesOf(init), x.line);
      assert x in ps;
    }
  }

  /** Classifying canonical pair lines followed by other lines gives back those pairs and lines. */
  lemma {:induction false} ReclassifyOthers(ps: seq<KeyValue>, others: seq<string>)
    requires AllCanonical(ps) && AllOther(others)
    ensures Classified(LinesOf(ps) + others) == Split(ps, others)
    decreases |others|
  {
    if others == [] {
      assert LinesOf(ps) + others == LinesOf(ps);
      ReclassifyPairs(ps);
    } else {
      var n := |others|;
      var init, o := others[..n - 1], others[n - 1];
      assert AllOther(init) by {
        assert forall x :: x in init ==> x in others;
      }
      ReclassifyOthers(ps, init);
      TakeSnoc(others, n - 1);
      TakeAll(others);
      AppendSnoc(LinesOf(ps), init, o);
      ClassifiedSnoc(LinesOf(ps) + init, o);
      assert o in others;
      TrimTrimmed(o);
    }
  }

  /** A formatted body is a possible result of formatting it again: its pairs are
      already in key order and its other lines come back unchanged. */
  lemma KeysFormattedFixpoint(lines: seq<string>, out: seq<string>)
    requires KeysFormatted(lines, out)
    ensures KeysFormatted(out, out)
  {
    var ps: seq<KeyValue> :| Arranged(ps, KeyValues(lines)) && out == LinesOf(ps) + Others(lines);
    ClassifiedParts(lines);
    AllCanonicalPerm(ps, KeyValues(lines));
    ReclassifyOthers(ps, Others(lines));
    assert Arranged(ps, KeyValues(out)) && out == LinesOf(ps) + Others(out);
  }
}
