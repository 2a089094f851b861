/**
 * The ordering `std::string::operator<` gives: lexicographic comparison of
 * character codes, a proper prefix being smaller. Both `std::sort` calls of
 * the formatter (section headers, keys) use it.
 */
module Lex {
  predicate Less(x: string, y: string)
    decreases |x|
  {
    if x == [] then y != []
    else if y == [] then false
    else if x[0] != y[0] then x[0] < y[0]
    else Less(x[1..], y[1..])
  }

  /** "Not greater": the order a sorted range is in. */
  predicate LessEq(x: string, y: string) {
    !Less(y, x)
  }

  lemma {:induction false} LessIrreflexive(x: string)
    ensures !Less(x, x)
    decreases |x|
  {
    if x != [] { LessIrreflexive(x[1..]); }
  }

  lemma {:induction false} LessTrichotomy(x: string, y: string)
    ensures Less(x, y) || x == y || Less(y, x)
    decreases |x|
  {
    if x != [] && y != [] && x[0] == y[0] {
      LessTrichotomy(x[1..], y[1..]);
      assert x == [x[0]] + x[1..] && y == [y[0]] + y[1..];
    }
  }

  lemma {:induction false} LessAsymmetric(x: string, y: string)
    requires Less(x, y)
    ensures !Less(y, x)
    decreases |x|
  {
    if x != [] && y != [] && x[0] == y[0] { LessAsymmetric(x[1..], y[1..]); }
  }

  lemma {:induction false} LessTransitive(x: string, y: string, z: string)
    requires Less(x, y) && Less(y, z)
    ensures Less(x, z)
    decreases |x|
  {
    if x != [] && x[0] == y[0] && y[0] == z[0] {
      LessTransitive(x[1..], y[1..], z[1..]);
    }
  }

  /** With trichotomy and transitivity, `LessEq` is a total preorder, as `std::sort` requires. */
  lemma LessEqTransitive(x: string, y: string, z: string)
    requires LessEq(x, y) && LessEq(y, z)
    ensures LessEq(x, z)
  {
    LessTrichotomy(x, y);
    LessTrichotomy(y, z);
    if Less(x, y) && Less(y, z) {
      LessTransitive(x, y, z);
      LessAsymmetric(x, z);
    }
  }

  lemma LessEqTotal(x: string, y: string)
    ensures LessEq(x, y) || LessEq(y, x)
  {
    LessTrichotomy(x, y);
    if x == y { LessIrreflexive(x); }
    else if Less(x, y) { LessAsymmetric(x, y); }
  }
}
