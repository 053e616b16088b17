/** Text as the storage layer sees it: UTF-8 bytes, bounded, without NUL, ordered byte by byte. */
module Texts {

  newtype Byte = x: int | 0 <= x < 256

  type Text = seq<Byte>

  const MAX_SQLITE_INTEGER: nat := 9_223_372_036_854_775_807

  predicate TextWithin(value: Text, minimum: nat, maximum: nat) {
    minimum <= |value| <= maximum && 0 !in value
  }

  /** The byte order of strings. */
  predicate Less(a: Text, b: Text)
    decreases |a|
  {
    b != [] && (a == [] || a[0] < b[0] || (a[0] == b[0] && Less(a[1..], b[1..])))
  }

  lemma {:induction false} LessIsTotal(a: Text, b: Text)
    ensures a == b || Less(a, b) || Less(b, a)
    ensures Less(a, b) ==> a != b && !Less(b, a)
    decreases |a|
  {
    if a != [] && b != [] {
      LessIsTotal(a[1..], b[1..]);
      assert a == [a[0]] + a[1..] && b == [b[0]] + b[1..];
    }
  }

  lemma {:induction false} LessIsTransitive(a: Text, b: Text, c: Text)
    requires Less(a, b) && Less(b, c)
    ensures Less(a, c)
    decreases |a|
  {
    if a != [] && a[0] == b[0] && b[0] == c[0] {
      LessIsTransitive(a[1..], b[1..], c[1..]);
    }
  }

  /** Text before the first separator can be read back. */
  lemma {:induction false} SeparatorSplits(sep: Byte, a: Text, x: Text, b: Text, y: Text)
    requires sep !in a && sep !in b && a + [sep] + x == b + [sep] + y
    ensures a == b && x == y
    decreases |a|
  {
    var u, v := a + [sep] + x, b + [sep] + y;
    assert (a == [] <==> u[0] == sep) && (b == [] <==> v[0] == sep);
    if a == [] {
      assert x == u[1..] && y == v[1..];
    } else {
      assert a[0] == u[0] == v[0] == b[0];
      assert u[1..] == a[1..] + [sep] + x && v[1..] == b[1..] + [sep] + y;
      SeparatorSplits(sep, a[1..], x, b[1..], y);
      assert a == [a[0]] + a[1..] && b == [b[0]] + b[1..];
    }
  }
}
