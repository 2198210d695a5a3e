/**
 * Version strings are compared with Go's strings.Compare: byte-wise lexicographic order,
 * not semantic-version precedence. On strings of Unicode scalar values, comparing code
 * points is the same as comparing their UTF-8 bytes.
 */
module Versions {

  /** strings.Compare: -1 if a sorts before b, 0 if equal, +1 if after. */
  function Compare(a: string, b: string): (c: int)
    ensures -1 <= c <= 1
  {
    if |a| == 0 then (if |b| == 0 then 0 else -1)
    else if |b| == 0 then 1
    else if a[0] < b[0] then -1
    else if a[0] > b[0] then 1
    else Compare(a[1..], b[1..])
  }

  /** Lexicographic order, defined independently: a proper prefix, or a first differing position. */
  ghost predicate LexLess(a: string, b: string) {
    || (|a| < |b| && a == b[..|a|])
    || exists k :: 0 <= k < |a| && k < |b| && a[..k] == b[..k] && a[k] < b[k]
  }

  lemma {:induction false} CompareZeroIffEqual(a: string, b: string)
    ensures Compare(a, b) == 0 <==> a == b
  {
    if |a| > 0 && |b| > 0 && a[0] == b[0] {
      CompareZeroIffEqual(a[1..], b[1..]);
      assert a == [a[0]] + a[1..] && b == [b[0]] + b[1..];
    }
  }

  lemma {:induction false} CompareAntisymmetric(a: string, b: string)
    ensures Compare(a, b) == -Compare(b, a)
  {
    if |a| > 0 && |b| > 0 && a[0] == b[0] {
      CompareAntisymmetric(a[1..], b[1..]);
    }
  }

  /** Compare agrees with the lexicographic order. */
  lemma CompareIsLexicographic(a: string, b: string)
    ensures Compare(a, b) < 0 <==> LexLess(a, b)
  {
    CompareLessIsLex(a, b);
    LexIsCompareLess(a, b);
  }

  lemma {:induction false} CompareLessIsLex(a: string, b: string)
    ensures Compare(a, b) < 0 ==> LexLess(a, b)
  {
    if |a| == 0 {
      if |b| > 0 { assert a == b[..0]; }
    } else if |b| > 0 && a[0] < b[0] {
      assert a[..0] == b[..0];
    } else if |b| > 0 && a[0] == b[0] {
      CompareLessIsLex(a[1..], b[1..]);
      if LexLess(a[1..], b[1..]) {
        if |a[1..]| < |b[1..]| && a[1..] == b[1..][..|a[1..]|] {
          assert a == b[..|a|];
        } else {
          var k :| 0 <= k < |a[1..]| && k < |b[1..]| && a[1..][..k] == b[1..][..k] && a[1..][k] < b[1..][k];
          assert a[..k + 1] == [a[0]] + a[1..][..k];
          assert b[..k + 1] == [b[0]] + b[1..][..k];
          assert a[k + 1] < b[k + 1];
        }
      }
    }
  }

  lemma {:induction false} LexIsCompareLess(a: string, b: string)
    ensures LexLess(a, b) ==> Compare(a, b) < 0
  {
    if |a| > 0 && |b| > 0 && LexLess(a, b) {
      if a[0] > b[0] {
        if !(|a| < |b| && a == b[..|a|]) {
          var k :| 0 <= k < |a| && k < |b| && a[..k] == b[..k] && a[k] < b[k];
          assert false;
        }
      } else if a[0] == b[0] {
        LexIsCompareLess(a[1..], b[1..]);
        if |a| < |b| && a == b[..|a|] {
          assert a[1..] == b[1..][..|a[1..]|];
        } else {
          var k :| 0 <= k < |a| && k < |b| && a[..k] == b[..k] && a[k] < b[k];
          assert k > 0;
          assert a[1..][..k - 1] == a[..k][1..];
          assert b[1..][..k - 1] == b[..k][1..];
          assert a[1..][k - 1] < b[1..][k - 1];
        }
      }
    } else if |b| == 0 && LexLess(a, b) {
      assert false;
    }
  }

  /** The order is not numeric: "10" sorts before "9", and "1.10.0" before "1.9.0". */
  lemma CompareIsNotNumeric()
    ensures Compare("10", "9") < 0
    ensures Compare("1.10.0", "1.9.0") < 0
    ensures Compare("2.0.0", "1.0.0") > 0
  {
  }
}
