/** `strcmp` and the order of strings it defines. */
module CString {

  /** The sign of `strcmp(a, b)`. */
  function Strcmp(a: string, b: string): (c: int)
    ensures -1 <= c <= 1
    decreases |a|
  {
    if a == [] then if b == [] then 0 else -1
    else if b == [] || a[0] > b[0] then 1
    else if a[0] < b[0] then -1
    else Strcmp(a[1..], b[1..])
  }

  predicate Less(a: string, b: string) {
    Strcmp(a, b) < 0
  }

  lemma {:induction false} StrcmpZero(a: string, b: string)
    ensures Strcmp(a, b) == 0 <==> a == b
    decreases |a|
  {
    if a != [] && b != [] && a[0] == b[0] {
      StrcmpZero(a[1..], b[1..]);
      assert a == [a[0]] + a[1..] && b == [b[0]] + b[1..];
    }
  }

  lemma {:induction false} StrcmpFlips(a: string, b: string)
    ensures Strcmp(a, b) == -Strcmp(b, a)
    decreases |a|
  {
    if a != [] && b != [] && a[0] == b[0] {
      StrcmpFlips(a[1..], b[1..]);
    }
  }

  lemma {:induction false} LessTransitive(a: string, b: string, c: string)
    requires Less(a, b) && Less(b, c)
    ensures Less(a, c)
    decreases |a|
  {
    if a != [] && c != [] && a[0] == b[0] == c[0] {
      LessTransitive(a[1..], b[1..], c[1..]);
    }
  }

  /** The order of dictionaries: `a` is a proper beginning of `b`, or has the smaller character where they first
      differ. */
  ghost predicate DictionaryBefore(a: string, b: string) {
    (|a| < |b| && b[..|a|] == a) || exists k :: 0 <= k < |a| && k < |b| && a[..k] == b[..k] && a[k] < b[k]
  }

  lemma {:induction false} LessIsDictionary(a: string, b: string)
    ensures Less(a, b) <==> DictionaryBefore(a, b)
    decreases |a|
  {
    if a != [] && b != [] {
      if a[0] == b[0] {
        LessIsDictionary(a[1..], b[1..]);
        SameFirstLetter(a[0], a[1..], b[1..]);
        assert a == [a[0]] + a[1..] && b == [b[0]] + b[1..];
      } else {
        assert a[..0] == b[..0];
        if |a| < |b| {
          assert b[..|a|][0] == b[0];
        }
        forall k | 0 < k < |a| && k < |b| ensures a[..k] != b[..k] {
          assert a[..k][0] == a[0] && b[..k][0] == b[0];
        }
      }
    }
  }

  lemma SameFirstLetter(c: char, a: string, b: string)
    ensures DictionaryBefore([c] + a, [c] + b) <==> DictionaryBefore(a, b)
  {
    var x, y := [c] + a, [c] + b;
    if |a| < |b| {
      assert y[..|x|] == [c] + b[..|a|];
      assert y[..|x|][1..] == b[..|a|] && x[1..] == a;
    }
    forall k | 0 <= k < |a| && k < |b|
      ensures a[..k] == b[..k] && a[k] < b[k] <==> x[..k + 1] == y[..k + 1] && x[k + 1] < y[k + 1]
    {
      assert x[..k + 1] == [c] + a[..k] && y[..k + 1] == [c] + b[..k];
      assert x[..k + 1][1..] == a[..k] && y[..k + 1][1..] == b[..k];
    }
    if k :| 0 <= k < |x| && k < |y| && x[..k] == y[..k] && x[k] < y[k] {
      assert a[..k - 1] == b[..k - 1];
    }
    if k :| 0 <= k < |a| && k < |b| && a[..k] == b[..k] && a[k] < b[k] {
      assert x[..k + 1] == y[..k + 1];
    }
  }
}
