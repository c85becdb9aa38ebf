/**
  C strings, as the bytes before the terminator. The terminator sorts below every byte, so a
  proper prefix sorts first. Only the sign of a comparison is ever looked at.
*/
module CStrings {

  datatype Option<+T> = None | Some(value: T)

  /** strcmp, as a sign. */
  function StrCmp(a: string, b: string): (c: int)
    ensures -1 <= c <= 1
    ensures c == 0 <==> a == b
  {
    if a == [] && b == [] then 0
    else if a == [] then -1
    else if b == [] then 1
    else if a[0] < b[0] then -1
    else if b[0] < a[0] then 1
    else
      assert a == [a[0]] + a[1..] && b == [b[0]] + b[1..];
      StrCmp(a[1..], b[1..])
  }

  function Take(a: string, n: nat): string {
    if n <= |a| then a[..n] else a
  }

  /** strncmp, as a sign: neither string is looked at beyond n bytes. */
  function StrNCmp(a: string, b: string, n: nat): int {
    StrCmp(Take(a, n), Take(b, n))
  }

  predicate Less(a: string, b: string) {
    StrCmp(a, b) < 0
  }

  lemma {:induction false} StrCmpFlips(a: string, b: string)
    ensures StrCmp(a, b) == -StrCmp(b, a)
  {
    if a != [] && b != [] && a[0] == b[0] {
      StrCmpFlips(a[1..], b[1..]);
    }
  }

  lemma {:induction false} LessTransitive(a: string, b: string, c: string)
    requires Less(a, b) && Less(b, c)
    ensures Less(a, c)
  {
    if a != [] && b != [] && c != [] && a[0] == b[0] && b[0] == c[0] {
      LessTransitive(a[1..], b[1..], c[1..]);
    }
  }

  /** The first byte that differs decides. */
  lemma {:induction false} FirstDifference(a: string, b: string, k: nat)
    requires k < |a| && k < |b| && a[..k] == b[..k] && a[k] != b[k]
    ensures Less(a, b) <==> a[k] < b[k]
  {
    if k == 0 {
    } else {
      assert a[0] == a[..k][0] == b[..k][0] == b[0];
      assert a[1..][..k - 1] == a[..k][1..] == b[..k][1..] == b[1..][..k - 1];
      FirstDifference(a[1..], b[1..], k - 1);
    }
  }

  /** Two strings either have one as prefix of the other, or differ first at some shared position. */
  lemma {:induction false} PrefixIsLess(a: string, b: string)
    requires a <= b && a != b
    ensures Less(a, b)
  {
    if a == [] {
    } else {
      PrefixIsLess(a[1..], b[1..]);
    }
  }

  /** Cutting off what lies beyond the shorter string matters only for prefixes. */
  lemma {:induction false} StrCmpTruncated(a: string, b: string)
    ensures StrCmp(a, Take(b, |a|)) == if a <= b then 0 else StrCmp(a, b)
    ensures StrCmp(Take(b, |a|), a) == if a <= b then 0 else StrCmp(b, a)
  {
    if a == [] || b == [] {
      assert Take(b, |a|) == [];
    } else {
      assert Take(b, |a|)[1..] == Take(b[1..], |a[1..]|);
      assert a <= b <==> a[0] == b[0] && a[1..] <= b[1..] by {
        assert a == [a[0]] + a[1..] && b == [b[0]] + b[1..];
      }
      StrCmpTruncated(a[1..], b[1..]);
    }
  }

  /** Strings between a string and one of its extensions extend it too. */
  lemma {:induction false} BetweenExtensions(a: string, b: string, c: string)
    requires a <= c && Less(a, b) && Less(b, c)
    ensures a <= b
  {
    if a == [] {
    } else {
      assert a == [a[0]] + a[1..] && b == [b[0]] + b[1..] && c == [c[0]] + c[1..];
      assert a[0] == c[0] && a[1..] <= c[1..];
      BetweenExtensions(a[1..], b[1..], c[1..]);
    }
  }

  lemma LessTotal(a: string, b: string)
    ensures Less(a, b) || a == b || Less(b, a)
    ensures !(Less(a, b) && Less(b, a))
    ensures !Less(a, a)
  {
    StrCmpFlips(a, b);
  }
}
