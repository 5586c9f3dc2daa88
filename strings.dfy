/** String building blocks shared by the query builders: PHP's implode, character
    counting (used to count `?` placeholders) and repetition. */
module Strings {

  /** implode(sep, parts): the parts in order with sep between neighbours. */
  function Join(sep: string, parts: seq<string>): (r: string)
    ensures parts == [] ==> r == ""
    ensures |parts| == 1 ==> r == parts[0]
  {
    if |parts| == 0 then ""
    else if |parts| == 1 then parts[0]
    else parts[0] + sep + Join(sep, parts[1..])
  }

  /** Number of occurrences of c in s. */
  function Occurrences(c: char, s: string): nat
  {
    if s == [] then 0 else (if s[0] == c then 1 else 0) + Occurrences(c, s[1..])
  }

  /** Sum of the occurrences of c over every part. */
  function TotalOccurrences(c: char, parts: seq<string>): nat
  {
    if parts == [] then 0 else Occurrences(c, parts[0]) + TotalOccurrences(c, parts[1..])
  }

  lemma {:induction false} OccurrencesConcat(c: char, a: string, b: string)
    ensures Occurrences(c, a + b) == Occurrences(c, a) + Occurrences(c, b)
  {
    if a != [] {
      assert (a + b)[1..] == a[1..] + b;
      OccurrencesConcat(c, a[1..], b);
    } else {
      assert a + b == b;
    }
  }

  lemma OccurrencesAbsent(c: char, s: string)
    requires c !in s
    ensures Occurrences(c, s) == 0
  {
    if s != [] {
      assert c !in s[1..];
      OccurrencesAbsent(c, s[1..]);
    }
  }

  /** Counting c in a join whose separator holds no c adds up the parts' counts. */
  lemma {:induction false} OccurrencesJoin(c: char, sep: string, parts: seq<string>)
    requires c !in sep
    ensures Occurrences(c, Join(sep, parts)) == TotalOccurrences(c, parts)
  {
    if |parts| > 1 {
      OccurrencesJoin(c, sep, parts[1..]);
      OccurrencesConcat(c, parts[0] + sep, Join(sep, parts[1..]));
      OccurrencesConcat(c, parts[0], sep);
      OccurrencesAbsent(c, sep);
    } else if |parts| == 1 {
      assert parts[1..] == [];
    }
  }

  /** A sequence of n copies of x. */
  function Repeat<T>(x: T, n: nat): (r: seq<T>)
    ensures |r| == n
    ensures forall i :: 0 <= i < n ==> r[i] == x
  {
    if n == 0 then [] else Repeat(x, n - 1) + [x]
  }
}
