/** The part of PHP's value model the table code relies on: scalar values, ordered
    arrays (a PHP array is an ordered map from integer or string keys to values),
    `empty`, `isset`, element assignment and removal, `$a[] = ...`, `in_array`,
    `array_values`, `array_filter`, `array_merge` and `strtoupper`. */
module Php {

  datatype Key = IKey(n: int) | SKey(s: string)

  datatype Value =
    | Null
    | Bool(b: bool)
    | Int(i: int)
    | Str(s: string)
    | Arr(entries: PArray)

  datatype Entry = Entry(key: Key, val: Value)

  /** An array is its entries in insertion order. */
  type PArray = seq<Entry>

  /** empty($s) for a string: true for "" and also for "0". */
  predicate EmptyString(s: string)
  {
    s == "" || s == "0"
  }

  /** empty($v): null, false, 0, "", "0" and the empty array. */
  predicate Empty(v: Value)
  {
    match v
    case Null => true
    case Bool(b) => !b
    case Int(i) => i == 0
    case Str(s) => EmptyString(s)
    case Arr(a) => a == []
  }

  /** Keys are unique, as in every array PHP builds. */
  ghost predicate WellFormed(a: PArray)
  {
    forall i, j :: 0 <= i < j < |a| ==> a[i].key != a[j].key
  }

  /** array_keys($a) */
  function Keys(a: PArray): seq<Key>
  {
    seq(|a|, i requires 0 <= i < |a| => a[i].key)
  }

  /** The values of $a in order. */
  function Values(a: PArray): seq<Value>
  {
    seq(|a|, i requires 0 <= i < |a| => a[i].val)
  }

  predicate HasKey(a: PArray, k: Key)
  {
    k in Keys(a)
  }

  /** $a[$k]: the value stored under k, or null when k is absent. */
  function Get(a: PArray, k: Key): Value
  {
    if a == [] then Null else if a[0].key == k then a[0].val else Get(a[1..], k)
  }

  /** isset($a[$k]): k is present and its value is not null. */
  predicate IsSet(a: PArray, k: Key)
  {
    Get(a, k) != Null
  }

  /** $a[$k] = $v: overwrites in place when k is present, appends otherwise. */
  function Put(a: PArray, k: Key, v: Value): PArray
  {
    if a == [] then [Entry(k, v)]
    else if a[0].key == k then [Entry(k, v)] + a[1..]
    else [a[0]] + Put(a[1..], k, v)
  }

  /** unset($a[$k]) */
  function Unset(a: PArray, k: Key): PArray
  {
    if a == [] then []
    else if a[0].key == k then Unset(a[1..], k)
    else [a[0]] + Unset(a[1..], k)
  }

  /** The key `$a[] = $v` uses: one past the largest integer key, and 0 when no
      integer key is non-negative. */
  function NextIndex(a: PArray): (r: int)
    ensures r >= 0
    ensures forall i :: 0 <= i < |a| && a[i].key.IKey? ==> a[i].key.n < r
    ensures r == 0 || IKey(r - 1) in Keys(a)
  {
    if a == [] then 0
    else
      var rest := NextIndex(a[1..]);
      assert forall i :: 0 < i < |a| ==> a[i] == a[1..][i - 1];
      assert Keys(a) == [a[0].key] + Keys(a[1..]);
      if a[0].key.IKey? && a[0].key.n + 1 > rest then a[0].key.n + 1 else rest
  }

  /** $a[] = $v */
  function Push(a: PArray, v: Value): PArray
  {
    a + [Entry(IKey(NextIndex(a)), v)]
  }

  /** in_array($v, $a), with the comparison taken strictly. */
  predicate InArray(v: Value, a: PArray)
  {
    v in Values(a)
  }

  /** array_values($a): the same values under the keys 0, 1, 2, ... */
  function ArrayValues(a: PArray): PArray
  {
    seq(|a|, i requires 0 <= i < |a| => Entry(IKey(i), a[i].val))
  }

  /** array_filter($a, fn($x) => $x !== $v): the entries whose value is not v, keys kept. */
  function FilterOut(a: PArray, v: Value): PArray
  {
    if a == [] then []
    else if a[0].val == v then FilterOut(a[1..], v)
    else [a[0]] + FilterOut(a[1..], v)
  }

  /** s without any occurrence of x, the rest in order. */
  function RemoveAll<T(==)>(s: seq<T>, x: T): seq<T>
  {
    if s == [] then [] else if s[0] == x then RemoveAll(s[1..], x) else [s[0]] + RemoveAll(s[1..], x)
  }

  /** One step of array_merge: a string key is assigned, an integer key is renumbered. */
  function MergeEntry(acc: PArray, e: Entry): PArray
  {
    if e.key.SKey? then Put(acc, e.key, e.val) else Push(acc, e.val)
  }

  function MergeInto(acc: PArray, b: PArray): PArray
    decreases |b|
  {
    if b == [] then acc else MergeInto(MergeEntry(acc, b[0]), b[1..])
  }

  /** array_merge($a, $b) */
  function ArrayMerge(a: PArray, b: PArray): PArray
  {
    MergeInto(MergeInto([], a), b)
  }

  /** strtoupper over ASCII letters (PHP 8.2 and later ignore the locale). */
  function Upper(c: char): char
  {
    if 'a' <= c <= 'z' then (c as int - 32) as char else c
  }

  function StrToUpper(s: string): string
  {
    seq(|s|, i requires 0 <= i < |s| => Upper(s[i]))
  }

  // ---- Lemmas about the array operations ----

  /** Assignment changes the value under k and no other. */
  lemma {:induction false} PutGet(a: PArray, k: Key, v: Value, k': Key)
    ensures Get(Put(a, k, v), k') == if k' == k then v else Get(a, k')
  {
    if a != [] && a[0].key != k {
      PutGet(a[1..], k, v, k');
      assert Put(a, k, v)[1..] == Put(a[1..], k, v);
    } else if a != [] {
      assert Put(a, k, v)[1..] == a[1..];
    }
  }

  /** Assignment keeps the key order and appends a new key at the end. */
  lemma {:induction false} PutKeys(a: PArray, k: Key, v: Value)
    ensures Keys(Put(a, k, v)) == if HasKey(a, k) then Keys(a) else Keys(a) + [k]
  {
    if a != [] {
      assert Keys(a) == [a[0].key] + Keys(a[1..]);
      if a[0].key != k {
        PutKeys(a[1..], k, v);
        assert Keys(Put(a, k, v)) == [a[0].key] + Keys(Put(a[1..], k, v));
      } else {
        assert Keys(Put(a, k, v)) == [k] + Keys(a[1..]);
      }
    }
  }

  lemma PutWellFormed(a: PArray, k: Key, v: Value)
    requires WellFormed(a)
    ensures WellFormed(Put(a, k, v))
  {
    PutKeys(a, k, v);
    var b := Put(a, k, v);
    forall i, j | 0 <= i < j < |b| ensures b[i].key != b[j].key {
      assert Keys(b)[i] == b[i].key && Keys(b)[j] == b[j].key;
      if j < |a| {
        assert Keys(a)[i] == a[i].key && Keys(a)[j] == a[j].key;
      } else {
        assert Keys(a)[i] == a[i].key;
      }
    }
  }

  /** Removal deletes k and leaves every other key's value alone. */
  lemma {:induction false} UnsetGet(a: PArray, k: Key, k': Key)
    ensures Get(Unset(a, k), k') == if k' == k then Null else Get(a, k')
  {
    if a != [] {
      UnsetGet(a[1..], k, k');
      if a[0].key != k {
        assert Unset(a, k)[1..] == Unset(a[1..], k);
      }
    }
  }

  /** Removal keeps the order of the remaining keys. */
  lemma {:induction false} UnsetKeys(a: PArray, k: Key)
    ensures Keys(Unset(a, k)) == RemoveAll(Keys(a), k)
  {
    if a != [] {
      UnsetKeys(a[1..], k);
      assert Keys(a) == [a[0].key] + Keys(a[1..]);
      assert Keys(a)[1..] == Keys(a[1..]);
      if a[0].key != k {
        assert Keys(Unset(a, k)) == [a[0].key] + Keys(Unset(a[1..], k));
      }
    }
  }

  lemma {:induction false} RemoveAllSubset<T>(s: seq<T>, x: T)
    ensures forall y :: y in RemoveAll(s, x) ==> y in s && y != x
  {
    if s != [] {
      RemoveAllSubset(s[1..], x);
    }
  }

  lemma {:induction false} UnsetWellFormed(a: PArray, k: Key)
    requires WellFormed(a)
    ensures WellFormed(Unset(a, k))
  {
    if a != [] {
      assert WellFormed(a[1..]);
      UnsetWellFormed(a[1..], k);
      if a[0].key != k {
        UnsetKeys(a[1..], k);
        RemoveAllSubset(Keys(a[1..]), k);
        var b := Unset(a, k);
        forall j | 1 <= j < |b| ensures b[0].key != b[j].key {
          assert Keys(Unset(a[1..], k))[j - 1] == b[j].key;
          assert b[j].key in Keys(a[1..]);
        }
      }
    }
  }

  /** array_filter keeps exactly the values other than v, in order. */
  lemma {:induction false} FilterOutValues(a: PArray, v: Value)
    ensures Values(FilterOut(a, v)) == RemoveAll(Values(a), v)
  {
    if a != [] {
      FilterOutValues(a[1..], v);
      assert Values(a) == [a[0].val] + Values(a[1..]);
      assert Values(a)[1..] == Values(a[1..]);
      if a[0].val != v {
        assert Values(FilterOut(a, v)) == [a[0].val] + Values(FilterOut(a[1..], v));
      }
    }
  }

  lemma GetAbsent(a: PArray, k: Key)
    requires !HasKey(a, k)
    ensures Get(a, k) == Null
  {
    if a != [] {
      assert a[0].key == Keys(a)[0];
      assert Keys(a[1..]) == Keys(a)[1..];
      GetAbsent(a[1..], k);
    }
  }

  lemma {:induction false} GetAppend(a: PArray, e: Entry, k: Key)
    requires e.key != k
    ensures Get(a + [e], k) == Get(a, k)
  {
    if a == [] {
      assert [e][1..] == [];
    } else {
      assert (a + [e])[1..] == a[1..] + [e];
      GetAppend(a[1..], e, k);
    }
  }

  lemma {:induction false} GetPresent(a: PArray, i: nat)
    requires WellFormed(a) && i < |a|
    ensures Get(a, a[i].key) == a[i].val
  {
    if i > 0 {
      assert a[1..][i - 1] == a[i];
      assert a[0].key != a[i].key;
      GetPresent(a[1..], i - 1);
    }
  }

  lemma MergeEntryHasKey(acc: PArray, e: Entry, k: Key)
    requires k.SKey?
    ensures HasKey(MergeEntry(acc, e), k) <==> HasKey(acc, k) || e.key == k
    ensures e.key != k ==> Get(MergeEntry(acc, e), k) == Get(acc, k)
    ensures e.key == k ==> Get(MergeEntry(acc, e), k) == e.val
  {
    if e.key.SKey? {
      PutKeys(acc, e.key, e.val);
      PutGet(acc, e.key, e.val, k);
    } else {
      assert Keys(Push(acc, e.val)) == Keys(acc) + [IKey(NextIndex(acc))];
      GetAppend(acc, Entry(IKey(NextIndex(acc)), e.val), k);
    }
  }

  /** Merging b into acc: a string key ends up present iff it was in either, and
      b's value wins. */
  lemma {:induction false} MergeIntoGet(acc: PArray, b: PArray, s: string)
    requires WellFormed(b)
    ensures HasKey(MergeInto(acc, b), SKey(s)) <==> HasKey(acc, SKey(s)) || HasKey(b, SKey(s))
    ensures Get(MergeInto(acc, b), SKey(s)) ==
              if HasKey(b, SKey(s)) then Get(b, SKey(s)) else Get(acc, SKey(s))
    decreases |b|
  {
    if b != [] {
      var k := SKey(s);
      assert WellFormed(b[1..]);
      MergeIntoGet(MergeEntry(acc, b[0]), b[1..], s);
      MergeEntryHasKey(acc, b[0], k);
      assert Keys(b) == [b[0].key] + Keys(b[1..]);
      if HasKey(b[1..], k) {
        var j :| 0 <= j < |b[1..]| && Keys(b[1..])[j] == k;
        assert b[j + 1].key == k;
        assert b[0].key != k;
      }
    }
  }

  /** array_merge: every string key of either array is present; the second array's
      value wins, otherwise the first's is kept. */
  lemma ArrayMergeOverrides(a: PArray, b: PArray, s: string)
    requires WellFormed(a) && WellFormed(b)
    ensures HasKey(ArrayMerge(a, b), SKey(s)) <==> HasKey(a, SKey(s)) || HasKey(b, SKey(s))
    ensures Get(ArrayMerge(a, b), SKey(s)) ==
              if HasKey(b, SKey(s)) then Get(b, SKey(s)) else Get(a, SKey(s))
  {
    MergeIntoGet([], a, s);
    MergeIntoGet(MergeInto([], a), b, s);
    if !HasKey(a, SKey(s)) {
      GetAbsent(a, SKey(s));
    }
  }

  /** No value occurs twice. */
  ghost predicate Distinct<T>(s: seq<T>)
  {
    forall i, j :: 0 <= i < j < |s| ==> s[i] != s[j]
  }

  /** Filtering removes every copy of x, keeps every other value with its
      multiplicity, and is the identity when x does not occur. */
  lemma {:induction false} RemoveAllSpec<T>(s: seq<T>, x: T)
    ensures x !in RemoveAll(s, x)
    ensures multiset(RemoveAll(s, x)) == multiset(s)[x := 0]
    ensures x !in s ==> RemoveAll(s, x) == s
  {
    if s != [] {
      RemoveAllSpec(s[1..], x);
      assert s == [s[0]] + s[1..];
      assert multiset(s) == multiset{s[0]} + multiset(s[1..]);
    }
  }

  /** Filtering works element by element, so the survivors keep their order. */
  lemma {:induction false} RemoveAllConcat<T>(a: seq<T>, b: seq<T>, x: T)
    ensures RemoveAll(a + b, x) == RemoveAll(a, x) + RemoveAll(b, x)
  {
    if a == [] {
      assert a + b == b;
    } else {
      assert (a + b)[1..] == a[1..] + b;
      RemoveAllConcat(a[1..], b, x);
    }
  }

  lemma {:induction false} RemoveAllDistinct<T>(s: seq<T>, x: T)
    requires Distinct(s)
    ensures Distinct(RemoveAll(s, x))
  {
    if s != [] {
      assert Distinct(s[1..]);
      RemoveAllDistinct(s[1..], x);
      RemoveAllSubset(s[1..], x);
      if s[0] != x {
        var r := RemoveAll(s, x);
        forall j | 1 <= j < |r| ensures r[0] != r[j] {
          assert r[j] == RemoveAll(s[1..], x)[j - 1];
          assert r[j] in s[1..];
        }
      }
    }
  }

  /** Appending under NextIndex keeps the keys unique. */
  lemma PushWellFormed(a: PArray, v: Value)
    requires WellFormed(a)
    ensures WellFormed(Push(a, v))
    ensures Values(Push(a, v)) == Values(a) + [v]
  {
  }

  lemma {:induction false} MergeIntoWellFormed(acc: PArray, b: PArray)
    requires WellFormed(acc)
    ensures WellFormed(MergeInto(acc, b))
    decreases |b|
  {
    if b != [] {
      if b[0].key.SKey? {
        PutWellFormed(acc, b[0].key, b[0].val);
      } else {
        PushWellFormed(acc, b[0].val);
      }
      MergeIntoWellFormed(MergeEntry(acc, b[0]), b[1..]);
    }
  }

  /** array_merge always yields unique keys. */
  lemma ArrayMergeWellFormed(a: PArray, b: PArray)
    ensures WellFormed(ArrayMerge(a, b))
  {
    MergeIntoWellFormed([], a);
    MergeIntoWellFormed(MergeInto([], a), b);
  }
}
