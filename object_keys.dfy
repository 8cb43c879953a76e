/** The order in which `Object.keys` lists the string-keyed properties of an
    ordinary object (ECMA-262, section 10.1.11.1, OrdinaryOwnPropertyKeys):
    first the keys that are array indices, in ascending numeric order, then the
    other string keys in the order the properties were created. */
module ObjectKeys {
  import opened Common

  predicate IsDigit(c: char)
  {
    '0' <= c <= '9'
  }

  predicate AllDigits(s: string)
  {
    forall k :: 0 <= k < |s| ==> IsDigit(s[k])
  }

  /** The value of a string of decimal digits. */
  function DecimalValue(s: string): nat
    requires AllDigits(s)
  {
    if s == [] then 0
    else DecimalValue(s[..|s| - 1]) * 10 + ((s[|s| - 1] as int) - ('0' as int))
  }

  function Pow10(n: nat): nat
  {
    if n == 0 then 1 else 10 * Pow10(n - 1)
  }

  /** The largest array index, 2^32 - 2. */
  const MaxArrayIndex: nat := 4294967294

  /** A key is an array index when it is a canonical numeric string (decimal
      digits with no leading zero, or "0" itself) whose value is at most 2^32 - 2. */
  predicate IsArrayIndex(k: string)
  {
    && |k| > 0 && AllDigits(k) && (k[0] != '0' || |k| == 1)
    && DecimalValue(k) <= MaxArrayIndex
  }

  /** The numeric value used to order array-index keys (0 for any other key). */
  function IndexValue(k: string): nat
  {
    if AllDigits(k) then DecimalValue(k) else 0
  }

  /** The array-index keys of `order`, in the order given. */
  function IndexKeys(order: seq<string>): (r: seq<string>)
    ensures forall k :: 0 <= k < |r| ==> IsArrayIndex(r[k])
  {
    if order == [] then []
    else (if IsArrayIndex(order[0]) then [order[0]] else []) + IndexKeys(order[1..])
  }

  /** The other string keys of `order`, in the order given. */
  function NameKeys(order: seq<string>): (r: seq<string>)
    ensures forall k :: 0 <= k < |r| ==> !IsArrayIndex(r[k])
  {
    if order == [] then []
    else (if IsArrayIndex(order[0]) then [] else [order[0]]) + NameKeys(order[1..])
  }

  /** `s` is in ascending order of `key`. */
  predicate SortedBy(s: seq<string>, key: string -> nat)
  {
    forall i, j :: 0 <= i < j < |s| ==> key(s[i]) <= key(s[j])
  }

  /** Insert `k` before the first element whose key is not smaller. */
  function InsertBy(k: string, s: seq<string>, key: string -> nat): (r: seq<string>)
    ensures |r| == |s| + 1
    ensures forall i :: 0 <= i < |r| ==> r[i] == k || r[i] in s
  {
    if s == [] || key(k) <= key(s[0]) then [k] + s
    else [s[0]] + InsertBy(k, s[1..], key)
  }

  /** A stable insertion sort by `key`. */
  function SortBy(s: seq<string>, key: string -> nat): (r: seq<string>)
    ensures |r| == |s|
  {
    if s == [] then [] else InsertBy(s[0], SortBy(s[1..], key), key)
  }

  /** `Object.keys(o)` for an object whose own string keys were created in the
      order `order` (each listed once). */
  function OwnKeys(order: seq<string>): seq<string>
  {
    SortBy(IndexKeys(order), IndexValue) + NameKeys(order)
  }

  lemma {:induction false} InsertByPermutes(k: string, s: seq<string>, key: string -> nat)
    ensures multiset(InsertBy(k, s, key)) == multiset(s) + multiset{k}
  {
    if s != [] && key(k) > key(s[0]) {
      assert s == [s[0]] + s[1..];
      InsertByPermutes(k, s[1..], key);
    }
  }

  /** Every key in `s` is at least `b`. */
  predicate KeysAtLeast(b: nat, s: seq<string>, key: string -> nat)
  {
    forall i :: 0 <= i < |s| ==> b <= key(s[i])
  }

  lemma KeysAtLeastInsert(b: nat, k: string, s: seq<string>, key: string -> nat)
    requires KeysAtLeast(b, s, key) && b <= key(k)
    ensures KeysAtLeast(b, InsertBy(k, s, key), key)
  {
  }

  lemma {:induction false} InsertBySorted(k: string, s: seq<string>, key: string -> nat)
    requires SortedBy(s, key)
    ensures SortedBy(InsertBy(k, s, key), key)
  {
    if s != [] && key(k) > key(s[0]) {
      var head, tail := s[0], s[1..];
      assert SortedBy(tail, key);
      InsertBySorted(k, tail, key);
      assert KeysAtLeast(key(head), tail, key);
      KeysAtLeastInsert(key(head), k, tail, key);
      assert InsertBy(k, s, key) == [head] + InsertBy(k, tail, key);
    }
  }

  /** The sort returns a sorted permutation of its input. */
  lemma {:induction false} SortByProperties(s: seq<string>, key: string -> nat)
    ensures multiset(SortBy(s, key)) == multiset(s)
    ensures SortedBy(SortBy(s, key), key)
  {
    if s != [] {
      SortByProperties(s[1..], key);
      InsertByPermutes(s[0], SortBy(s[1..], key), key);
      InsertBySorted(s[0], SortBy(s[1..], key), key);
      assert s == [s[0]] + s[1..];
    }
  }

  lemma {:induction false} PartitionKeys(order: seq<string>)
    ensures multiset(IndexKeys(order)) + multiset(NameKeys(order)) == multiset(order)
  {
    if order != [] {
      PartitionKeys(order[1..]);
      assert order == [order[0]] + order[1..];
    }
  }

  lemma {:induction false} NameKeysOfIndexFree(order: seq<string>)
    requires forall k :: 0 <= k < |order| ==> !IsArrayIndex(order[k])
    ensures IndexKeys(order) == [] && NameKeys(order) == order
  {
    if order != [] {
      NameKeysOfIndexFree(order[1..]);
    }
  }

  /** `Object.keys` lists every own key exactly as often as it was created:
      the result is a permutation of the creation order. */
  lemma OwnKeysPermutation(order: seq<string>)
    ensures multiset(OwnKeys(order)) == multiset(order)
  {
    SortByProperties(IndexKeys(order), IndexValue);
    PartitionKeys(order);
  }

  /** Array-index keys come first, in ascending numeric order; the other keys
      follow in creation order. */
  lemma OwnKeysIndexKeysFirst(order: seq<string>)
    ensures var n, r := |IndexKeys(order)|, OwnKeys(order);
      && (forall k :: 0 <= k < n ==> IsArrayIndex(r[k]))
      && SortedBy(r[..n], IndexValue)
      && (forall k :: n <= k < |r| ==> !IsArrayIndex(r[k]))
      && r[n..] == NameKeys(order)
  {
    var ix := IndexKeys(order);
    var sorted := SortBy(ix, IndexValue);
    SortByProperties(ix, IndexValue);
    var r := OwnKeys(order);
    assert r[..|ix|] == sorted && r[|ix|..] == NameKeys(order);
    forall k | 0 <= k < |ix|
      ensures IsArrayIndex(r[k])
    {
      assert sorted[k] in multiset(ix);
    }
  }

  /** With no array-index key, `Object.keys` is the creation order. */
  lemma OwnKeysCreationOrder(order: seq<string>)
    requires forall k :: 0 <= k < |order| ==> !IsArrayIndex(order[k])
    ensures OwnKeys(order) == order
  {
    NameKeysOfIndexFree(order);
  }

  /** The string form of an ObjectId: 24 lower-case hexadecimal digits. */
  predicate IsObjectIdString(s: string)
  {
    |s| == 24 && forall k :: 0 <= k < |s| ==> IsDigit(s[k]) || 'a' <= s[k] <= 'f'
  }

  lemma {:induction false} DecimalValueLowerBound(s: string)
    requires |s| > 0 && AllDigits(s) && s[0] != '0'
    ensures DecimalValue(s) >= Pow10(|s| - 1)
  {
    if |s| > 1 {
      var p := s[..|s| - 1];
      assert p[0] == s[0];
      DecimalValueLowerBound(p);
    }
  }

  lemma {:induction false} Pow10Monotone(m: nat, n: nat)
    requires m <= n
    ensures Pow10(m) <= Pow10(n)
  {
    if m < n {
      Pow10Monotone(m, n - 1);
    }
  }

  /** ObjectId strings are never array indices, so an object keyed by user ids
      lists its keys in creation order. */
  lemma ObjectIdIsNotArrayIndex(s: string)
    requires IsObjectIdString(s)
    ensures !IsArrayIndex(s)
  {
    if IsArrayIndex(s) {
      DecimalValueLowerBound(s);
      Pow10Monotone(10, 23);
    }
  }
}
