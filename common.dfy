/** Values shared by every part of the model: optional values, the outcome of a
    foreign call that may throw, and the identifier types of the chat backend. */
module Common {

  /** A JavaScript value that may be `undefined` (or `null`). */
  datatype Option<+T> = None | Some(value: T)

  /** What a foreign call (jwt, bcrypt, Cloudinary, MongoDB, Resend) did:
      it threw an exception, or it returned a value. */
  datatype Verdict<+T> = Threw | Returned(value: T)

  /** `cloudinary.uploader.upload(data)`, resolved to its `secure_url`. */
  type Uploader = string -> Verdict<string>

  /** A MongoDB ObjectId in its string form (`_id.toString()`). */
  type UserId = string
  type MessageId = string
  /** A socket.io connection identifier (`socket.id`). */
  type SocketId = string
  /** A point in time, as recorded by Mongoose timestamps. */
  type Timestamp = int

  /** JavaScript truthiness of an optional string: `undefined` and `""` are falsy. */
  predicate Truthy(s: Option<string>)
  {
    s.Some? && s.value != ""
  }

  /** No element occurs twice. */
  predicate NoDuplicates<T(==)>(s: seq<T>)
  {
    forall i, j :: 0 <= i < j < |s| ==> s[i] != s[j]
  }

  /** The elements of a sequence, as a set. */
  function Elements<T>(s: seq<T>): set<T>
  {
    set x | x in s
  }

  lemma {:induction false} NoDuplicatesCountsOne<T>(s: seq<T>, x: T)
    requires NoDuplicates(s)
    ensures multiset(s)[x] <= 1
  {
    if s != [] {
      assert s == [s[0]] + s[1..];
      NoDuplicatesCountsOne(s[1..], x);
      if x == s[0] {
        assert x !in s[1..];
      }
    }
  }

  /** A permutation of a sequence without duplicates has none either. */
  lemma NoDuplicatesOfPermutation<T>(a: seq<T>, b: seq<T>)
    requires multiset(a) == multiset(b) && NoDuplicates(b)
    ensures NoDuplicates(a)
  {
    forall i, j | 0 <= i < j < |a| ensures a[i] != a[j] {
      if a[i] == a[j] {
        assert a == a[..j] + a[j..];
        assert a[i] in a[..j];
        assert a[j] in a[j..];
        assert multiset(a)[a[i]] == multiset(a[..j])[a[i]] + multiset(a[j..])[a[i]];
        NoDuplicatesCountsOne(b, a[i]);
      }
    }
  }

  /** `[...new Set(s)]`: each element once, at the place it first occurs. */
  function Dedup<T(==)>(s: seq<T>): (r: seq<T>)
    ensures NoDuplicates(r)
    ensures forall k :: 0 <= k < |s| ==> s[k] in r
    ensures forall k :: 0 <= k < |r| ==> r[k] in s
    ensures |r| <= |s|
  {
    if s == [] then []
    else
      var init := s[..|s| - 1];
      var d := Dedup(init);
      assert s == init + [s[|s| - 1]];
      if s[|s| - 1] in init then d else d + [s[|s| - 1]]
  }

  /** The position of the first occurrence of `x` in `s`. */
  function FirstIndex<T(==)>(s: seq<T>, x: T): (k: nat)
    requires x in s
    ensures k < |s| && s[k] == x && x !in s[..k]
  {
    if s[0] == x then 0 else 1 + FirstIndex(s[1..], x)
  }

  lemma {:induction false} FirstIndexExtend<T>(s: seq<T>, x: T, y: T)
    requires y in s
    ensures FirstIndex(s + [x], y) == FirstIndex(s, y)
  {
    if s[0] != y {
      assert (s + [x])[1..] == s[1..] + [x];
      FirstIndexExtend(s[1..], x, y);
    }
  }

  /** The elements of `r` occur in `s`, in the order of their first occurrences. */
  predicate InFirstOccurrenceOrder<T(==)>(s: seq<T>, r: seq<T>)
  {
    && (forall k :: 0 <= k < |r| ==> r[k] in s)
    && (forall i, j :: 0 <= i < j < |r| ==> FirstIndex(s, r[i]) < FirstIndex(s, r[j]))
  }

  /** Appending to `s` keeps the first occurrences of what `s` already holds. */
  lemma OrderSurvivesAppend<T>(s: seq<T>, x: T, r: seq<T>)
    requires InFirstOccurrenceOrder(s, r)
    ensures InFirstOccurrenceOrder(s + [x], r)
  {
    forall k | 0 <= k < |r|
      ensures FirstIndex(s + [x], r[k]) == FirstIndex(s, r[k])
    {
      FirstIndexExtend(s, x, r[k]);
    }
  }

  /** A new element goes after everything `s` already holds. */
  lemma OrderAppendNew<T>(s: seq<T>, x: T, r: seq<T>)
    requires InFirstOccurrenceOrder(s + [x], r) && x !in s
    requires forall k :: 0 <= k < |r| ==> r[k] in s
    ensures InFirstOccurrenceOrder(s + [x], r + [x])
  {
    var t, r' := s + [x], r + [x];
    assert FirstIndex(t, x) == |s| by {
      assert t[..|s|] == s;
    }
    forall k | 0 <= k < |r|
      ensures FirstIndex(t, r[k]) < |s|
    {
      FirstIndexExtend(s, x, r[k]);
    }
    assert forall k :: 0 <= k < |r| ==> r'[k] == r[k];
  }

  /** `Dedup` keeps the elements in the order of their first occurrences. */
  lemma {:induction false} DedupKeepsFirstOccurrenceOrder<T>(s: seq<T>)
    ensures InFirstOccurrenceOrder(s, Dedup(s))
  {
    if s != [] {
      var init, last := s[..|s| - 1], s[|s| - 1];
      assert s == init + [last];
      DedupKeepsFirstOccurrenceOrder(init);
      OrderSurvivesAppend(init, last, Dedup(init));
      if last !in init {
        OrderAppendNew(init, last, Dedup(init));
      }
    }
  }
}
