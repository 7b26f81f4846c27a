/** The intentions of a field: key/value pairs that the compiler writes sorted by
  * key and the Python decoder collects in a dictionary and sorts again.
  */
module Intentions {
  import opened Wire
  import opened Types

  /** Lexicographic order of keys. */
  predicate Less(a: seq<byte>, b: seq<byte>) {
    b != [] && (a == [] || a[0] < b[0] || (a[0] == b[0] && Less(a[1..], b[1..])))
  }

  lemma {:induction false} LessTotal(a: seq<byte>, b: seq<byte>)
    ensures a == b || Less(a, b) || Less(b, a)
    ensures !(Less(a, b) && Less(b, a))
    ensures Less(a, b) ==> a != b
  {
    if a != [] && b != [] {
      LessTotal(a[1..], b[1..]);
      assert a == [a[0]] + a[1..] && b == [b[0]] + b[1..];
    }
  }

  lemma {:induction false} LessTrans(a: seq<byte>, b: seq<byte>, c: seq<byte>)
    requires Less(a, b) && Less(b, c)
    ensures Less(a, c)
  {
    if a != [] && a[0] == b[0] == c[0] { LessTrans(a[1..], b[1..], c[1..]); }
  }

  ghost predicate UniqueKeys(s: seq<Intention>) {
    forall i, j :: 0 <= i < j < |s| ==> s[i].key != s[j].key
  }

  ghost predicate Ascending(s: seq<Intention>) {
    forall i, j :: 0 <= i < j < |s| ==> Less(s[i].key, s[j].key)
  }

  /** One insertion of a stable sort by key. */
  function Insert(s: seq<Intention>, e: Intention): seq<Intention> {
    if s == [] then [e]
    else if Less(e.key, s[0].key) then [e] + s
    else [s[0]] + Insert(s[1..], e)
  }

  /** Collections.sort with intentionComp. */
  function Sorted(s: seq<Intention>): seq<Intention> {
    if s == [] then [] else Insert(Sorted(s[..|s| - 1]), s[|s| - 1])
  }

  lemma {:induction false} InsertPermutes(s: seq<Intention>, e: Intention)
    ensures multiset(Insert(s, e)) == multiset(s) + multiset{e}
    ensures |Insert(s, e)| == |s| + 1
  {
    if s != [] {
      InsertPermutes(s[1..], e);
      assert s == [s[0]] + s[1..];
    }
  }

  lemma {:induction false} InsertAscends(s: seq<Intention>, e: Intention)
    requires Ascending(s) && forall i :: 0 <= i < |s| ==> s[i].key != e.key
    ensures Ascending(Insert(s, e))
    ensures forall x :: x in Insert(s, e) ==> x in s || x == e
  {
    if s != [] {
      LessTotal(e.key, s[0].key);
      if Less(e.key, s[0].key) {
        forall i | 1 <= i < |s| ensures Less(e.key, s[i].key) { LessTrans(e.key, s[0].key, s[i].key); }
      } else {
        InsertAscends(s[1..], e);
        var r := Insert(s[1..], e);
        forall j | 0 <= j < |r| ensures Less(s[0].key, r[j].key) { assert r[j] in r; }
      }
    }
  }

  lemma {:induction false} SortedStep(s: seq<Intention>)
    requires s != []
    ensures Sorted(s) == Insert(Sorted(s[..|s| - 1]), s[|s| - 1])
  {
    hide Insert;
  }

  lemma {:induction false} SortedPermutes(s: seq<Intention>)
    ensures multiset(Sorted(s)) == multiset(s) && |Sorted(s)| == |s|
  {
    hide Sorted, Insert;
    if s == [] {
      SortedNone();
    } else {
      var (p, e) := (s[..|s| - 1], s[|s| - 1]);
      SortedStep(s);
      SortedPermutes(p);
      InsertPermutes(Sorted(p), e);
      assert s == p + [e];
    }
  }

  lemma SortedNone()
    ensures Sorted([]) == []
  {}

  lemma SortedHas(s: seq<Intention>, i: nat)
    requires i < |Sorted(s)|
    ensures Sorted(s)[i] in s
  {
    hide Sorted;
    SortedPermutes(s);
    assert Sorted(s)[i] in multiset(Sorted(s));
  }

  lemma {:induction false} SortedAscends(s: seq<Intention>)
    requires UniqueKeys(s)
    ensures Ascending(Sorted(s))
  {
    hide Sorted, Insert, Less;
    if s == [] {
      SortedNone();
    } else {
      var (p, e) := (s[..|s| - 1], s[|s| - 1]);
      SortedStep(s);
      SortedAscends(p);
      forall i | 0 <= i < |Sorted(p)| ensures Sorted(p)[i].key != e.key { SortedHas(p, i); }
      InsertAscends(Sorted(p), e);
    }
  }

  /** Sorting keeps the intentions and, when keys are unique, orders them. */
  lemma SortedSorts(s: seq<Intention>)
    ensures multiset(Sorted(s)) == multiset(s) && |Sorted(s)| == |s|
    ensures UniqueKeys(s) ==> Ascending(Sorted(s))
  {
    hide *;
    SortedPermutes(s);
    if UniqueKeys(s) { SortedAscends(s); }
  }

  lemma {:induction false} InsertLast(s: seq<Intention>, e: Intention)
    requires forall i :: 0 <= i < |s| ==> Less(s[i].key, e.key)
    ensures Insert(s, e) == s + [e]
  {
    if s != [] {
      LessTotal(e.key, s[0].key);
      InsertLast(s[1..], e);
      assert s == [s[0]] + s[1..];
    }
  }

  lemma {:induction false} SortedAgain(s: seq<Intention>)
    requires Ascending(s)
    ensures Sorted(s) == s
  {
    if s != [] {
      var (p, e) := (s[..|s| - 1], s[|s| - 1]);
      SortedAgain(p);
      InsertLast(p, e);
      assert s == p + [e];
    }
  }

  /** Assigning a dictionary key, the dictionary kept in key order. */
  function DictPut(d: seq<Intention>, e: Intention): seq<Intention> {
    if d == [] then [e]
    else if e.key == d[0].key then [e] + d[1..]
    else if Less(e.key, d[0].key) then [e] + d
    else [d[0]] + DictPut(d[1..], e)
  }

  /** dict_to_sorted_tuple of the pairs, assigned in order. */
  function DictOf(s: seq<Intention>): seq<Intention> {
    if s == [] then [] else DictPut(DictOf(s[..|s| - 1]), s[|s| - 1])
  }

  lemma {:induction false} PutLast(d: seq<Intention>, e: Intention)
    requires forall i :: 0 <= i < |d| ==> Less(d[i].key, e.key)
    ensures DictPut(d, e) == d + [e]
  {
    if d != [] {
      LessTotal(e.key, d[0].key);
      PutLast(d[1..], e);
      assert d == [d[0]] + d[1..];
    }
  }

  /** The dictionary of sorted pairs with unique keys is those pairs. */
  lemma {:induction false} DictOfAscending(s: seq<Intention>)
    requires Ascending(s)
    ensures DictOf(s) == s
  {
    if s != [] {
      var (p, e) := (s[..|s| - 1], s[|s| - 1]);
      DictOfAscending(p);
      PutLast(p, e);
      assert s == p + [e];
    }
  }

  // -------------------------------------------------------------------- bytes

  ghost predicate FitsAll(s: seq<Intention>) {
    |s| < TWO32 && forall i :: 0 <= i < |s| ==> |s[i].key| < TWO32 && |s[i].value| < TWO32
  }

  function PackPairs(s: seq<Intention>, i: nat): seq<byte>
    requires i <= |s|
    decreases |s| - i
  {
    if i == |s| then [] else PackString(s[i].key) + PackString(s[i].value) + PackPairs(s, i + 1)
  }

  /** getIntentionBytes: the count, then key and value of each. */
  function PackIntentions(s: seq<Intention>): seq<byte> {
    Pack(|s|) + PackPairs(s, 0)
  }

  function UnpackPairs(n: nat, s: seq<byte>): (r: Parsed<seq<Intention>>)
    ensures r.Ok? ==> |r.rest| <= |s|
  {
    if n == 0 then Ok([], s)
    else
      match UnpackString(s)
      case Fail => Fail
      case Ok(k, s1) =>
        match UnpackString(s1)
        case Fail => Fail
        case Ok(v, s2) =>
          match UnpackPairs(n - 1, s2)
          case Fail => Fail
          case Ok(more, s3) => Ok([Intention(k, v)] + more, s3)
  }

  /** decode_intentions. */
  function UnpackIntentions(s: seq<byte>): (r: Parsed<seq<Intention>>)
    ensures r.Ok? ==> |r.rest| < |s|
  {
    match Unpack(s)
    case Fail => Fail
    case Ok(n, s1) =>
      match UnpackPairs(n, s1)
      case Fail => Fail
      case Ok(pairs, s2) => Ok(DictOf(pairs), s2)
  }

  lemma {:induction false} PairsRoundTrip(s: seq<Intention>, i: nat, rest: seq<byte>)
    requires FitsAll(s) && i <= |s|
    ensures UnpackPairs(|s| - i, PackPairs(s, i) + rest) == Ok(s[i..], rest)
    decreases |s| - i
  {
    hide UnpackString, PackString;
    if i == |s| {
      assert PackPairs(s, i) + rest == rest;
    } else {
      var (k, v) := (s[i].key, s[i].value);
      var tail := PackPairs(s, i + 1) + rest;
      assert PackPairs(s, i) == PackString(k) + PackString(v) + PackPairs(s, i + 1);
      assert PackPairs(s, i) + rest == PackString(k) + (PackString(v) + tail);
      StringRoundTrip(k, PackString(v) + tail);
      StringRoundTrip(v, tail);
      PairsRoundTrip(s, i + 1, rest);
      assert [Intention(k, v)] + s[i + 1..] == s[i..];
    }
  }

  lemma IntentionsRoundTrip(s: seq<Intention>, rest: seq<byte>)
    requires FitsAll(s)
    ensures UnpackIntentions(PackIntentions(s) + rest) == Ok(DictOf(s), rest)
  {
    hide Unpack, Pack, UnpackPairs, PackPairs, DictOf;
    assert PackIntentions(s) + rest == Pack(|s|) + (PackPairs(s, 0) + rest);
    PackRoundTrip(|s|, PackPairs(s, 0) + rest);
    PairsRoundTrip(s, 0, rest);
    assert s[0..] == s;
  }
}
