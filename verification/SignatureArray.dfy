/** The sparse arrays indexed by signature (lib/c/2014/labcomm2014.c and the macros
  * of lib/c/2014/labcomm2014_private.h): one block that covers all indices ever
  * referred to, behaving like a total map that is zero almost everywhere.
  */
module SignatureArray {

  class Sparse<T(0)> {
    const zero: T
    var first: int
    var last: int
    var data: array<T>

    /** first and last are both 0 until the first reference. */
    ghost predicate Valid()
      reads this, data
    {
      (first == 0 && last == 0) || (first < last && data.Length == last - first)
    }

    ghost predicate Covers(i: int)
      reads this
    {
      first <= i < last
    }

    /** Does i lie between the block and the index? */
    ghost predicate Between(index: int, i: int)
      reads this
    {
      first < last && (index < i < first || last <= i < index)
    }

    /** The map that the block stands for. */
    ghost function At(i: int): T
      requires Valid()
      reads this, data
    {
      if first <= i < last then data[i - first] else zero
    }

    constructor (zero: T)
      ensures Valid() && fresh(data) && this.zero == zero && forall i :: At(i) == zero && !Covers(i)
    {
      this.zero := zero;
      first, last := 0, 0;
      data := new T[0];
    }

    /** memset and memcpy: `n` zeros, with the old block copied in at `offset`. */
    method Copied(n: nat, offset: nat) returns (fresh': array<T>)
      requires offset + data.Length <= n
      ensures fresh(fresh') && fresh'.Length == n
      ensures forall k :: 0 <= k < n ==>
                fresh'[k] == if offset <= k < offset + data.Length then data[k - offset] else zero
    {
      fresh' := new T[n](_ => zero);
      for k := 0 to data.Length
        invariant forall l :: 0 <= l < n ==> fresh'[l] == if offset <= l < offset + k then data[l - offset] else zero
      {
        fresh'[offset + k] := data[k];
      }
    }

    /** LABCOMM_SIGNATURE_ARRAY_REF: afterwards the index is covered. Whatever
      * direction the block grows in, the map stays the same.
      */
    method Ref(index: int)
      requires Valid()
      modifies this
      ensures Valid() && Covers(index) && (data == old(data) || fresh(data))
      ensures forall i :: At(i) == old(At(i))
      ensures forall i :: Covers(i) <==> (old(Covers(i)) || i == index || old(Between(index, i)))
    {
      if first == 0 && last == 0 {
        first, last := index, index + 1;
        data := new T[1](_ => zero);
      } else if index < first || last <= index {
        var oldFirst, oldLast := first, last;
        var newFirst := if index < oldFirst then index else oldFirst;
        var newLast := if oldLast <= index then index + 1 else oldLast;
        var block := Copied(newLast - newFirst, oldFirst - newFirst);
        first, last, data := newFirst, newLast, block;
      }
    }

    /** Writing through the pointer that REF returned. */
    method Put(index: int, value: T)
      requires Valid()
      modifies this, data
      ensures Valid() && Covers(index) && (data == old(data) || fresh(data))
      ensures forall i :: old(Covers(i)) ==> Covers(i)
      ensures At(index) == value && forall i :: i != index ==> At(i) == old(At(i))
    {
      Ref(index);
      data[index - first] := value;
    }

    /** LABCOMM_SIGNATURE_ARRAY_GET. */
    method Get(index: int) returns (value: T)
      requires Valid()
      ensures value == At(index)
    {
      value := if first <= index < last then data[index - first] else zero;
    }

    /** LABCOMM_SIGNATURE_ARRAY_FOREACH, collecting: the indices visited are in
      * order and without repetition, and no entry that is not zero is missed.
      */
    method Visited() returns (s: seq<int>)
      requires Valid()
      ensures forall k, l :: 0 <= k < l < |s| ==> s[k] < s[l]
      ensures forall i :: i in s <==> Covers(i)
      ensures forall i :: At(i) != zero ==> i in s
    {
      s := [];
      var i := first;
      while i < last
        invariant first <= i && (first <= last ==> i <= last) && |s| == i - first
        invariant forall k :: 0 <= k < |s| ==> s[k] == first + k
      {
        s := s + [i];
        i := i + 1;
      }
      forall j | Covers(j) ensures j in s { assert s[j - first] == j; }
    }
  }

  // ----------------------------------------------------------------- any sequence

  datatype Use<T> = Refer(index: int) | Assign(index: int, value: T)

  /** What a sequence of references and assignments should leave. */
  function Latest<T>(uses: seq<Use<T>>, zero: T, i: int): T {
    if uses == [] then zero
    else
      var u := uses[|uses| - 1];
      if u.Assign? && u.index == i then u.value else Latest(uses[..|uses| - 1], zero, i)
  }

  /** Any sequence of uses: each index holds what was last assigned to it. */
  method Replay<T(0)>(uses: seq<Use<T>>, zero: T) returns (a: Sparse<T>)
    ensures fresh(a) && a.Valid() && a.zero == zero
    ensures forall i :: a.At(i) == Latest(uses, zero, i)
    ensures forall k :: 0 <= k < |uses| ==> a.Covers(uses[k].index)
  {
    a := new Sparse<T>(zero);
    for n := 0 to |uses|
      invariant fresh(a) && fresh(a.data) && a.Valid() && a.zero == zero
      invariant forall i :: a.At(i) == Latest(uses[..n], zero, i)
      invariant forall k :: 0 <= k < n ==> a.Covers(uses[k].index)
    {
      assert uses[..n + 1][..n] == uses[..n];
      match uses[n]
      case Refer(index) => a.Ref(index);
      case Assign(index, value) => a.Put(index, value);
    }
    assert uses[..|uses|] == uses;
  }
}
