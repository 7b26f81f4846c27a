/** The flatSignature methods in place (compiler/2014/FlatSignature.jrag): they
  * walk the syntax tree and append to a shared list of bytes. The bytes of the
  * intentions are put together in arrays whose size is computed first
  * (compiler/2014/Signature.jrag); Java throws where such an array is too short.
  */
module SignatureList {
  import opened Wire
  import opened Types
  import opened Intentions
  import opened Signatures
  import BufferedWriter

  /** Key and value have a length of one byte. */
  predicate Short(e: Intention) {
    |e.key| < 128 && |e.value| < 128
  }

  ghost predicate AllShort(s: seq<Intention>) {
    forall i :: 0 <= i < |s| ==> Short(s[i])
  }

  /** All intentions in the type are short. */
  ghost predicate Printable(t: Type)
    decreases t
  {
    match t
    case Void => true
    case Prim(_) => true
    case User(_, decl) => Printable(decl)
    case Struct(fields) => forall i :: 0 <= i < |fields| ==> AllShort(fields[i].intentions) && Printable(fields[i].ty)
    case Array(_, elem) => Printable(elem)
  }

  lemma {:induction false} EmitLength(tmp: seq<byte>)
    ensures |BufferedWriter.Emit(tmp)| == |tmp|
  {
    if tmp != [] { EmitLength(tmp[..|tmp| - 1]); }
  }

  /** Utilities.encodePacked32: throws if the length is not the expected one, or at
    * the end of the array.
    */
  method PutPacked(n: nat, buf: array<byte>, start: nat, len: nat) returns (ok: bool, pos: nat)
    requires n < TWO32 && start <= buf.Length
    modifies buf
    ensures ok <==> len == |Pack(n)| && start + |Pack(n)| <= buf.Length
    ensures ok ==> pos == start + |Pack(n)| && buf[..pos] == old(buf[..start]) + Pack(n)
  {
    hide Pack, BufferedWriter.Emit;
    var tmp := new byte[5];
    var i := BufferedWriter.Split(n, tmp);
    ok, pos := true, start;
    EmitLength(tmp[..i]);
    if i != len { return false, pos; }
    ghost var was := buf[..start];
    while i > 0
      invariant 0 <= i <= 5 && forall j :: 0 <= j < i ==> tmp[j] < 128
      invariant start <= pos <= buf.Length && pos + i == start + |Pack(n)|
      invariant buf[..pos] + BufferedWriter.Emit(tmp[..i]) == was + Pack(n)
    {
      i := i - 1;
      if pos >= buf.Length { return false, pos; }
      var b := if i > 0 then tmp[i] + 128 else tmp[i];
      ghost var t := tmp[..i];
      assert tmp[..i + 1] == t + [tmp[i]];
      BufferedWriter.EmitLast(t, tmp[i]);
      ghost var before := buf[..pos];
      buf[pos] := b;
      pos := pos + 1;
      assert buf[..pos] == before + [b];
      assert before + ([b] + BufferedWriter.Emit(t)) == (before + [b]) + BufferedWriter.Emit(t);
    }
    BufferedWriter.EmitNone();
    assert tmp[..0] == [];
    assert buf[..pos] + [] == buf[..pos];
  }

  method PutBytes(s: seq<byte>, buf: array<byte>, start: nat) returns (ok: bool, pos: nat)
    requires start <= buf.Length
    modifies buf
    ensures ok <==> start + |s| <= buf.Length
    ensures ok ==> pos == start + |s| && buf[..pos] == old(buf[..start]) + s
  {
    ok, pos := true, start;
    var i := 0;
    while i < |s|
      invariant i <= |s| && pos == start + i <= buf.Length
      invariant buf[..pos] == old(buf[..start]) + s[..i]
    {
      if pos >= buf.Length { return false, pos; }
      ghost var before := buf[..pos];
      buf[pos] := s[i];
      pos, i := pos + 1, i + 1;
      assert buf[..pos] == before + [s[i - 1]];
    }
    assert s[..i] == s;
  }

  method PutString(s: seq<byte>, buf: array<byte>, start: nat, len: nat) returns (ok: bool, pos: nat)
    requires |s| < TWO32 && start <= buf.Length
    modifies buf
    ensures ok <==> len == |Pack(|s|)| && start + |PackString(s)| <= buf.Length
    ensures ok ==> pos == start + |PackString(s)| && buf[..pos] == old(buf[..start]) + PackString(s)
  {
    hide Pack;
    ok, pos := PutPacked(|s|, buf, start, len);
    if !ok { return; }
    ok, pos := PutBytes(s, buf, pos);
    assert old(buf[..start]) + Pack(|s|) + s == old(buf[..start]) + PackString(s);
  }

  /** A length needs one byte exactly below 128, and its own size always does. */
  lemma LengthOfLength(n: nat)
    requires n < TWO32
    ensures 1 <= SizePacked(n) && SizePacked(SizePacked(n)) == 1
    ensures SizePacked(n) == 1 <==> n < 128
  {
    SizeBound(n);
  }

  /** Intention.toByteArray. The array has room for the sizes of the sizes of key
    * and value instead of their sizes, which is enough exactly for short ones.
    */
  method ToByteArray(e: Intention) returns (ok: bool, r: seq<byte>)
    requires |e.key| < TWO32 && |e.value| < TWO32
    ensures ok <==> Short(e)
    ensures ok ==> r == PackString(e.key) + PackString(e.value)
  {
    hide Pack, SizePacked;
    var klen, vlen := SizePacked(|e.key|), SizePacked(|e.value|);
    LengthOfLength(|e.key|);
    LengthOfLength(|e.value|);
    PackSize(|e.key|);
    PackSize(|e.value|);
    var tlen := |e.key| + |e.value| + SizePacked(klen) + SizePacked(vlen);
    var result := new byte[tlen];
    r := [];
    var pos;
    ok, pos := PutString(e.key, result, 0, klen);
    if !ok { return; }
    ok, pos := PutString(e.value, result, pos, vlen);
    if !ok { return; }
    r := result[..];
    assert result[..pos] == r;
  }

  lemma PairsSplit(s: seq<Intention>, i: nat)
    requires i < |s|
    ensures PackPairs(s, i) == PackString(s[i].key) + PackString(s[i].value) + PackPairs(s, i + 1)
  {}

  /** getIntentionBytes: the count and the bytes of each intention. */
  method IntentionBytes(s: seq<Intention>) returns (ok: bool, r: seq<byte>)
    requires FitsAll(s)
    ensures ok <==> AllShort(s)
    ensures ok ==> r == PackIntentions(s)
  {
    hide Pack, PackString, PackPairs, Short;
    ok, r := true, Pack(|s|);
    ghost var base := r;
    var i := 0;
    while i < |s|
      invariant i <= |s| && AllShort(s[..i])
      invariant r + PackPairs(s, i) == base + PackPairs(s, 0)
    {
      var bs;
      ok, bs := ToByteArray(s[i]);
      if !ok { return; }
      PairsSplit(s, i);
      assert r + bs + PackPairs(s, i + 1) == r + PackPairs(s, i);
      r := r + bs;
      i := i + 1;
    }
    assert s[..i] == s;
    NoPairs(s);
    assert r + [] == r;
  }

  lemma NoPairs(s: seq<Intention>)
    ensures PackPairs(s, |s|) == []
  {}

  lemma ShortSorted(s: seq<Intention>)
    ensures AllShort(s) <==> AllShort(Sorted(s))
  {
    hide Sorted, Short;
    SortedSorts(s);
    var t := Sorted(s);
    forall i | 0 <= i < |t| ensures t[i] in s {
      assert t[i] in multiset(t);
    }
    forall i | 0 <= i < |s| ensures s[i] in t {
      assert s[i] in multiset(s);
    }
  }

  class ByteList {
    var bytes: seq<byte>

    constructor ()
      ensures bytes == []
    {
      bytes := [];
    }

    method AddInt(n: nat)
      modifies this
      ensures bytes == old(bytes) + Pack(n)
    {
      bytes := bytes + Pack(n);
    }

    /** The intentions, sorted by key. */
    method AddIntentions(ints: seq<Intention>) returns (ok: bool)
      requires FitsAll(ints)
      modifies this
      ensures ok <==> AllShort(ints)
      ensures ok ==> bytes == old(bytes) + PackIntentions(Sorted(ints))
    {
      hide *;
      FitsSorted(ints);
      ShortSorted(ints);
      var more;
      ok, more := IntentionBytes(Sorted(ints));
      if ok { bytes := bytes + more; }
    }

    /** flatSignature of a data type; false if Java throws. */
    method AddType(t: Type) returns (ok: bool)
      requires Encodable(t)
      modifies this
      ensures ok <==> Printable(t)
      ensures ok ==> bytes == old(bytes) + Flat(t)
      decreases t, 1
    {
      hide Pack, PackIntentions, FlatIndices, FlatFields, Flat, FitsAll, AllShort;
      UnfoldFlat(t);
      ok := true;
      match t {
        case Void =>
          AddInt(STRUCT);
          AddInt(0);
          assert old(bytes) + Pack(STRUCT) + Pack(0) == old(bytes) + (Pack(STRUCT) + Pack(0));
        case Prim(p) => AddInt(PrimCode(p));
        case User(_, decl) => ok := AddType(decl);
        case Array(exps, elem) =>
          AddInt(ARRAY);
          AddInt(|exps|);
          AddIndices(exps);
          ok := AddType(elem);
          assert old(bytes) + Pack(ARRAY) + Pack(|exps|) + FlatIndices(exps, 0) + Flat(elem)
              == old(bytes) + (Pack(ARRAY) + Pack(|exps|) + FlatIndices(exps, 0) + Flat(elem));
        case Struct(fields) =>
          AddInt(STRUCT);
          AddInt(|fields|);
          ok := AddFields(t);
          assert old(bytes) + Pack(STRUCT) + Pack(|fields|) + FlatFields(t, 0)
              == old(bytes) + (Pack(STRUCT) + Pack(|fields|) + FlatFields(t, 0));
      }
    }

    method AddIndices(exps: seq<Exp>)
      modifies this
      ensures bytes == old(bytes) + FlatIndices(exps, 0)
    {
      hide Pack;
      var i := 0;
      while i < |exps|
        invariant i <= |exps| && bytes + FlatIndices(exps, i) == old(bytes) + FlatIndices(exps, 0)
      {
        ghost var before := bytes;
        AddInt(IndexCode(exps[i]));
        assert bytes + FlatIndices(exps, i + 1) == before + FlatIndices(exps, i);
        i := i + 1;
      }
      assert bytes + [] == bytes;
    }

    method AddFields(t: Type) returns (ok: bool)
      requires t.Struct? && Encodable(t)
      modifies this
      ensures ok <==> Printable(t)
      ensures ok ==> bytes == old(bytes) + FlatFields(t, 0)
      decreases t, 0
    {
      hide PackIntentions, Flat, Sorted, FitsAll, AllShort;
      ok := true;
      var i := 0;
      while i < |t.fields|
        invariant i <= |t.fields| && bytes + FlatFields(t, i) == old(bytes) + FlatFields(t, 0)
        invariant forall j :: 0 <= j < i ==> AllShort(t.fields[j].intentions) && Printable(t.fields[j].ty)
      {
        ghost var before := bytes;
        ok := AddIntentions(t.fields[i].intentions);
        if !ok { return; }
        ok := AddType(t.fields[i].ty);
        if !ok { return; }
        assert bytes + FlatFields(t, i + 1) == before + FlatFields(t, i);
        i := i + 1;
      }
      assert bytes + [] == bytes;
    }
  }

  lemma UnfoldFlat(t: Type)
    ensures Flat(t) == match t
                       case Void => Pack(STRUCT) + Pack(0)
                       case Prim(p) => Pack(PrimCode(p))
                       case User(_, decl) => Flat(decl)
                       case Struct(fields) => Pack(STRUCT) + Pack(|fields|) + FlatFields(t, 0)
                       case Array(exps, elem) => Pack(ARRAY) + Pack(|exps|) + FlatIndices(exps, 0) + Flat(elem)
  {}
}
