/** What a byte-for-byte match of two signatures, as the decoder makes it
  * (lib/c/2014/labcomm2014_decoder.c), tells about the two types.
  */
module SignatureMatch {
  import opened Wire
  import opened Types
  import opened Intentions
  import opened Signatures

  /** What values and encodings depend on: typedefs expanded, no intentions, and of an
    * array with a literal index 0 only the indices, because it has no elements.
    */
  function Skeleton(t: Type): Type
    decreases t
  {
    match t
    case Void => Struct([])
    case Prim(_) => t
    case User(_, decl) => Skeleton(decl)
    case Struct(fields) =>
      Struct(seq(|fields|, i requires 0 <= i < |fields| => Field([], Skeleton(fields[i].ty))))
    case Array(exps, elem) => Array(exps, if Literal(0) in exps then Void else Skeleton(elem))
  }

  lemma {:induction false} ProdZero(n: seq<nat>, i: nat, k: nat)
    requires k <= i < |n| && n[i] == 0
    ensures Prod(n, k) == 0
    decreases i - k
  {
    if k < i { ProdZero(n, i, k + 1); }
  }

  lemma NoElements(exps: seq<Exp>, n: seq<nat>)
    requires DimsFit(exps, n) && Literal(0) in exps
    ensures Prod(n, 0) == 0
  {
    var i :| 0 <= i < |exps| && exps[i] == Literal(0);
    ProdZero(n, i, 0);
  }

  /** A type and its skeleton have the same values and the same encodings. */
  lemma {:induction false} SkeletonSameWire(t: Type, v: Value, out: Outgoing)
    ensures HasType(v, t) <==> HasType(v, Skeleton(t))
    ensures HasType(v, t) ==> Enc(t, v, out) == Enc(Skeleton(t), v, out)
    decreases t, 1, 0
  {
    match t
    case Void =>
      if v == Rec([]) { assert EncFields(Struct([]), v, out, 0) == []; }
    case Prim(_) =>
    case User(_, decl) => SkeletonSameWire(decl, v, out);
    case Struct(fields) =>
      if v.Rec? && |v.fields| == |fields| {
        forall i | 0 <= i < |fields|
          ensures HasType(v.fields[i], fields[i].ty) <==> HasType(v.fields[i], Skeleton(t).fields[i].ty)
        {
          SkeletonSameWire(fields[i].ty, v.fields[i], out);
        }
        if HasType(v, t) { SkeletonFields(t, v, out, 0); }
      }
    case Array(exps, elem) => SkeletonArray(t, v, out);
  }

  lemma {:induction false} SkeletonArray(t: Type, v: Value, out: Outgoing)
    requires t.Array?
    ensures HasType(v, t) <==> HasType(v, Skeleton(t))
    ensures HasType(v, t) ==> Enc(t, v, out) == Enc(Skeleton(t), v, out)
    decreases t, 0, 0
  {
    hide EncLimits, DimsFit, Prod;
    if v.Arr? && DimsFit(t.exps, v.n) && |v.a| == Prod(v.n, 0) {
      if Literal(0) in t.exps {
        NoElements(t.exps, v.n);
      } else {
        forall i | 0 <= i < |v.a| ensures HasType(v.a[i], t.elem) <==> HasType(v.a[i], Skeleton(t.elem)) {
          SkeletonSameWire(t.elem, v.a[i], out);
        }
        if HasType(v, t) { SkeletonElems(t.elem, v.a, out, 0); }
      }
    }
  }

  lemma {:induction false} SkeletonFields(t: Type, v: Value, out: Outgoing, i: nat)
    requires t.Struct? && HasType(v, t) && HasType(v, Skeleton(t)) && i <= |t.fields|
    ensures EncFields(t, v, out, i) == EncFields(Skeleton(t), v, out, i)
    decreases t, 0, |t.fields| - i
  {
    if i < |t.fields| {
      SkeletonSameWire(t.fields[i].ty, v.fields[i], out);
      SkeletonFields(t, v, out, i + 1);
    }
  }

  lemma {:induction false} SkeletonElems(elem: Type, a: seq<Value>, out: Outgoing, k: nat)
    requires forall i :: 0 <= i < |a| ==> HasType(a[i], elem) && HasType(a[i], Skeleton(elem))
    ensures EncElems(elem, a, out, k) == EncElems(Skeleton(elem), a, out, k)
    decreases elem, 2, |a| - k
  {
    if k < |a| {
      SkeletonSameWire(elem, a[k], out);
      SkeletonElems(elem, a, out, k + 1);
    }
  }

  // ----------------------------------------------------------------- telling types apart

  /** Some value of a type. */
  function Plain(t: Type): Value
    decreases t
  {
    match t
    case Void => Rec([])
    case Prim(p) => if p.String? then Str([]) else if p.Sample? then Ref(0) else Bits(seq(PrimSize(p), _ => 0))
    case User(_, decl) => Plain(decl)
    case Struct(fields) => Rec(seq(|fields|, i requires 0 <= i < |fields| => Plain(fields[i].ty)))
    case Array(exps, elem) => Arr(LitDims(exps), seq(Prod(LitDims(exps), 0), _ => Plain(elem)))
  }

  lemma {:induction false} PlainHasType(t: Type)
    requires Encodable(t)
    ensures HasType(Plain(t), t)
    decreases t
  {
    match t
    case Void =>
    case Prim(_) =>
    case User(_, decl) => PlainHasType(decl);
    case Struct(fields) =>
      forall i | 0 <= i < |fields| ensures HasType(Plain(fields[i].ty), fields[i].ty) { PlainHasType(fields[i].ty); }
    case Array(exps, elem) =>
      assert forall i :: 0 <= i < |exps| ==> LitDims(exps)[i] == IndexCode(exps[i]);
      PlainHasType(elem);
  }

  /** The same indices, with 1 for the variable ones. */
  function Ones(exps: seq<Exp>): (n: seq<nat>)
    ensures |n| == |exps|
  {
    seq(|exps|, i requires 0 <= i < |exps| => if exps[i].Literal? then exps[i].n else 1)
  }

  lemma {:induction false} ProdPositive(n: seq<nat>, k: nat)
    requires k <= |n| && forall i :: 0 <= i < |n| ==> n[i] > 0
    ensures Prod(n, k) > 0
    decreases |n| - k
  {
    if k < |n| { ProdPositive(n, k + 1); }
  }

  /** Types with equal canonical types but different skeletons do not have the same
    * values.
    */
  lemma {:induction false} Distinguish(t: Type, u: Type) returns (v: Value)
    requires Encodable(t) && Encodable(u) && Canon(t) == Canon(u) && Skeleton(t) != Skeleton(u)
    ensures HasType(v, t) <==> !HasType(v, u)
    decreases t, u
  {
    hide DictOf, Sorted, FitsAll;
    if t.User? {
      v := Distinguish(t.decl, u);
    } else if u.User? {
      v := Distinguish(t, u.decl);
    } else if t.Array? {
      v := DistinguishArrays(t, u);
    } else {
      v := DistinguishStructs(t, u);
    }
  }

  lemma {:induction false} DistinguishStructs(t: Type, u: Type) returns (v: Value)
    requires !t.User? && !u.User? && !t.Array?
    requires Encodable(t) && Encodable(u) && Canon(t) == Canon(u) && Skeleton(t) != Skeleton(u)
    ensures HasType(v, t) <==> !HasType(v, u)
    decreases t, u, 0
  {
    hide DictOf, Sorted, FitsAll;
    assert t.Struct? && u.Struct? && |t.fields| == |u.fields|;
    var i :| 0 <= i < |t.fields| && Skeleton(t.fields[i].ty) != Skeleton(u.fields[i].ty);
    assert Canon(t).fields[i].ty == Canon(u).fields[i].ty;
    var w := Distinguish(t.fields[i].ty, u.fields[i].ty);
    PlainHasType(t);
    PlainHasType(u);
    v := if HasType(w, t.fields[i].ty) then Rec(Plain(t).fields[i := w]) else Rec(Plain(u).fields[i := w]);
    assert v.fields[i] == w;
  }

  lemma {:induction false} DistinguishArrays(t: Type, u: Type) returns (v: Value)
    requires t.Array? && !u.User?
    requires Encodable(t) && Encodable(u) && Canon(t) == Canon(u) && Skeleton(t) != Skeleton(u)
    ensures HasType(v, t) <==> !HasType(v, u)
    decreases t, u, 0
  {
    assert u.Array? && CanonExps(t.exps) == CanonExps(u.exps);
    if t.exps == u.exps {
      assert Literal(0) !in t.exps;
      var w := Distinguish(t.elem, u.elem);
      var n := Ones(t.exps);
      assert forall i :: 0 <= i < |n| ==> t.exps[i] in t.exps;
      ProdPositive(n, 0);
      v := Arr(n, seq(Prod(n, 0), _ => w));
      assert v.a[0] == w;
      assert forall i :: 0 <= i < |n| ==> t.exps[i].Literal? ==> IndexCode(t.exps[i]) == n[i];
      assert DimsFit(t.exps, n);
    } else {
      assert |CanonExps(t.exps)| == |CanonExps(u.exps)|;
      var i :| 0 <= i < |t.exps| && t.exps[i] != u.exps[i];
      assert CanonExps(t.exps)[i] == CanonExps(u.exps)[i];
      if t.exps[i].Variable? { v := WithOne(t, i); } else { v := WithOne(u, i); }
    }
  }

  /** A value whose dimension i, a variable one, is 1. */
  lemma WithOne(t: Type, i: nat) returns (v: Value)
    requires t.Array? && Encodable(t) && i < |t.exps| && t.exps[i].Variable?
    ensures HasType(v, t) && v.n[i] == 1
  {
    PlainHasType(t.elem);
    var n := LitDims(t.exps)[i := 1];
    assert forall j :: 0 <= j < |n| ==> t.exps[j].Literal? ==> IndexCode(t.exps[j]) == n[j];
    v := Arr(n, seq(Prod(n, 0), _ => Plain(t.elem)));
  }

  // ---------------------------------------------------------------------------- matches

  /** The receiver's decoder reads the sender's encoding: the same values, and the same
    * bytes for each.
    */
  ghost predicate SameWire(t: Type, u: Type) {
    forall v, out :: SameFor(t, u, v, out)
  }

  ghost predicate SameFor(t: Type, u: Type, v: Value, out: Outgoing) {
    (HasType(v, t) <==> HasType(v, u)) && (HasType(v, t) ==> Enc(t, v, out) == Enc(u, v, out))
  }

  /** Types with equal signatures have the same values and encodings if and only if
    * their literal indices 0 are at the same places, arrays that such an index leaves
    * without elements aside.
    */
  lemma MatchMeansSameWire(t: Type, u: Type)
    requires Encodable(t) && Encodable(u) && Flat(t) == Flat(u)
    ensures SameWire(t, u) <==> Skeleton(t) == Skeleton(u)
  {
    hide Canon, Flat, HasType, Enc, Encodable, Skeleton;
    if Skeleton(t) == Skeleton(u) {
      forall v, out ensures SameFor(t, u, v, out) {
        SkeletonSameWire(t, v, out);
        SkeletonSameWire(u, v, out);
      }
    } else {
      FlatInjective(t, u);
      var v := Distinguish(t, u);
      var out: Outgoing := map[];
      assert !SameFor(t, u, v, out);
    }
  }

  /** No literal index is 0, which a signature cannot tell from `_`. */
  ghost predicate NoZeroIndex(t: Type)
    decreases t
  {
    match t
    case Void => true
    case Prim(_) => true
    case User(_, decl) => NoZeroIndex(decl)
    case Struct(fields) => forall i :: 0 <= i < |fields| ==> NoZeroIndex(fields[i].ty)
    case Array(exps, elem) => Literal(0) !in exps && NoZeroIndex(elem)
  }

  lemma {:induction false} CanonSkeleton(t: Type)
    requires NoZeroIndex(t)
    ensures Skeleton(Canon(t)) == Skeleton(t)
    decreases t
  {
    hide DictOf, Sorted;
    match t
    case Void =>
    case Prim(_) =>
    case User(_, decl) => CanonSkeleton(decl);
    case Struct(fields) =>
      forall i | 0 <= i < |fields| ensures Skeleton(Canon(fields[i].ty)) == Skeleton(fields[i].ty) {
        CanonSkeleton(fields[i].ty);
      }
      assert Skeleton(Canon(t)).fields == Skeleton(t).fields;
    case Array(exps, elem) =>
      CanonSkeleton(elem);
      assert CanonExps(exps) == exps;
  }

  /** Without literal indices 0 a match is enough. */
  lemma MatchWithoutZeros(t: Type, u: Type)
    requires Encodable(t) && Encodable(u) && NoZeroIndex(t) && NoZeroIndex(u) && Flat(t) == Flat(u)
    ensures Skeleton(t) == Skeleton(u)
  {
    hide *;
    FlatInjective(t, u);
    CanonSkeleton(t);
    CanonSkeleton(u);
  }

  /** A literal index of 0 is not told from a variable one, although the encodings
    * differ: the variable array sends its length.
    */
  lemma ZeroIndexClash(elem: Type, out: Outgoing)
    ensures var (t, u, v) := (Array([Literal(0)], elem), Array([Variable], elem), Arr([0], []));
            && Flat(t) == Flat(u) && HasType(v, t) && HasType(v, u)
            && Enc(t, v, out) == [] && Enc(u, v, out) == [0]
  {
    var (t, u, v) := (Array([Literal(0)], elem), Array([Variable], elem), Arr([0], []));
    assert FlatIndices(t.exps, 1) == FlatIndices(u.exps, 1) == [];
    assert FlatIndices(t.exps, 0) == FlatIndices(u.exps, 0);
    assert Prod([0], 1) == 1 && Prod([0], 0) == 0;
    assert EncLimits(t.exps, [0], 1) == [] && EncLimits(u.exps, [0], 1) == [];
    assert High(0) == [] && Pack(0) == [0];
  }
}
