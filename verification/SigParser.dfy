/** The signature parser for small targets
  * (lib/c/2014/experimental/labcomm2014_sig_parser.c): recursive accept functions
  * that hand their results over on an explicit value stack.
  */
module SigParser {
  import opened Wire
  import opened Types
  import opened Intentions
  import opened Signatures
  import opened SignatureMatch
  import Session

  /** A type without the typedef names on the outside. */
  function Head(t: Type): (h: Type)
    ensures !h.User? && (h == t || h < t)
  {
    match t
    case User(_, decl) => Head(decl)
    case _ => t
  }

  lemma {:induction false} HeadSame(t: Type)
    ensures Flat(Head(t)) == Flat(t) && (Encodable(t) ==> Encodable(Head(t)))
    ensures Varies(Head(t)) == Varies(t) && Pushed(Head(t)) == Pushed(t)
  {
    match t
    case User(_, decl) => HeadSame(decl);
    case _ =>
  }

  predicate AnyZero(exps: seq<Exp>) {
    exists i :: 0 <= i < |exps| && IndexCode(exps[i]) == 0
  }

  /** Does parsing the type set current_decl_is_varsize? */
  predicate Varies(t: Type) {
    match t
    case Void => false
    case Prim(p) => p.String?
    case User(_, decl) => Varies(decl)
    case Struct(fields) => exists i :: 0 <= i < |fields| && Varies(fields[i].ty)
    case Array(exps, elem) => AnyZero(exps) || Varies(elem)
  }

  /** The size that parsing the type leaves on the stack, before it is cut to 32
    * bits.
    */
  function Pushed(t: Type): nat
    decreases t, 1, 0
  {
    match t
    case Void => 0
    case Prim(p) => PrimSize(p)
    case User(_, decl) => Pushed(decl)
    case Struct(_) => PushedFields(t, 0)
    case Array(exps, elem) => if AnyZero(exps) then 0 else Prod(LitDims(exps), 0) * Pushed(elem)
  }

  function PushedFields(t: Type, i: nat): nat
    requires t.Struct? && i <= |t.fields|
    decreases t, 0, |t.fields| - i
  {
    if i == |t.fields| then 0 else Pushed(t.fields[i].ty) + PushedFields(t, i + 1)
  }

  /** The flag is C_isDynamic except that it is also set for a literal index 0, and
    * without the flag the size is C_fixedSizeof.
    */
  lemma {:induction false} ParserAgrees(t: Type)
    ensures Varies(t) <==> IsDynamic(t) || !NoZeroIndex(t)
    ensures !Varies(t) ==> Pushed(t) == FixedSizeof(t)
    decreases t, 1, 0
  {
    match t
    case Void =>
    case Prim(_) =>
    case User(_, decl) => ParserAgrees(decl);
    case Struct(fields) =>
      forall i | 0 <= i < |fields|
        ensures Varies(fields[i].ty) <==> IsDynamic(fields[i].ty) || !NoZeroIndex(fields[i].ty)
      {
        ParserAgrees(fields[i].ty);
      }
      if !Varies(t) { ParserAgreesFields(t, 0); }
    case Array(exps, elem) =>
      ParserAgrees(elem);
      assert forall i :: 0 <= i < |exps| ==> (IndexCode(exps[i]) == 0 <==> exps[i].Variable? || exps[i] == Literal(0));
  }

  lemma {:induction false} ParserAgreesFields(t: Type, i: nat)
    requires t.Struct? && !Varies(t) && !IsDynamic(t) && i <= |t.fields|
    ensures PushedFields(t, i) == FixedFieldsSizeof(t, i)
    decreases t, 0, |t.fields| - i
  {
    if i < |t.fields| {
      ParserAgrees(t.fields[i].ty);
      ParserAgreesFields(t, i + 1);
    }
  }

  // ------------------------------------------------------------------ arithmetic

  lemma CutMul(a: nat, b: nat)
    ensures a % TWO32 * (b % TWO32) % TWO32 == a * b % TWO32
  {
    var (p, q, x, y) := (a / TWO32, b / TWO32, a % TWO32, b % TWO32);
    var k := p * q * TWO32 + p * y + x * q;
    assert a * b == (p * TWO32 + x) * (q * TWO32 + y) == k * TWO32 + x * y;
    CutAdd(x * y, k);
  }

  lemma CutAdd(a: nat, k: nat)
    ensures (k * TWO32 + a) % TWO32 == a % TWO32
  {}

  lemma AddCut(s: nat, x: nat, y: nat)
    ensures ((s + x % TWO32) % TWO32 + y) % TWO32 == (s + x + y) % TWO32
  {
    var sum := s + x % TWO32;
    CutAdd(sum % TWO32 + y, sum / TWO32);
    CutAdd(sum + y, x / TWO32);
  }

  // ------------------------------------------------------------------ the parser

  class Parser {
    /** The bytes received. */
    const c: seq<byte>
    var idx: nat
    /** The stack grows downwards; `top` is the next free slot. */
    const stack: array<nat>
    var top: int
    var varsize: bool

    ghost predicate Valid()
      reads this
    {
      idx <= |c| && 0 <= top < stack.Length
    }

    ghost function Rest(): seq<byte>
      requires idx <= |c|
      reads this
    {
      c[idx..]
    }

    /** The live part of the stack is as it was. */
    twostate predicate Kept(from: int)
      reads this, stack
    {
      forall k :: from < k < stack.Length && 0 <= k ==> stack[k] == old(stack[k])
    }

    constructor (bytes: seq<byte>, stacksize: nat)
      requires stacksize > 0
      ensures Valid() && c == bytes && Rest() == bytes && fresh(stack) && stack.Length == stacksize && top == stacksize - 1
      ensures !varsize
    {
      c, idx := bytes, 0;
      stack := new nat[stacksize];
      top := stacksize - 1;
      varsize := false;
    }

    /** push_val; a stack that would report an overrun is excluded. */
    method Push(e: nat)
      requires Valid() && 1 <= top
      modifies this`top, stack
      ensures Valid() && top == old(top) - 1 && stack[old(top)] == e && Kept(old(top))
    {
      stack[top] := e;
      top := top - 1;
    }

    /** pop_val. */
    method Pop() returns (e: nat)
      requires Valid() && top + 1 < stack.Length
      modifies this`top
      ensures Valid() && top == old(top) + 1 && e == stack[top]
    {
      top := top + 1;
      e := stack[top];
    }

    /** peek_varint: the value and its length in bytes. */
    method Peek() returns (n: nat, size: nat)
      requires Valid() && Unpack(Rest()).Ok?
      ensures idx + size <= |c| && Unpack(Rest()) == Ok(n, c[idx + size..])
    {
      n, size := 0, 0;
      ghost var goal := Unpack(Rest());
      while true
        invariant idx + size <= |c| && UnpackFrom(n, c[idx + size..]) == goal
        decreases |c| - idx - size
      {
        var b := c[idx + size];
        n := (n * 128 + b % 128) % TWO32;
        size := size + 1;
        if b < 128 { return; }
      }
    }

    /** get_varint. */
    method GetVarint(ghost n: nat, ghost rest: seq<byte>) returns (v: nat)
      requires Valid() && n < TWO32 && Rest() == Pack(n) + rest
      modifies this`idx
      ensures Valid() && v == n && Rest() == rest
    {
      hide Unpack, Pack;
      PackRoundTrip(n, rest);
      var size;
      v, size := Peek();
      idx := idx + size;
    }

    /** accept_user_id: the index is an int. */
    method AcceptUserId(ghost uid: nat, ghost rest: seq<byte>) returns (ok: bool)
      requires Valid() && 1 <= top && uid < TWO32 && Rest() == Pack(uid) + rest
      modifies this`idx, this`top, stack
      ensures Valid() && (ok <==> Session.USER <= uid < TWO31)
      ensures if ok then Rest() == rest && top == old(top) - 1 && stack[old(top)] == uid && Kept(old(top))
              else idx == old(idx) && top == old(top) && Kept(old(top) - 1)
    {
      hide Unpack, Pack;
      PackRoundTrip(uid, rest);
      var id, size := Peek();
      ok := Session.USER <= id < TWO31;
      if ok {
        idx := idx + size;
        Push(id);
      }
    }

    /** accept_string: getStr copies the bytes, the length goes on the stack. */
    method AcceptString(ghost s: seq<byte>, ghost rest: seq<byte>)
      requires Valid() && 1 <= top && |s| < TWO32 && Rest() == PackString(s) + rest
      modifies this`idx, this`top, stack
      ensures Valid() && Rest() == rest && top == old(top) - 1 && stack[old(top)] == |s| && Kept(old(top))
    {
      assert PackString(s) + rest == Pack(|s|) + (s + rest);
      hide Pack;
      var len := GetVarint(|s|, s + rest);
      assert |Rest()| == |c| - idx;
      var rem := |c| - idx;
      idx := idx + if len > rem then rem else len;
      assert (s + rest)[|s|..] == rest;
      Push(len);
    }

    /** One turn of the loop in accept_intentions. */
    method AcceptPair(ghost e: Intention, ghost tail: seq<byte>) returns (klen: nat, vlen: nat, pos: nat)
      requires Valid() && 1 <= top && |e.key| < TWO32 && |e.value| < TWO32
      requires Rest() == PackString(e.key) + (PackString(e.value) + tail)
      modifies this`idx, this`top, stack
      ensures Valid() && Rest() == tail && top == old(top) && Kept(old(top))
      ensures klen == |e.key| && vlen == |e.value| && pos <= |c| && PackString(e.value) <= c[pos..]
    {
      hide Pack, PackString;
      AcceptString(e.key, PackString(e.value) + tail);
      klen := Pop();
      pos := idx;
      AcceptString(e.value, tail);
      vlen := Pop();
    }

    /** accept_intentions: where the name starts and how long it is. */
    method AcceptIntentions(ghost ints: seq<Intention>, ghost rest: seq<byte>)
      requires Valid() && 2 <= top && FitsAll(ints) && Rest() == PackIntentions(ints) + rest
      modifies this`idx, this`top, stack
      ensures Valid() && Rest() == rest && top == old(top) - 2 && Kept(old(top))
      ensures stack[old(top)] == NameLength(ints, |ints|)
      ensures var k := NameIndex(ints, |ints|);
              k >= 0 ==> stack[old(top) - 1] <= |c| && PackString(ints[k].value) <= c[stack[old(top) - 1]..]
    {
      hide Pack, PackString, PackPairs, PackIntentions, NameIndex;
      IntentionsStart(ints, rest);
      NoName(ints);
      var num := GetVarint(|ints|, PackPairs(ints, 0) + rest);
      var i, npos: nat, nlen: nat := 0, 0, 0;
      while i < num
        invariant i <= num == |ints| && Valid() && top == old(top) && Kept(old(top))
        invariant Rest() == PackPairs(ints, i) + rest
        invariant nlen == NameLength(ints, i)
        invariant var k := NameIndex(ints, i); k >= 0 ==> npos <= |c| && PackString(ints[k].value) <= c[npos..]
      {
        PairsStep(ints, i, rest);
        var klen, vlen, pos := AcceptPair(ints[i], PackPairs(ints, i + 1) + rest);
        if klen == 0 { npos, nlen := pos, vlen; }
        NameStep(ints, i);
        i := i + 1;
      }
      PairsEnd(ints, rest);
      Push(nlen);
      Push(npos);
    }

    /** accept_type: pushes the size and the type code. Two free slots are enough
      * for any nesting depth.
      */
    method AcceptType(ghost t: Type, ghost rest: seq<byte>)
      requires Valid() && 2 <= top && !t.User? && Encodable(t) && Rest() == Flat(t) + rest
      modifies this`idx, this`top, this`varsize, stack
      ensures Valid() && Rest() == rest && top == old(top) - 2 && Kept(old(top))
      ensures stack[old(top)] == Pushed(t) % TWO32 && stack[old(top) - 1] == TypeCode(t)
      ensures varsize == (old(varsize) || Varies(t))
      decreases t, 2
    {
      hide Flat, FlatFields, FlatIndices, Pack, PackIntentions, Pushed, PushedFields, Varies, Encodable, Unpack, TypeCode,
           AfterCode, Head, Prod, LitDims, FieldsFrom, SizesFrom, VariesBefore, FieldCount, Sorted, FitsAll, SizeOfCode,
           AnyZero, NameIndex, NameLength;
      StartsWithCode(t, rest);
      PackRoundTrip(TypeCode(t), AfterCode(t, rest));
      var code, nbytes := Peek();
      CodesApart(t);
      if code == ARRAY {
        AcceptArrayDecl(t, rest);
        var element := Pop();
      } else if code == STRUCT {
        AcceptStructDecl(t, rest);
      } else {
        idx := idx + nbytes;
        PrimFacts(t, rest);
        if code == 0x27 { varsize := true; }
        Push(SizeOfCode(code));
      }
      Push(code);
    }

    /** accept_array_decl: pushes the size and the element's type code. */
    method AcceptArrayDecl(ghost t: Type, ghost rest: seq<byte>)
      requires Valid() && 2 <= top && t.Array? && Encodable(t) && Rest() == Flat(t) + rest
      modifies this`idx, this`top, this`varsize, stack
      ensures Valid() && Rest() == rest && top == old(top) - 2 && Kept(old(top))
      ensures stack[old(top)] == Pushed(t) % TWO32
      ensures varsize == (old(varsize) || Varies(t))
      decreases t, 1
    {
      hide Flat, FlatFields, FlatIndices, Pack, PackIntentions, Pushed, PushedFields, Varies, Encodable, Unpack, TypeCode,
           AfterCode, Head, Prod, LitDims, FieldsFrom, SizesFrom, VariesBefore, FieldCount, Sorted, FitsAll, SizeOfCode,
           AnyZero, NameIndex, NameLength;
      ghost var (exps, elem) := (t.exps, t.elem);
      ghost var last := Flat(elem) + rest;
      ArrayLayout(t, rest);
      var tid := GetVarint(ARRAY, Pack(|exps|) + (FlatIndices(exps, 0) + last));
      var nidx := GetVarint(|exps|, FlatIndices(exps, 0) + last);
      var numVar, size := ReadIndices(nidx, exps, last);
      HeadSame(elem);
      ArrayParts(t);
      AcceptType(Head(elem), rest);
      var et := Pop();
      var es := Pop();
      ArrayPushed(t, numVar, size, es);
      if numVar == 0 {
        Push(size * es % TWO32);
      } else {
        Push(0);
      }
      Push(et);
    }

    /** The loop over the indices. */
    method ReadIndices(nidx: nat, ghost exps: seq<Exp>, ghost rest: seq<byte>) returns (numVar: nat, size: nat)
      requires Valid() && nidx == |exps| && (forall j :: 0 <= j < |exps| ==> IndexCode(exps[j]) < TWO32)
      requires Rest() == FlatIndices(exps, 0) + rest
      modifies this`idx, this`varsize
      ensures Valid() && Rest() == rest
      ensures numVar > 0 <==> AnyZero(exps)
      ensures numVar == 0 ==> size == Prod(LitDims(exps), 0) % TWO32
      ensures varsize == (old(varsize) || AnyZero(exps))
    {
      hide Pack, FlatIndices, Prod, LitDims;
      numVar, size := 0, 1;
      OneTimes(Prod(LitDims(exps), 0));
      var i := 0;
      while i < nidx
        invariant i <= nidx && Valid() && Rest() == FlatIndices(exps, i) + rest
        invariant numVar > 0 <==> exists j :: 0 <= j < i && IndexCode(exps[j]) == 0
        invariant varsize == (old(varsize) || numVar > 0)
        invariant numVar == 0 ==> size * Prod(LitDims(exps), i) % TWO32 == Prod(LitDims(exps), 0) % TWO32
        invariant size < TWO32
      {
        IndexStep(exps, i, rest);
        var index := GetVarint(IndexCode(exps[i]), FlatIndices(exps, i + 1) + rest);
        if index == 0 {
          numVar := numVar + 1;
          varsize := true;
        } else {
          SizeStep(exps, i, size);
          size := size * index % TWO32;
        }
        i := i + 1;
      }
      IndicesEnd(exps, size, rest);
    }

    /** accept_struct_decl: pushes the sum of the field sizes. */
    method AcceptStructDecl(ghost t: Type, ghost rest: seq<byte>)
      requires Valid() && 2 <= top && (t.Struct? || t.Void?) && Encodable(t) && Rest() == Flat(t) + rest
      modifies this`idx, this`top, this`varsize, stack
      ensures Valid() && Rest() == rest && top == old(top) - 1 && Kept(old(top))
      ensures stack[old(top)] == Pushed(t) % TWO32
      ensures varsize == (old(varsize) || Varies(t))
      decreases t, 1
    {
      hide Flat, FlatFields, FlatIndices, Pack, PackIntentions, Pushed, PushedFields, Varies, Encodable, Unpack, TypeCode,
           AfterCode, Head, Prod, LitDims, FieldsFrom, SizesFrom, VariesBefore, FieldCount, Sorted, FitsAll, SizeOfCode,
           AnyZero, NameIndex, NameLength;
      ghost var n := FieldCount(t);
      StructLayout(t, rest);
      var tid := GetVarint(STRUCT, Pack(n) + FieldsFrom(t, 0, rest));
      var nf := GetVarint(n, FieldsFrom(t, 0, rest));
      var i, fieldsizes: nat := 0, 0;
      FieldsStart(t);
      while i < nf
        invariant i <= nf == n && Valid() && top == old(top) && Kept(old(top)) && Rest() == FieldsFrom(t, i, rest)
        invariant (fieldsizes + SizesFrom(t, i)) % TWO32 == Pushed(t) % TWO32 && fieldsizes < TWO32
        invariant varsize == (old(varsize) || VariesBefore(t, i))
      {
        FieldLayout(t, i, rest);
        AcceptField(t, i, rest);
        var one := Pop();
        SumStep(t, i, fieldsizes);
        fieldsizes := (fieldsizes + one) % TWO32;
        i := i + 1;
      }
      FieldsEnd(t, fieldsizes, rest);
      Push(fieldsizes);
    }

    /** accept_field: pushes the size. */
    method AcceptField(ghost t: Type, ghost i: nat, ghost rest: seq<byte>)
      requires Valid() && 2 <= top && t.Struct? && Encodable(t) && i < |t.fields| && Rest() == FieldsFrom(t, i, rest)
      modifies this`idx, this`top, this`varsize, stack
      ensures Valid() && Rest() == FieldsFrom(t, i + 1, rest) && top == old(top) - 1 && Kept(old(top))
      ensures stack[old(top)] == Pushed(t.fields[i].ty) % TWO32
      ensures varsize == (old(varsize) || Varies(t.fields[i].ty))
      decreases t, 0
    {
      hide Flat, FlatFields, FlatIndices, Pack, PackIntentions, Pushed, PushedFields, Varies, Encodable, Unpack, TypeCode,
           AfterCode, Head, Prod, LitDims, FieldsFrom, SizesFrom, VariesBefore, FieldCount, Sorted, FitsAll, SizeOfCode,
           AnyZero, NameIndex, NameLength;
      ghost var f := t.fields[i];
      CountFields(t);
      FieldLayout(t, i, rest);
      AcceptIntentions(Sorted(f.intentions), Flat(f.ty) + FieldsFrom(t, i + 1, rest));
      var pos := Pop();
      var len := Pop();
      HeadSame(f.ty);
      AcceptType(Head(f.ty), FieldsFrom(t, i + 1, rest));
      var ty := Pop();
    }
  }

  /** labcomm2014_varint_sizeof. */
  method VarintSizeof(n: nat) returns (r: nat)
    ensures r == SizePacked(n)
  {
    r := 1;
    if n < 128 { return; }
    var i: nat := n / 128;
    while i != 0
      invariant r + (if i == 0 then 0 else SizePacked(i)) == SizePacked(n)
      decreases i
    {
      r := r + 1;
      i := i / 128;
    }
  }

  /** What a sample declaration leaves in the parser's tables. */
  datatype Entry = Entry(uid: nat, name: seq<byte>, signature: seq<byte>, size: nat, varsize: bool)

  /** References are passed over. OutsideTables: there is no slot for the index, which
    * the C code does not check before it writes.
    */
  datatype Outcome = Recorded(entry: Entry) | Ignored | Refused | OutsideTables

  /** What accept_decl should come to. */
  function Accepting(kind: nat, uid: nat, name: seq<byte>, t: Type, maxName: nat, maxSig: nat, slots: nat): Outcome {
    var recorded := Pack(|Flat(t)|) + Flat(t);
    if uid < Session.USER || uid >= TWO31 then Refused
    else if kind != Session.SAMPLE_DEF then Ignored
    else if |name| >= maxName then Refused
    else if uid - Session.USER >= slots then OutsideTables
    else if |recorded| > maxSig then Refused
    else Recorded(Entry(uid, name, recorded, Pushed(t) % TWO32, Varies(t)))
  }

  /** accept_decl on the body of a SAMPLE_DEF or SAMPLE_REF packet. The recorded bytes
    * start at the length in front of the flat signature, so they are not the flat
    * signature that a decoder compares.
    */
  method AcceptDecl(p: Parser, kind: nat, maxName: nat, maxSig: nat, slots: nat,
                    ghost uid: nat, ghost name: seq<byte>, ghost t: Type, ghost rest: seq<byte>) returns (r: Outcome)
    requires p.Valid() && 2 <= p.top && uid < TWO32 && |name| < TWO31
    requires kind == Session.SAMPLE_DEF || kind == Session.SAMPLE_REF
    requires Encodable(t) && |Flat(t)| < TWO31 && p.Rest() == Session.DefBody(uid, name, Flat(t)) + rest
    modifies p`idx, p`top, p`varsize, p.stack
    ensures p.Valid() && p.top == old(p.top) && (forall k :: old(p.top) < k < p.stack.Length ==> p.stack[k] == old(p.stack[k]))
    ensures r.Recorded? || r.Ignored? ==> p.Rest() == rest
    ensures r == Accepting(kind, uid, name, t, maxName, maxSig, slots)
  {
    hide Flat, Pack, PackIntentions, Pushed, Varies, Encodable, Unpack, Head, TypeCode, FitsAll, NameIndex, NameLength, PackString, SizePacked;
    p.varsize := false;
    ghost var ints := [Intention([], name)];
    DeclLayout(uid, name, Flat(t), rest);
    ghost var tail := Pack(|Flat(t)|) + (Flat(t) + rest);
    var ok := p.AcceptUserId(uid, PackIntentions(ints) + tail);
    if !ok { return Refused; }
    var u := p.Pop();
    p.AcceptIntentions(ints, tail);
    var start := p.idx;
    var nstart := p.Pop();
    var nlen := p.Pop();
    var lenlen := VarintSizeof(nlen);
    OneName(name);
    NameBytes(p.c, nstart, name);
    if kind == Session.SAMPLE_DEF {
      if nlen >= maxName { return Refused; }
      if u - Session.USER >= slots { return OutsideTables; }
    }
    var text := p.c[nstart + lenlen..nstart + lenlen + nlen];
    var size, bytes := AcceptSignature(p, t, rest);
    if kind != Session.SAMPLE_DEF { return Ignored; }
    if |bytes| > maxSig { return Refused; }
    return Recorded(Entry(u, text, bytes, size, p.varsize));
  }

  /** accept_signature: the encoded size and the bytes from `start` on. */
  method AcceptSignature(p: Parser, ghost t: Type, ghost rest: seq<byte>) returns (size: nat, bytes: seq<byte>)
    requires p.Valid() && 2 <= p.top && Encodable(t) && |Flat(t)| < TWO31
    requires p.Rest() == Pack(|Flat(t)|) + (Flat(t) + rest)
    modifies p`idx, p`top, p`varsize, p.stack
    ensures p.Valid() && p.Rest() == rest && p.top == old(p.top)
    ensures forall k :: old(p.top) < k < p.stack.Length ==> p.stack[k] == old(p.stack[k])
    ensures size == Pushed(t) % TWO32 && bytes == Pack(|Flat(t)|) + Flat(t)
    ensures p.varsize == (old(p.varsize) || Varies(t))
  {
    hide Flat, Pack, Pushed, Varies, Encodable, Unpack, Head, TypeCode;
    var start := p.idx;
    var siglen := p.GetVarint(|Flat(t)|, Flat(t) + rest);
    HeadSame(t);
    p.AcceptType(Head(t), rest);
    var ty := p.Pop();
    size := p.Pop();
    Between(p.c, start, p.idx, |Flat(t)|, Flat(t), rest);
    bytes := p.c[start..p.idx];
  }

  lemma DeclLayout(uid: nat, name: seq<byte>, sig: seq<byte>, rest: seq<byte>)
    requires |name| < TWO32
    ensures var ints := [Intention([], name)];
            && FitsAll(ints)
            && Session.DefBody(uid, name, sig) + rest == Pack(uid) + (PackIntentions(ints) + (Pack(|sig|) + (sig + rest)))
  {
    hide Pack;
    var ints := [Intention([], name)];
    assert PackPairs(ints, 1) == [];
    assert PackPairs(ints, 0) == PackString([]) + PackString(name);
    assert PackString([]) == Pack(0);
    StartsWith(Pack(1), Pack(0), PackString(name), []);
    assert PackIntentions(ints) == Session.NameIntention(name);
    StartsWith(Pack(uid), PackIntentions(ints), Pack(|sig|), sig + rest);
    assert Session.DefBody(uid, name, sig) + rest == Pack(uid) + PackIntentions(ints) + Pack(|sig|) + (sig + rest);
  }

  lemma OneName(name: seq<byte>)
    ensures var ints := [Intention([], name)]; NameIndex(ints, 1) == 0 && NameLength(ints, 1) == |name|
  {}

  lemma {:induction false} NameBytes(c: seq<byte>, at: nat, name: seq<byte>)
    requires at <= |c| && PackString(name) <= c[at..]
    ensures at + SizePacked(|name|) + |name| <= |c|
    ensures c[at + SizePacked(|name|)..at + SizePacked(|name|) + |name|] == name
  {
    hide Pack, SizePacked;
    PackSize(|name|);
    var (n, k) := (SizePacked(|name|), SizePacked(|name|) + |name|);
    assert PackString(name)[n..] == name;
    assert c[at..][..k] == PackString(name);
    assert c[at + n..at + k] == c[at..][..k][n..];
  }

  lemma Between(c: seq<byte>, start: nat, end: nat, n: nat, sig: seq<byte>, rest: seq<byte>)
    requires start <= |c| && end <= |c| && c[start..] == Pack(n) + (sig + rest) && c[end..] == rest
    ensures start <= end && c[start..end] == Pack(n) + sig
  {
    assert |c| - start == |Pack(n)| + |sig| + |rest|;
    assert c[start..][..end - start] == Pack(n) + sig;
    assert c[start..end] == c[start..][..end - start];
  }

  // ------------------------------------------------------- layout of a signature

  function TypeCode(t: Type): nat {
    match Head(t)
    case Prim(p) => PrimCode(p)
    case Array(_, _) => ARRAY
    case _ => STRUCT
  }

  /** The switch of accept_type for primitive types. */
  function SizeOfCode(code: nat): nat {
    match code
    case 0x20 | 0x21 => 1
    case 0x22 => 2
    case 0x23 | 0x25 | 0x28 => 4
    case 0x24 | 0x26 => 8
    case _ => 0
  }

  ghost function AfterCode(t: Type, rest: seq<byte>): seq<byte>
    requires !t.User?
  {
    match t
    case Void => Pack(0) + rest
    case Prim(_) => rest
    case Struct(fields) => Pack(|fields|) + (FlatFields(t, 0) + rest)
    case Array(exps, elem) => Pack(|exps|) + (FlatIndices(exps, 0) + (Flat(elem) + rest))
  }

  lemma StartsWithCode(t: Type, rest: seq<byte>)
    requires !t.User?
    ensures Flat(t) + rest == Pack(TypeCode(t)) + AfterCode(t, rest) && TypeCode(t) < TWO32
  {
    hide Pack, FlatFields, FlatIndices;
    match t
    case Void => StartsWith(Pack(STRUCT), Pack(0), rest, []);
    case Prim(_) =>
    case Struct(fields) => StartsWith(Pack(STRUCT), Pack(|fields|), FlatFields(t, 0), rest);
    case Array(exps, elem) =>
      StartsWith(Pack(ARRAY), Pack(|exps|), FlatIndices(exps, 0), Flat(elem) + rest);
      assert Flat(t) + rest == Pack(ARRAY) + Pack(|exps|) + FlatIndices(exps, 0) + (Flat(elem) + rest);
  }

  lemma CodesApart(t: Type)
    requires !t.User?
    ensures TypeCode(t) == ARRAY <==> t.Array?
    ensures TypeCode(t) == STRUCT <==> t.Struct? || t.Void?
    ensures ARRAY != STRUCT
  {}

  lemma PrimFacts(t: Type, rest: seq<byte>)
    requires t.Prim?
    ensures AfterCode(t, rest) == rest && SizeOfCode(TypeCode(t)) == Pushed(t) % TWO32
    ensures TypeCode(t) == 0x27 <==> Varies(t)
  {}

  lemma ArrayLayout(t: Type, rest: seq<byte>)
    requires t.Array? && Encodable(t)
    ensures Flat(t) + rest == Pack(ARRAY) + (Pack(|t.exps|) + (FlatIndices(t.exps, 0) + (Flat(t.elem) + rest)))
    ensures |t.exps| < TWO32 && ARRAY < TWO32 && forall j :: 0 <= j < |t.exps| ==> IndexCode(t.exps[j]) < TWO32
  {
    hide Pack, FlatIndices, Flat;
    StartsWithCode(t, rest);
  }

  lemma ArrayParts(t: Type)
    requires t.Array? && Encodable(t)
    ensures Encodable(t.elem) && Varies(t) == (AnyZero(t.exps) || Varies(t.elem))
  {}

  lemma ArrayPushed(t: Type, numVar: nat, size: nat, es: nat)
    requires t.Array? && (numVar > 0 <==> AnyZero(t.exps)) && es == Pushed(t.elem) % TWO32
    requires numVar == 0 ==> size == Prod(LitDims(t.exps), 0) % TWO32
    ensures (if numVar == 0 then size * es % TWO32 else 0) == Pushed(t) % TWO32
  {
    hide Prod, LitDims;
    if numVar == 0 { CutMul(Prod(LitDims(t.exps), 0), Pushed(t.elem)); }
  }

  lemma OneTimes(n: nat)
    ensures 1 * n % TWO32 == n % TWO32
  {}

  lemma IndexStep(exps: seq<Exp>, i: nat, rest: seq<byte>)
    requires i < |exps|
    ensures FlatIndices(exps, i) + rest == Pack(IndexCode(exps[i])) + (FlatIndices(exps, i + 1) + rest)
  {
    hide Pack;
  }

  lemma SizeStep(exps: seq<Exp>, i: nat, size: nat)
    requires i < |exps| && IndexCode(exps[i]) != 0
    ensures size * IndexCode(exps[i]) % TWO32 * Prod(LitDims(exps), i + 1) % TWO32 == size * Prod(LitDims(exps), i) % TWO32
  {
    var (n, p) := (IndexCode(exps[i]), Prod(LitDims(exps), i + 1));
    assert Prod(LitDims(exps), i) == n * p;
    Assoc(size, n, p);
    CutMul(size * n, p);
    CutMul(size * n % TWO32, p);
    assert size * n % TWO32 % TWO32 == size * n % TWO32;
  }

  lemma Assoc(a: nat, b: nat, c: nat)
    ensures a * (b * c) == a * b * c
  {}

  lemma IndicesEnd(exps: seq<Exp>, size: nat, rest: seq<byte>)
    ensures FlatIndices(exps, |exps|) + rest == rest && size * Prod(LitDims(exps), |exps|) == size
  {}

  /** The fields of a struct; void is written as a struct without fields. */
  ghost function FieldCount(t: Type): nat {
    if t.Struct? then |t.fields| else 0
  }

  ghost function FieldsFrom(t: Type, i: nat, rest: seq<byte>): seq<byte> {
    (if t.Struct? && i <= |t.fields| then FlatFields(t, i) else []) + rest
  }

  ghost function SizesFrom(t: Type, i: nat): nat {
    if t.Struct? && i <= |t.fields| then PushedFields(t, i) else 0
  }

  ghost predicate VariesBefore(t: Type, n: nat) {
    t.Struct? && exists i :: 0 <= i < n && i < |t.fields| && Varies(t.fields[i].ty)
  }

  lemma StructLayout(t: Type, rest: seq<byte>)
    requires (t.Struct? || t.Void?) && Encodable(t)
    ensures Flat(t) + rest == Pack(STRUCT) + (Pack(FieldCount(t)) + FieldsFrom(t, 0, rest))
    ensures FieldCount(t) < TWO32 && STRUCT < TWO32
  {
    hide Pack, FlatFields, Flat;
    StartsWithCode(t, rest);
    if t.Void? { assert [] + rest == rest; }
  }

  lemma CountFields(t: Type)
    requires t.Struct?
    ensures FieldCount(t) == |t.fields|
  {}

  lemma FieldsStart(t: Type)
    requires t.Struct? || t.Void?
    ensures (0 + SizesFrom(t, 0)) % TWO32 == Pushed(t) % TWO32 && !VariesBefore(t, 0) && 0 < TWO32
  {}

  lemma FieldLayout(t: Type, i: nat, rest: seq<byte>)
    requires (t.Struct? || t.Void?) && i < FieldCount(t) && Encodable(t)
    ensures t.Struct? && FieldCount(t) == |t.fields| && Encodable(t.fields[i].ty) && FitsAll(Sorted(t.fields[i].intentions))
    ensures FieldsFrom(t, i, rest)
            == PackIntentions(Sorted(t.fields[i].intentions)) + (Flat(t.fields[i].ty) + FieldsFrom(t, i + 1, rest))
  {
    hide PackIntentions, Flat, Sorted;
    FitsSorted(t.fields[i].intentions);
    StartsWith(PackIntentions(Sorted(t.fields[i].intentions)), Flat(t.fields[i].ty), FlatFields(t, i + 1), rest);
  }

  lemma SumStep(t: Type, i: nat, sum: nat)
    requires t.Struct? && i < |t.fields|
    ensures ((sum + Pushed(t.fields[i].ty) % TWO32) % TWO32 + SizesFrom(t, i + 1)) % TWO32 == (sum + SizesFrom(t, i)) % TWO32
    ensures VariesBefore(t, i + 1) == (VariesBefore(t, i) || Varies(t.fields[i].ty))
  {
    hide Pushed, Varies;
    AddCut(sum, Pushed(t.fields[i].ty), SizesFrom(t, i + 1));
    NextField(t, i);
  }

  lemma NextField(t: Type, i: nat)
    requires t.Struct? && i < |t.fields|
    ensures SizesFrom(t, i) == Pushed(t.fields[i].ty) + SizesFrom(t, i + 1)
    ensures VariesBefore(t, i + 1) == (VariesBefore(t, i) || Varies(t.fields[i].ty))
  {
    hide Pushed, Varies;
  }

  lemma FieldsEnd(t: Type, sum: nat, rest: seq<byte>)
    requires (t.Struct? || t.Void?) && sum < TWO32
    ensures (sum + SizesFrom(t, FieldCount(t))) % TWO32 == sum
    ensures FieldsFrom(t, FieldCount(t), rest) == rest && VariesBefore(t, FieldCount(t)) == Varies(t)
  {}

  /** The last intention with an empty key among the first n, -1 if there is none. */
  function NameIndex(ints: seq<Intention>, n: nat): (k: int)
    requires n <= |ints|
    ensures k < n && (k >= 0 ==> ints[k].key == [])
  {
    if n == 0 then -1 else if ints[n - 1].key == [] then n - 1 else NameIndex(ints, n - 1)
  }

  function NameLength(ints: seq<Intention>, n: nat): nat
    requires n <= |ints|
  {
    var k := NameIndex(ints, n);
    if k >= 0 then |ints[k].value| else 0
  }

  lemma NoName(ints: seq<Intention>)
    ensures NameIndex(ints, 0) == -1
  {}

  lemma NameStep(ints: seq<Intention>, i: nat)
    requires i < |ints|
    ensures NameIndex(ints, i + 1) == if ints[i].key == [] then i else NameIndex(ints, i)
  {}

  lemma PairsEnd(ints: seq<Intention>, rest: seq<byte>)
    ensures PackPairs(ints, |ints|) + rest == rest
  {}

  lemma IntentionsStart(ints: seq<Intention>, rest: seq<byte>)
    ensures PackIntentions(ints) + rest == Pack(|ints|) + (PackPairs(ints, 0) + rest)
  {}

  lemma PairsStep(ints: seq<Intention>, i: nat, rest: seq<byte>)
    requires i < |ints|
    ensures PackPairs(ints, i) + rest
            == PackString(ints[i].key) + (PackString(ints[i].value) + (PackPairs(ints, i + 1) + rest))
  {
    hide PackString;
  }
}
