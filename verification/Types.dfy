/** The abstract syntax of LabComm data types (compiler/2014/LabComm.ast) and
  * the C values the generated code works on.
  */
module Types {
  import opened Wire

  datatype Prim = Boolean | Byte | Short | Int | Long | Float | Double | String | Sample

  /** One array index: a literal or `_`. */
  datatype Exp = Literal(n: nat) | Variable

  datatype Intention = Intention(key: seq<byte>, value: seq<byte>)

  datatype Field = Field(intentions: seq<Intention>, ty: Type)

  /** A use of a typedef carries the declaration that name analysis resolves it
    * to (compiler/2014/NameAnalysis.jrag:27-35), always an earlier one.
    */
  datatype Type =
    | Void
    | Prim(p: Prim)
    | User(name: seq<byte>, decl: Type)
    | Struct(fields: seq<Field>)
    | Array(exps: seq<Exp>, elem: Type)

  /** Dim.isVariable: chooses between FixedArrayType and VariableArrayType. */
  predicate IsVariable(exps: seq<Exp>) {
    exists i :: 0 <= i < |exps| && exps[i].Variable?
  }

  /** C_isDynamic: does a value of the type own allocated memory? */
  predicate IsDynamic(t: Type) {
    match t
    case Void => false
    case Prim(p) => p.String?
    case User(_, decl) => IsDynamic(decl)
    case Struct(fields) => exists i :: 0 <= i < |fields| && IsDynamic(fields[i].ty)
    case Array(exps, elem) => IsVariable(exps) || IsDynamic(elem)
  }

  /** The width of a primitive other than string. */
  function PrimSize(p: Prim): nat {
    match p
    case Boolean | Byte => 1
    case Short => 2
    case Int | Float | Sample => 4
    case Long | Double => 8
    case String => 0
  }

  // ------------------------------------------------------------------ indices

  /** The product of the dimensions from k on. */
  function Prod(dims: seq<nat>, k: nat): nat
    requires k <= |dims|
    decreases |dims| - k
  {
    if k == |dims| then 1 else dims[k] * Prod(dims, k + 1)
  }

  /** The literal dimensions; 0 where the dimension is read at run time. */
  function LitDims(exps: seq<Exp>): (dims: seq<nat>)
    ensures |dims| == |exps|
  {
    seq(|exps|, i requires 0 <= i < |exps| => if exps[i].Literal? then exps[i].n else 0)
  }

  /** C_fixedSizeof. */
  function FixedSizeof(t: Type): nat
    requires !IsDynamic(t)
    decreases t, 1, 0
  {
    match t
    case Void => 0
    case Prim(p) => PrimSize(p)
    case User(_, decl) => FixedSizeof(decl)
    case Struct(fields) => FixedFieldsSizeof(t, 0)
    case Array(exps, elem) => FixedSizeof(elem) * Prod(LitDims(exps), 0)
  }

  function FixedFieldsSizeof(t: Type, i: nat): nat
    requires t.Struct? && !IsDynamic(t) && i <= |t.fields|
    decreases t, 0, |t.fields| - i
  {
    if i == |t.fields| then 0 else FixedSizeof(t.fields[i].ty) + FixedFieldsSizeof(t, i + 1)
  }

  // ------------------------------------------------------------------- values

  /** A C object. `Bits` is the memory image of a primitive, `Str` a
    * NUL-terminated string without its NUL, `Ref` a sample reference named by
    * the local index of its signature (0 for NULL), `Arr` an array with its run
    * time dimensions and its elements in memory order, `Undef` an object that
    * has not been written yet. The empty record is the value of void.
    */
  datatype Value =
    | Undef
    | Bits(image: seq<byte>)
    | Str(chars: seq<byte>)
    | Ref(sample: nat)
    | Rec(fields: seq<Value>)
    | Arr(n: seq<nat>, a: seq<Value>)

  ghost predicate DimsFit(exps: seq<Exp>, n: seq<nat>) {
    && |n| == |exps|
    && forall i :: 0 <= i < |n| ==> n[i] < TWO32 && (exps[i].Literal? ==> n[i] == exps[i].n)
  }

  /** The values a C variable of type t may hold when it is encoded. */
  ghost predicate HasType(v: Value, t: Type)
    decreases t
  {
    match t
    case Void => v == Rec([])
    case Prim(p) =>
      (match p
       case String => v.Str? && |v.chars| < TWO31 && 0 !in v.chars
       case Sample => v.Ref?
       case _ => v.Bits? && |v.image| == PrimSize(p))
    case User(_, decl) => HasType(v, decl)
    case Struct(fields) =>
      && v.Rec? && |v.fields| == |fields|
      && forall i :: 0 <= i < |fields| ==> HasType(v.fields[i], fields[i].ty)
    case Array(exps, elem) =>
      && v.Arr? && DimsFit(exps, v.n) && |v.a| == Prod(v.n, 0)
      && forall i :: 0 <= i < |v.a| ==> HasType(v.a[i], elem)
  }

  /** The uninitialised object of a C declaration. */
  function Blank(t: Type): Value
    decreases t
  {
    match t
    case Void => Rec([])
    case Prim(_) => Undef
    case User(_, decl) => Blank(decl)
    case Struct(fields) =>
      Rec(seq(|fields|, i requires 0 <= i < |fields| => Blank(fields[i].ty)))
    case Array(exps, elem) =>
      if IsVariable(exps) then Arr(LitDims(exps), [])
      else Arr(LitDims(exps), seq(Prod(LitDims(exps), 0), _ => Blank(elem)))
  }

  // --------------------------------------------------------------- wire format

  type Index = x: nat | x < TWO32

  /** The sender's numbering of sample references: signature to wire index. */
  type Outgoing = map<nat, Index>

  /** The receiver's: wire index to its own signature. */
  type Incoming = map<nat, nat>

  datatype RefTables = RefTables(toWire: Outgoing, fromWire: Incoming)

  function ToWire(out: Outgoing, sample: nat): Index {
    if sample in out then out[sample] else 0
  }

  function FromWire(inc: Incoming, index: nat): nat {
    if index in inc then inc[index] else 0
  }

  /** The encoding of a value, as doc/tech_report.tex defines it: the variable
    * indices, then the elements in order; structs field by field.
    */
  ghost function Enc(t: Type, v: Value, out: Outgoing): seq<byte>
    requires HasType(v, t)
    decreases t, 1, 0
  {
    match t
    case Void => []
    case Prim(p) =>
      (match p
       case String => PackString(v.chars)
       case Sample => Word(ToWire(out, v.sample))
       case _ => Reverse(v.image))
    case User(_, decl) => Enc(decl, v, out)
    case Struct(_) => EncFields(t, v, out, 0)
    case Array(exps, elem) => EncLimits(exps, v.n, 0) + EncElems(elem, v.a, out, 0)
  }

  ghost function EncFields(t: Type, v: Value, out: Outgoing, i: nat): seq<byte>
    requires t.Struct? && HasType(v, t) && i <= |t.fields|
    decreases t, 0, |t.fields| - i
  {
    if i == |t.fields| then []
    else Enc(t.fields[i].ty, v.fields[i], out) + EncFields(t, v, out, i + 1)
  }

  ghost function EncLimits(exps: seq<Exp>, n: seq<nat>, i: nat): seq<byte>
    requires |n| == |exps| && i <= |n|
    decreases |n| - i
  {
    if i == |n| then []
    else (if exps[i].Variable? then Pack(n[i]) else []) + EncLimits(exps, n, i + 1)
  }

  ghost function EncElems(elem: Type, a: seq<Value>, out: Outgoing, k: nat): seq<byte>
    requires forall i :: 0 <= i < |a| ==> HasType(a[i], elem)
    decreases elem, 2, |a| - k
  {
    if k >= |a| then [] else Enc(elem, a[k], out) + EncElems(elem, a, out, k + 1)
  }

  /** What the receiver sees: the same value with each sample reference carried
    * over to the receiver's own signature.
    */
  function Carried(v: Value, rt: RefTables): Value
    decreases v
  {
    match v
    case Ref(s) => Ref(FromWire(rt.fromWire, ToWire(rt.toWire, s)))
    case Rec(fs) => Rec(seq(|fs|, i requires 0 <= i < |fs| => Carried(fs[i], rt)))
    case Arr(n, a) => Arr(n, seq(|a|, i requires 0 <= i < |a| => Carried(a[i], rt)))
    case _ => v
  }

  lemma {:induction false} CarriedHasType(v: Value, t: Type, rt: RefTables)
    requires HasType(v, t)
    ensures HasType(Carried(v, rt), t)
    decreases t
  {
    match t
    case Void =>
    case Prim(_) =>
    case User(_, decl) => CarriedHasType(v, decl, rt);
    case Struct(fields) =>
      forall i | 0 <= i < |fields| ensures HasType(Carried(v.fields[i], rt), fields[i].ty) {
        CarriedHasType(v.fields[i], fields[i].ty, rt);
      }
    case Array(_, elem) =>
      forall i | 0 <= i < |v.a| ensures HasType(Carried(v.a[i], rt), elem) {
        CarriedHasType(v.a[i], elem, rt);
      }
  }
}
