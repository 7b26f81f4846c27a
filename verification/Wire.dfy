/** Bytes on the wire: packed32 integers, length-prefixed strings and fixed-width
  * words, as read and written by lib/c/2014/labcomm2014_private.h.
  */
module Wire {

  type byte = x: int | 0 <= x < 256

  /** unsigned int is 32 bits wide. */
  const TWO32: nat := 0x1_0000_0000

  /** int is 32 bits wide and signed. */
  const TWO31: nat := 0x8000_0000

  /** The outcome of consuming a prefix of a byte string. */
  datatype Parsed<+T> = Fail | Ok(value: T, rest: seq<byte>)

  // ---------------------------------------------------------------- packed32

  /** The continuation chunks of n, most significant first. */
  function High(n: nat): seq<byte> {
    if n == 0 then [] else High(n / 128) + [128 + n % 128]
  }

  /** packed32: seven bits a byte, most significant chunk first, the high bit
    * set on every byte but the last.
    */
  function Pack(n: nat): seq<byte> {
    High(n / 128) + [n % 128]
  }

  /** The reader's loop: `acc` is the unsigned 32-bit accumulator. */
  function UnpackFrom(acc: nat, s: seq<byte>): (r: Parsed<nat>)
    ensures r.Ok? ==> r.value < TWO32 && |r.rest| < |s|
    decreases |s|
  {
    if s == [] then Fail
    else
      var next := (acc * 128 + s[0] % 128) % TWO32;
      if s[0] < 128 then Ok(next, s[1..]) else UnpackFrom(next, s[1..])
  }

  function Unpack(s: seq<byte>): (r: Parsed<nat>)
    ensures r.Ok? ==> r.value < TWO32 && |r.rest| < |s|
  {
    UnpackFrom(0, s)
  }

  /** labcomm2014_size_packed32. */
  function SizePacked(n: nat): nat {
    if n < 128 then 1 else 1 + SizePacked(n / 128)
  }

  lemma UnpackStep(acc: nat, b: byte, rest: seq<byte>)
    requires 128 <= b && acc * 128 + (b - 128) < TWO32
    ensures UnpackFrom(acc, [b] + rest) == UnpackFrom(acc * 128 + (b - 128), rest)
  {
    var s := [b] + rest;
    assert s[1..] == rest;
    assert b % 128 == b - 128;
  }

  lemma UnpackEnd(acc: nat, b: byte, rest: seq<byte>)
    requires b < 128 && acc * 128 + b < TWO32
    ensures UnpackFrom(acc, [b] + rest) == Ok(acc * 128 + b, rest)
  {
    var s := [b] + rest;
    assert s[1..] == rest;
    assert b % 128 == b;
  }

  lemma UnpackLast(n: nat, rest: seq<byte>)
    requires n < TWO32
    ensures UnpackFrom(n / 128, [n % 128] + rest) == Ok(n, rest)
  {
    hide UnpackFrom;
    assert n / 128 * 128 + n % 128 == n;
    UnpackEnd(n / 128, n % 128, rest);
  }

  lemma {:induction false} UnpackHigh(n: nat, rest: seq<byte>)
    requires n < TWO32
    ensures UnpackFrom(0, High(n) + rest) == UnpackFrom(n, rest)
  {
    if n == 0 {
      assert High(n) + rest == rest;
    } else {
      var tail := [128 + n % 128] + rest;
      assert High(n) + rest == High(n / 128) + tail;
      UnpackHigh(n / 128, tail);
      UnpackStep(n / 128, 128 + n % 128, rest);
      assert n / 128 * 128 + n % 128 == n;
    }
  }

  /** Reading undoes writing and leaves exactly what follows. */
  lemma PackRoundTrip(n: nat, rest: seq<byte>)
    requires n < TWO32
    ensures Unpack(Pack(n) + rest) == Ok(n, rest)
  {
    hide UnpackFrom, High;
    var tail := [n % 128] + rest;
    assert Pack(n) + rest == High(n / 128) + tail;
    UnpackHigh(n / 128, tail);
    UnpackLast(n, rest);
  }

  lemma {:induction false} HighSize(n: nat)
    ensures n > 0 ==> |High(n)| == SizePacked(n)
  {
    if n > 0 {
      if n < 128 {
        assert High(0) == [];
        assert High(n) == High(0) + [128 + n % 128];
      } else {
        HighSize(n / 128);
      }
    }
  }

  /** The size function predicts the number of bytes written. */
  lemma PackSize(n: nat)
    ensures |Pack(n)| == SizePacked(n)
  {
    HighSize(n / 128);
    if n < 128 { assert High(0) == []; }
  }

  lemma SizeBound(n: nat)
    requires n < TWO32
    ensures 1 <= SizePacked(n) <= 5
  {
    var (a, b) := (n / 128, n / 128 / 128);
    var (c, d) := (b / 128, b / 128 / 128);
    assert d < 128 && SizePacked(d) == 1;
    assert SizePacked(c) <= 2 && SizePacked(b) <= 3 && SizePacked(a) <= 4;
  }

  // ----------------------------------------------------------------- strings

  function PackString(s: seq<byte>): seq<byte> {
    Pack(|s|) + s
  }

  function TakeBytes(n: nat, s: seq<byte>): (r: Parsed<seq<byte>>) {
    if n <= |s| then Ok(s[..n], s[n..]) else Fail
  }

  lemma TakeAll(w: seq<byte>, rest: seq<byte>)
    ensures TakeBytes(|w|, w + rest) == Ok(w, rest)
  {}

  function UnpackString(s: seq<byte>): (r: Parsed<seq<byte>>)
    ensures r.Ok? ==> |r.rest| < |s|
  {
    match Unpack(s)
    case Fail => Fail
    case Ok(n, rest) => TakeBytes(n, rest)
  }

  lemma StringRoundTrip(s: seq<byte>, rest: seq<byte>)
    requires |s| < TWO32
    ensures UnpackString(PackString(s) + rest) == Ok(s, rest)
  {
    assert PackString(s) + rest == Pack(|s|) + (s + rest);
    PackRoundTrip(|s|, s + rest);
    assert (s + rest)[..|s|] == s && (s + rest)[|s|..] == rest;
  }

  /** A C loop over an int length: from 2^31 on it is negative, and nothing is read. */
  function TakeInt(n: nat, s: seq<byte>): (r: Parsed<seq<byte>>)
    ensures r.Ok? ==> |r.rest| <= |s|
  {
    if n >= TWO31 then Ok([], s) else TakeBytes(n, s)
  }

  /** labcomm2014_read_string, and the signature of a definition. */
  function ReadInt(s: seq<byte>): (r: Parsed<seq<byte>>)
    ensures r.Ok? ==> |r.rest| < |s|
  {
    match Unpack(s)
    case Fail => Fail
    case Ok(n, rest) => TakeInt(n, rest)
  }

  lemma ReadIntRoundTrip(s: seq<byte>, rest: seq<byte>)
    requires |s| < TWO31
    ensures ReadInt(PackString(s) + rest) == Ok(s, rest)
  {
    assert PackString(s) + rest == Pack(|s|) + (s + rest);
    PackRoundTrip(|s|, s + rest);
    assert (s + rest)[..|s|] == s && (s + rest)[|s|..] == rest;
  }

  // ------------------------------------------------------- fixed-width values

  /** Primitives lie in memory least significant byte first and travel most
    * significant byte first: the write and read loops run the index downwards.
    */
  function Reverse(s: seq<byte>): (r: seq<byte>)
    ensures |r| == |s|
  {
    seq(|s|, i requires 0 <= i < |s| => s[|s| - 1 - i])
  }

  lemma ReverseTwice(s: seq<byte>)
    ensures Reverse(Reverse(s)) == s
  {}

  lemma ReverseCons(b: byte, s: seq<byte>)
    ensures Reverse([b] + s) == Reverse(s) + [b]
  {}

  /** The four bytes of an int on the wire. */
  function Word(n: nat): seq<byte>
    requires n < TWO32
  {
    [n / 0x100_0000, n / 0x1_0000 % 256, n / 256 % 256, n % 256]
  }

  function FromWord(s: seq<byte>): nat
    requires |s| == 4
  {
    s[0] as int * 0x100_0000 + s[1] as int * 0x1_0000 + s[2] as int * 256 + s[3] as int
  }

  lemma WordRoundTrip(n: nat)
    requires n < TWO32
    ensures FromWord(Word(n)) == n
  {
    var a, b, c := n / 256, n / 0x1_0000, n / 0x100_0000;
    assert a / 256 == b && b / 256 == c;
    assert n == a * 256 + n % 256 && a == b * 256 + a % 256 && b == c * 256 + b % 256;
  }
}
