/** The buffered writer (lib/c/2014/labcomm2014_fd_writer.c) and the inline
  * functions that write through it (lib/c/2014/labcomm2014_private.h), for any
  * buffer size and any pattern of partial writes.
  */
module BufferedWriter {
  import opened Wire

  /** The bytes the second loop of write_packed32 takes from tmp, highest first. */
  ghost function Emit(tmp: seq<byte>): seq<byte> {
    if tmp == [] then []
    else
      var last := tmp[|tmp| - 1];
      [if |tmp| > 1 && last < 128 then last + 128 else last] + Emit(tmp[..|tmp| - 1])
  }

  lemma EmitLast(t: seq<byte>, b: byte)
    requires b < 128
    ensures Emit(t + [b]) == [if t != [] then b + 128 else b] + Emit(t)
  {
    assert (t + [b])[..|t|] == t;
  }

  lemma EmitNone()
    ensures Emit([]) == []
  {}

  lemma EmitFirst(d: nat)
    ensures Emit([d % 128]) == [d % 128] && Pack(d) == High(d / 128) + Emit([d % 128])
  {
    assert [d % 128][..0] == [];
  }

  lemma EmitMore(t: seq<byte>, d: nat)
    requires t != [] && d > 0
    ensures High(d) + Emit(t) == High(d / 128) + Emit(t + [d % 128])
  {
    hide High, Emit;
    HighStep(d);
    EmitLast(t, d % 128);
    assert High(d) + Emit(t) == High(d / 128) + ([128 + d % 128] + Emit(t));
  }

  lemma HighStep(d: nat)
    requires d > 0
    ensures High(d) == High(d / 128) + [128 + d % 128]
  {}

  /** The first loop of write_packed32: seven bits at a time, lowest first. Five
    * bytes are enough for 32 bits.
    */
  method Split(n: nat, tmp: array<byte>) returns (i: nat)
    requires n < TWO32 && tmp.Length == 5
    modifies tmp
    ensures 0 < i <= 5 && (forall j :: 0 <= j < i ==> tmp[j] < 128) && Emit(tmp[..i]) == Pack(n)
  {
    hide High, Pack, Emit;
    var d := n;
    i := 0;
    while i == 0 || d != 0
      invariant i <= 5 && (i == 0 ==> d == n)
      invariant d < [TWO32, 0x200_0000, 0x4_0000, 0x800, 16, 1][i]
      invariant i > 0 ==> Pack(n) == High(d) + Emit(tmp[..i])
      invariant forall j :: 0 <= j < i ==> tmp[j] < 128
      decreases 5 - i
    {
      ghost var t := tmp[..i];
      if i == 0 { EmitFirst(d); } else { EmitMore(t, d); }
      tmp[i] := d % 128;
      assert tmp[..i + 1] == t + [d % 128];
      assert i == 0 ==> t + [d % 128] == [d % 128];
      d := d / 128;
      i := i + 1;
    }
    NoHigh();
    assert [] + Emit(tmp[..i]) == Emit(tmp[..i]);
  }

  lemma NoHigh()
    ensures High(0) == []
  {}

  class FdWriter {
    const data: array<byte>
    var pos: nat
    var error: bool
    /** What write() has accepted, which is then on its way. */
    var sent: seq<byte>
    /** Does write() always take something? */
    const healthy: bool

    ghost predicate Valid()
      reads this
    {
      0 < data.Length && pos <= data.Length
    }

    /** Everything written so far, flushed or not. */
    ghost function Stream(): seq<byte>
      requires Valid()
      reads this, data
    {
      sent + data[..pos]
    }

    /** Unless it failed, the writer has taken `bytes` since it had sent `base`. */
    ghost predicate Took(base: seq<byte>, bytes: seq<byte>)
      reads this, data
    {
      Valid() && (!error ==> Stream() == base + bytes)
    }

    /** An error is kept, and a healthy writer does not get one. */
    twostate predicate Fares()
      reads this
    {
      (old(error) ==> error) && (healthy && !old(error) ==> !error)
    }

    constructor (size: nat, ok: bool)
      requires size > 0
      ensures Valid() && fresh(data) && data.Length == size && sent == [] && pos == 0 && !error && healthy == ok
    {
      data := new byte[size];
      pos := 0;
      error := false;
      sent, healthy := [], ok;
    }

    /** fd_start. */
    method Start() returns (err: bool)
      requires Valid()
      modifies this`pos
      ensures Valid() && pos == 0 && err == error
    {
      pos := 0;
      err := error;
    }

    /** fd_flush: write() accepts any positive number of bytes or fails. An empty
      * buffer counts as a failure, too, and nothing else does.
      */
    method Flush() returns (err: bool)
      requires Valid()
      modifies this`pos, this`error, this`sent
      ensures Valid() && pos == 0 && err == error && old(sent) <= sent <= old(Stream())
      ensures old(error) || old(pos) == 0 ==> error
      ensures healthy && !old(error) && old(pos) > 0 ==> !error
      ensures !error ==> sent == old(Stream())
    {
      var start, n := 0, 0;
      while start < pos
        invariant start <= pos == old(pos) && error == old(error) && sent == old(sent) + data[..start]
        invariant if 0 < start then 0 < n else n == 0
        decreases pos - start
      {
        var least := if healthy then 1 else -1;
        n :| least <= n <= pos - start;
        if n <= 0 { break; }
        sent := sent + data[start..start + n];
        start := start + n;
      }
      assert data[..start] + data[start..pos] == data[..pos];
      if n <= 0 { error := true; }
      pos := 0;
      err := error;
    }

    method WriteByte(b: byte) returns (err: bool)
      requires Valid()
      modifies this`pos, this`error, this`sent, data
      ensures Valid() && (err ==> error) && (healthy && !old(error) ==> !err)
      ensures !err ==> error == old(error) && pos > 0 && Stream() == old(Stream()) + [b]
    {
      err := false;
      ghost var before := Stream();
      if pos >= data.Length {
        err := Flush();
        if err { return; }
      }
      data[pos] := b;
      pos := pos + 1;
      assert data[..pos] == data[..pos - 1] + [b];
      assert sent + data[..pos] == before + [b];
    }

    /** labcomm2014_write_packed32. */
    method WritePacked32(n: nat) returns (err: bool)
      requires Valid() && n < TWO32
      modifies this`pos, this`error, this`sent, data
      ensures Valid() && (err ==> error) && (healthy && !old(error) ==> !err)
      ensures !err ==> error == old(error) && pos > 0 && Stream() == old(Stream()) + Pack(n)
    {
      hide Pack, Emit;
      var tmp := new byte[5];
      var i := Split(n, tmp);
      err := false;
      ghost var all := tmp[..i];
      while i > 0
        invariant 0 <= i <= |all| <= 5 && 0 < |all| && all[..i] == tmp[..i] && forall j :: 0 <= j < i ==> tmp[j] < 128
        invariant Valid() && error == old(error) && (i < |all| ==> pos > 0)
        invariant Stream() + Emit(tmp[..i]) == old(Stream()) + Pack(n)
      {
        i := i - 1;
        ghost var before := Stream();
        var b := if i > 0 then tmp[i] + 128 else tmp[i];
        ghost var t := tmp[..i];
        assert tmp[..i + 1] == t + [tmp[i]];
        EmitLast(t, tmp[i]);
        err := WriteByte(b);
        if err { return; }
        assert tmp[..i] == t;
        assert before + ([b] + Emit(t)) == (before + [b]) + Emit(t);
      }
      EmitNone();
      assert tmp[..0] == [];
      assert Stream() + [] == Stream();
    }

    /** The byte loops of write_string and of the signature copies. */
    method WriteBytes(s: seq<byte>) returns (err: bool)
      requires Valid()
      modifies this`pos, this`error, this`sent, data
      ensures Valid() && (err ==> error) && (healthy && !old(error) ==> !err)
      ensures !err ==> error == old(error) && Stream() == old(Stream()) + s && (s != [] || old(pos) > 0 ==> pos > 0)
    {
      var i := 0;
      err := false;
      while i < |s|
        invariant i <= |s| && Valid() && error == old(error) && Stream() == old(Stream()) + s[..i]
        invariant i > 0 || old(pos) > 0 ==> pos > 0
      {
        err := WriteByte(s[i]);
        if err { return; }
        assert old(Stream()) + s[..i] + [s[i]] == old(Stream()) + s[..i + 1];
        i := i + 1;
      }
      assert s[..i] == s;
    }

    method WriteString(s: seq<byte>) returns (err: bool)
      requires Valid() && |s| < TWO32
      modifies this`pos, this`error, this`sent, data
      ensures Valid() && (err ==> error) && (healthy && !old(error) ==> !err)
      ensures !err ==> error == old(error) && pos > 0 && Stream() == old(Stream()) + PackString(s)
    {
      err := WritePacked32(|s|);
      if err { return; }
      ghost var mid := Stream();
      err := WriteBytes(s);
      assert old(Stream()) + Pack(|s|) + s == old(Stream()) + PackString(s);
    }

    /** LABCOMM_ENCODE on a little-endian host: the memory image, last byte first. */
    method WriteImage(image: seq<byte>) returns (err: bool)
      requires Valid()
      modifies this`pos, this`error, this`sent, data
      ensures Valid() && (err ==> error) && (healthy && !old(error) ==> !err)
      ensures !err ==> error == old(error) && Stream() == old(Stream()) + Reverse(image)
      ensures !err && (image != [] || old(pos) > 0) ==> pos > 0
    {
      var i := |image|;
      err := false;
      while i > 0
        invariant 0 <= i <= |image| && Valid() && error == old(error)
        invariant Stream() == old(Stream()) + Reverse(image)[..|image| - i]
        invariant i < |image| || old(pos) > 0 ==> pos > 0
      {
        i := i - 1;
        err := WriteByte(image[i]);
        if err { return; }
        var k := |image| - i;
        assert Reverse(image)[..k] == Reverse(image)[..k - 1] + [image[i]];
        assert old(Stream()) + Reverse(image)[..k - 1] + [image[i]] == old(Stream()) + Reverse(image)[..k];
      }
      assert Reverse(image)[..|image|] == Reverse(image);
    }
  }
}
