/** The buffered reader (lib/c/2014/labcomm2014_fd_reader.c) and the inline
  * functions that read through it (lib/c/2014/labcomm2014_private.h), for any
  * buffer size and any pattern of short reads: results depend on the byte stream
  * alone.
  */
module BufferedReader {
  import opened Wire

  lemma NoBytes()
    ensures Reverse([]) == []
  {}

  lemma TooFew(n: nat, s: seq<byte>)
    ensures TakeBytes(n, s).Fail? <==> |s| < n
  {}

  lemma TakeNothing(n: nat, s: seq<byte>)
    ensures TakeInt(n, s) == if n >= TWO31 then Ok([], s) else TakeBytes(n, s)
  {}

  lemma InFront(b: byte, image: seq<byte>, rest: seq<byte>, whole: seq<byte>)
    requires rest != [] && b == rest[0] && Reverse(image) + rest == whole
    ensures Reverse([b] + image) + rest[1..] == whole
  {
    ReverseCons(b, image);
  }

  class FdReader {
    const data: array<byte>
    var pos: nat
    var count: nat
    var error: bool
    /** The bytes that read() has yet to deliver. */
    var incoming: seq<byte>
    /** Does read() fail at the end of the bytes only? */
    const healthy: bool

    ghost predicate Valid()
      reads this
    {
      0 < data.Length && pos <= count <= data.Length
    }

    /** What is still to be read, buffered or not. */
    ghost function Stream(): seq<byte>
      requires Valid()
      reads this, data
    {
      data[pos..count] + incoming
    }

    constructor (size: nat, bytes: seq<byte>, ok: bool)
      requires size > 0
      ensures Valid() && fresh(data) && data.Length == size && Stream() == bytes && healthy == ok && !error
    {
      data := new byte[size];
      pos, count := 0, 0;
      error := false;
      incoming, healthy := bytes, ok;
      new;
      assert data[0..0] == [];
    }

    /** read(): any number of bytes up to the buffer size, or a failure. */
    method Read() returns (n: int)
      requires Valid()
      modifies this`incoming, data
      ensures -1 <= n <= data.Length && n <= |old(incoming)|
      ensures healthy && old(incoming) != [] ==> 0 < n
      ensures if n <= 0 then incoming == old(incoming)
              else data[..n] == old(incoming)[..n] && incoming == old(incoming)[n..]
    {
      var least := if healthy && incoming != [] then 1 else -1;
      var most := if |incoming| < data.Length then |incoming| else data.Length;
      n :| least <= n <= most;
      if 0 < n {
        forall i | 0 <= i < n { data[i] := incoming[i]; }
        incoming := incoming[n..];
      }
    }

    /** fd_fill. */
    method Fill()
      requires Valid() && pos >= count
      modifies this`pos, this`count, this`error, this`incoming, data
      ensures Valid() && (old(error) ==> error)
      ensures !error ==> pos < count && Stream() == old(Stream())
      ensures healthy && !old(error) ==> (error <==> old(Stream()) == [])
    {
      assert data[pos..count] == [] && Stream() == incoming;
      pos := 0;
      var n := Read();
      if n <= 0 {
        count := 0;
        error := true;
      } else {
        count := n;
        assert data[0..n] == data[..n];
      }
    }

    /** One turn of every read loop. */
    method ReadByte() returns (b: byte)
      requires Valid()
      modifies this`pos, this`count, this`error, this`incoming, data
      ensures Valid() && (old(error) ==> error)
      ensures !error ==> old(Stream()) != [] && b == old(Stream())[0] && Stream() == old(Stream())[1..]
      ensures healthy && !old(error) ==> (error <==> old(Stream()) == [])
    {
      if pos >= count {
        Fill();
        if error { return 0; }
      }
      assert Stream()[0] == data[pos];
      b := data[pos];
      pos := pos + 1;
      assert data[pos - 1..count] == [b] + data[pos..count];
    }

    /** labcomm2014_read_packed32, overlong encodings and wrap-around included. */
    method ReadPacked32() returns (n: nat)
      requires Valid()
      modifies this`pos, this`count, this`error, this`incoming, data
      ensures Valid() && (old(error) ==> error)
      ensures !error ==> Unpack(old(Stream())) == Ok(n, Stream())
      ensures healthy && !old(error) ==> (error <==> Unpack(old(Stream())).Fail?)
    {
      n := 0;
      while true
        invariant Valid() && error == old(error)
        invariant UnpackFrom(n, Stream()) == Unpack(old(Stream()))
        decreases |Stream()|
      {
        ghost var s := Stream();
        var b := ReadByte();
        if error { return; }
        n := (n * 128 + b % 128) % TWO32;
        if b < 128 { return; }
      }
    }

    /** The loops of read_string and of the signature copy; a length of 2^31 or
      * more is a negative int, for which they read nothing.
      */
    method ReadBytes(length: nat) returns (s: seq<byte>)
      requires Valid()
      modifies this`pos, this`count, this`error, this`incoming, data
      ensures Valid() && (old(error) ==> error)
      ensures !error ==> TakeInt(length, old(Stream())) == Ok(s, Stream())
      ensures healthy && !old(error) ==> (error <==> TakeInt(length, old(Stream())).Fail?)
    {
      hide *;
      s := [];
      TakeNothing(length, Stream());
      if length >= TWO31 { return; }
      while |s| < length
        invariant |s| <= length && Valid() && error == old(error)
        invariant s + Stream() == old(Stream())
      {
        ghost var rest := Stream();
        TooFew(length, old(Stream()));
        var b := ReadByte();
        if error { return; }
        assert rest == [b] + Stream();
        assert s + ([b] + Stream()) == (s + [b]) + Stream();
        s := s + [b];
      }
      TakeAll(s, Stream());
    }

    /** labcomm2014_read_string, the characters that were stored. */
    method ReadString() returns (s: seq<byte>)
      requires Valid()
      modifies this`pos, this`count, this`error, this`incoming, data
      ensures Valid() && (old(error) ==> error)
      ensures !error ==> ReadInt(old(Stream())) == Ok(s, Stream())
      ensures healthy && !old(error) ==> (error <==> ReadInt(old(Stream())).Fail?)
    {
      hide Unpack, TakeInt;
      s := [];
      var length := ReadPacked32();
      if error { return; }
      s := ReadBytes(length);
    }

    /** LABCOMM_DECODE on a little-endian host: the image is filled from its last
      * byte on.
      */
    method ReadImage(size: nat) returns (image: seq<byte>)
      requires Valid() && size < TWO31
      modifies this`pos, this`count, this`error, this`incoming, data
      ensures Valid() && (old(error) ==> error)
      ensures !error ==> |image| == size && TakeBytes(size, old(Stream())) == Ok(Reverse(image), Stream())
      ensures healthy && !old(error) ==> (error <==> TakeBytes(size, old(Stream())).Fail?)
    {
      hide *;
      NoBytes();
      ghost var whole := Stream();
      image := [];
      var i := size;
      while i > 0
        invariant 0 <= i && i + |image| == size && Valid() && error == old(error)
        invariant Reverse(image) + Stream() == whole
      {
        i := i - 1;
        ghost var rest := Stream();
        TooFew(size, whole);
        var b := ReadByte();
        if error { return; }
        InFront(b, image, rest, whole);
        image := [b] + image;
      }
      TakeAll(Reverse(image), Stream());
    }

    /** reader_skip. */
    method Skip(length: nat)
      requires Valid()
      modifies this`pos, this`count, this`error, this`incoming, data
      ensures Valid() && (old(error) ==> error)
      ensures !error ==> TakeInt(length, old(Stream())).Ok? && TakeInt(length, old(Stream())).rest == Stream()
      ensures healthy && !old(error) ==> (error <==> TakeInt(length, old(Stream())).Fail?)
    {
      var s := ReadBytes(length);
    }
  }
}
