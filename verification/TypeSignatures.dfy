/** Signature trees with type references (lib/c/2014/labcomm2014_type_signature.c)
  * and the folds over them.
  */
module TypeSignatures {
  import opened Wire

  /** One signature_data entry. An entry of length 0 without a signature, here
    * `Bytes([])`, makes the C loops bail out.
    */
  datatype Item = Bytes(data: seq<byte>) | TypeRef(tree: Tree)

  /** A signature: its local index and its treedata up to the end mark. */
  datatype Tree = Tree(index: nat, items: seq<Item>)

  /** All bytes, references expanded; a level ends early at a null entry. */
  function Flatten(t: Tree, i: nat): seq<byte>
    requires i <= |t.items|
    decreases t, |t.items| - i
  {
    if i == |t.items| || t.items[i] == Bytes([]) then []
    else (match t.items[i]
          case Bytes(data) => data
          case TypeRef(u) => Flatten(u, 0)) + Flatten(t, i + 1)
  }

  /** What map_signature(write_sig_tree_byte) writes into a TYPE_DEF packet:
    * bytes as they are, references as packed indices.
    */
  function Written(t: Tree, i: nat): seq<byte>
    requires i <= |t.items|
    decreases |t.items| - i
  {
    if i == |t.items| || t.items[i] == Bytes([]) then []
    else (match t.items[i]
          case Bytes(data) => data
          case TypeRef(u) => Pack(u.index)) + Written(t, i + 1)
  }

  lemma WrittenStep(t: Tree, i: nat)
    requires i < |t.items| && t.items[i] != Bytes([])
    ensures Written(t, i) == (if t.items[i].Bytes? then t.items[i].data else Pack(t.items[i].tree.index)) + Written(t, i + 1)
  {}

  lemma WrittenEnd(t: Tree, p: nat)
    requires p <= |t.items| && (p == |t.items| || t.items[p] == Bytes([]))
    ensures Written(t, p) == []
  {}

  /** The size fold on bytes as they are. */
  method CountBytes(data: seq<byte>, before: nat) returns (size: nat)
    ensures size == before + |data|
  {
    size := before;
    var i := 0;
    while i < |data|
      invariant i <= |data| && size == before + i
    {
      size := size + 1;
      i := i + 1;
    }
  }

  /** calc_sig_encoded_size: the size fold is the length of the write fold. */
  method EncodedSize(t: Tree) returns (size: nat)
    ensures size == |Written(t, 0)|
  {
    hide Pack, SizePacked, Written;
    size := 0;
    var p := 0;
    while p < |t.items| && t.items[p] != Bytes([])
      invariant p <= |t.items| && size + |Written(t, p)| == |Written(t, 0)|
    {
      WrittenStep(t, p);
      match t.items[p] {
        case Bytes(data) => size := CountBytes(data, size);
        case TypeRef(u) =>
          PackSize(u.index);
          size := size + SizePacked(u.index);
      }
      p := p + 1;
    }
    WrittenEnd(t, p);
  }

  /** From `start` on the buffer holds s, or as much of it as fits, up to `len`. */
  ghost predicate Filled(b: seq<byte>, start: nat, len: nat, s: seq<byte>) {
    && start <= len <= |b|
    && len == (if start + |s| <= |b| then start + |s| else |b|)
    && b[start..len] == s[..len - start]
  }

  lemma FilledMore(b: seq<byte>, b': seq<byte>, start: nat, mid: nat, len: nat, s: seq<byte>, more: seq<byte>)
    requires Filled(b, start, mid, s) && |b| == |b'|
    requires mid <= |b| && b[..mid] == b'[..mid] && Filled(b', mid, len, more)
    ensures start <= mid <= len <= |b'| && b'[..start] == b[..start]
    ensures Filled(b', start, len, s + more)
  {
    assert b'[..start] == b'[..mid][..start] == b[..mid][..start] == b[..start];
    assert b'[start..mid] == b'[..mid][start..] == b[..mid][start..] == b[start..mid];
    assert b'[start..len] == b'[start..mid] + b'[mid..len];
  }

  method Copy(data: seq<byte>, buf: array<byte>, start: nat) returns (len: nat)
    requires start <= buf.Length
    modifies buf
    ensures buf[..start] == old(buf[..start]) && Filled(buf[..], start, len, data)
  {
    len := start;
    var i := 0;
    while i < |data| && len < buf.Length
      invariant i <= |data| && len == start + i <= buf.Length && buf[..start] == old(buf[..start])
      invariant buf[start..len] == data[..i]
    {
      buf[len] := data[i];
      len := len + 1;
      i := i + 1;
    }
  }

  lemma FlattenStep(t: Tree, i: nat)
    requires i < |t.items| && t.items[i] != Bytes([])
    ensures Flatten(t, i) == (if t.items[i].Bytes? then t.items[i].data else Flatten(t.items[i].tree, 0)) + Flatten(t, i + 1)
  {}

  lemma FlattenStops(t: Tree, i: nat)
    requires i <= |t.items| && (i == |t.items| || t.items[i] == Bytes([]))
    ensures Flatten(t, i) == []
  {}

  /** sig_dump_checked: fills `buf` from `start` on, as far as it reaches; `over`
    * reports a full buffer or a null entry at this level.
    */
  method Dump(t: Tree, buf: array<byte>, start: nat) returns (len: nat, over: bool)
    requires start <= buf.Length
    modifies buf
    ensures buf[..start] == old(buf[..start]) && Filled(buf[..], start, len, Flatten(t, 0))
    ensures over <==> Bytes([]) in t.items || start + |Flatten(t, 0)| >= buf.Length
    decreases t
  {
    hide Filled, Flatten;
    len := start;
    var p := 0;
    ghost var done: seq<byte> := [];
    FilledNone(buf[..], start);
    while p < |t.items| && len < buf.Length
      invariant p <= |t.items| && len <= buf.Length && buf[..start] == old(buf[..start])
      invariant Flatten(t, 0) == done + Flatten(t, p) && Bytes([]) !in t.items[..p]
      invariant Filled(buf[..], start, len, done)
      decreases |t.items| - p
    {
      var item := t.items[p];
      if item == Bytes([]) {
        FlattenStops(t, p);
        assert done + [] == done;
        return len, true;
      }
      FlattenStep(t, p);
      ghost var before, mid := buf[..], len;
      ghost var piece := if item.Bytes? then item.data else Flatten(item.tree, 0);
      assert done + (piece + Flatten(t, p + 1)) == (done + piece) + Flatten(t, p + 1);
      match item {
        case Bytes(data) => len := Copy(data, buf, len);
        case TypeRef(u) =>
          var full: bool;
          len, full := Dump(u, buf, len);
      }
      FilledMore(before, buf[..], start, mid, len, done, piece);
      done := done + piece;
      p := p + 1;
    }
    over := len >= buf.Length;
    FilledBounds(buf[..], start, len, done);
    if len < buf.Length {
      FlattenStops(t, p);
      assert t.items[..p] == t.items;
      assert done + [] == done;
    } else {
      FilledPrefix(buf[..], start, len, done, Flatten(t, p));
    }
  }

  lemma FilledNone(b: seq<byte>, start: nat)
    requires start <= |b|
    ensures Filled(b, start, start, [])
  {}

  lemma FilledBounds(b: seq<byte>, start: nat, len: nat, s: seq<byte>)
    requires Filled(b, start, len, s)
    ensures start <= len <= |b| && (len < |b| ==> start + |s| == len) && (len == |b| ==> start + |s| >= len)
  {}

  lemma FilledPrefix(b: seq<byte>, start: nat, len: nat, s: seq<byte>, more: seq<byte>)
    requires Filled(b, start, len, s) && len == |b|
    ensures Filled(b, start, len, s + more)
  {
    assert (s + more)[..len - start] == s[..len - start];
  }

  /** labcomm2014_signature_cmp with its two 512-byte buffers: exactly when it
    * answers that two signatures are equal.
    */
  method Compare(t: Tree, u: Tree) returns (same: bool)
    ensures same <==>
            && Bytes([]) !in t.items && Bytes([]) !in u.items
            && |Flatten(t, 0)| < 512 && |Flatten(u, 0)| < 512 && Flatten(t, 0) == Flatten(u, 0)
  {
    hide Flatten;
    var buf1, buf2 := new byte[512], new byte[512];
    var len1, over1 := Dump(t, buf1, 0);
    var len2, over2 := Dump(u, buf2, 0);
    if over1 || over2 {
      same := false;
    } else {
      same := len1 == len2 && buf1[..len1] == buf2[..len2];
      assert buf1[0..len1] == buf1[..len1] && buf2[0..len2] == buf2[..len2];
      assert buf1[..][0..len1] == Flatten(t, 0) && buf2[..][0..len2] == Flatten(u, 0);
    }
  }
}
