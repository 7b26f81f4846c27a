/** The throttled channel (lib/c/2014/experimental/ThrottleDrv/throttle_drv.c):
  * messages are cut into numbered fragments, and the receiver puts them together
  * again, starting over whenever a fragment is not the expected one.
  */
module Throttle {
  import opened Wire

  /** The fields of a fragment's header that matter, and its payload. `num` and
    * `tot` are unsigned short.
    */
  datatype Fragment = Fragment(num: nat, tot: nat, payload: seq<byte>)

  // ------------------------------------------------------------------------ sending

  /** How many fragments a message needs. */
  function Needed(n: nat, size: nat): nat
    requires n > 0 && size > 0
  {
    (n - 1) / size + 1
  }

  /** What the header says, an unsigned short. */
  function Announced(n: nat, size: nat): nat
    requires n > 0 && size > 0
  {
    Needed(n, size) % 0x1_0000
  }

  /** The fragments from number i on that the rest of a message is cut into. */
  function Cut(data: seq<byte>, size: nat, i: nat, tot: nat): seq<Fragment>
    requires size > 0
    decreases |data|
  {
    if data == [] then []
    else if |data| <= size then [Fragment(i, tot, data)]
    else [Fragment(i, tot, data[..size])] + Cut(data[size..], size, i + 1, tot)
  }

  function Fragments(data: seq<byte>, size: nat): seq<Fragment>
    requires data != [] && size > 0
  {
    Cut(data, size, 1, Needed(|data|, size))
  }

  function Payloads(fs: seq<Fragment>): seq<byte> {
    if fs == [] then [] else fs[0].payload + Payloads(fs[1..])
  }

  lemma AtLeastOnce(k: int, d: int)
    requires k >= 1 && d > 0
    ensures k * d >= d
  {}

  lemma QuotientsEqual(d: int, p: int, s: int, q: int, r: int)
    requires p * d + s == q * d + r && 0 <= s < d && 0 <= r < d
    ensures p == q
  {
    assert (p - q) * d == p * d - q * d && (q - p) * d == q * d - p * d;
    if p > q { AtLeastOnce(p - q, d); }
    if p < q { AtLeastOnce(q - p, d); }
  }

  lemma DivUnique(x: int, d: int, q: int, r: int)
    requires d > 0 && x == q * d + r && 0 <= r < d
    ensures x / d == q
  {
    QuotientsEqual(d, x / d, x % d, q, r);
  }

  lemma NeededLess(n: nat, size: nat)
    requires size > 0 && n > size
    ensures Needed(n, size) == Needed(n - size, size) + 1
  {
    var m := n - size - 1;
    var (q, r) := (m / size, m % size);
    assert m == q * size + r;
    assert (q + 1) * size == q * size + size;
    DivUnique(n - 1, size, q + 1, r);
  }

  lemma AtLeastOne(n: nat, size: nat)
    requires n > 0 && size > 0
    ensures Needed(n, size) >= 1
  {}

  lemma NeededOne(n: nat, size: nat)
    requires 0 < n <= size
    ensures Needed(n, size) == 1
  {
    DivUnique(n - 1, size, 0, n - 1);
  }

  /** The pieces fit the frame, are numbered through, and together are the message. */
  lemma {:induction false} CutIsComplete(data: seq<byte>, size: nat, i: nat, tot: nat)
    requires size > 0 && data != []
    ensures var fs := Cut(data, size, i, tot);
            && |fs| == Needed(|data|, size) && Payloads(fs) == data
            && forall k :: 0 <= k < |fs| ==> fs[k].num == i + k && fs[k].tot == tot && 1 <= |fs[k].payload| <= size
    decreases |data|
  {
    var fs := Cut(data, size, i, tot);
    if |data| <= size {
      NeededOne(|data|, size);
      assert fs[1..] == [];
      assert Payloads(fs) == data + [];
    } else {
      CutIsComplete(data[size..], size, i + 1, tot);
      NeededLess(|data|, size);
      assert fs[1..] == Cut(data[size..], size, i + 1, tot);
      assert data == data[..size] + data[size..];
    }
  }

  /** The variables of the loop: the counter is an unsigned char, `at` is how far the
    * data pointer has moved, and `out` is what has been sent.
    */
  datatype Sender = Sender(i: nat, length: nat, at: nat, out: seq<Fragment>)

  /** The loop condition has failed. */
  predicate Stopped(s: Sender, tot: nat) {
    s.i > tot
  }

  /** The part of the message in a stretch of memory; what lies behind the message is
    * not known.
    */
  function Stretch(data: seq<byte>, at: nat, len: nat): seq<byte> {
    if at + len <= |data| then data[at..at + len] else if at <= |data| then data[at..] else []
  }

  /** One turn of the loop. A length below the fragment size is not subtracted. */
  function Turn(data: seq<byte>, size: nat, tot: nat, s: Sender): Sender {
    if Stopped(s, tot) then s
    else
      var len := if s.length >= size then size else s.length;
      Sender((s.i + 1) % 256, if s.length >= size then s.length - size else s.length, s.at + len,
             s.out + [Fragment(s.i, tot, Stretch(data, s.at, len))])
  }

  /** The loop of thr_send after n turns. */
  function After(data: seq<byte>, size: nat, n: nat): Sender
    requires data != [] && size > 0
  {
    if n == 0 then Sender(1, |data|, 0, []) else Turn(data, size, Announced(|data|, size), After(data, size, n - 1))
  }

  /** thr_send, watched for a number of turns: it refuses an empty message and a
    * fragment size of 0, and otherwise it may never end.
    */
  method Send(data: seq<byte>, size: nat, turns: nat) returns (ok: bool, ended: bool, out: seq<Fragment>)
    ensures ok <==> data != [] && 0 < size
    ensures ok ==> out == After(data, size, turns).out && (ended <==> Stopped(After(data, size, turns), Announced(|data|, size)))
    ensures !ok ==> ended && out == []
  {
    hide Needed;
    ok, ended, out := data != [] && 0 < size, true, [];
    if !ok { return; }
    var tot := Announced(|data|, size);
    var i, length, at, n := 1, |data|, 0, 0;
    while n < turns && i <= tot
      invariant n <= turns && 0 <= length && 0 <= i && 0 <= at && After(data, size, n) == Sender(i, length, at, out)
    {
      var len := length;
      if length >= size {
        len := size;
        length := length - size;
      }
      out := out + [Fragment(i, tot, Stretch(data, at, len))];
      at := at + len;
      i := (i + 1) % 256;
      n := n + 1;
    }
    StaysStopped(data, size, n, turns);
    ended := i > tot;
  }

  lemma {:induction false} StaysStopped(data: seq<byte>, size: nat, n: nat, m: nat)
    requires data != [] && size > 0 && n <= m
    ensures Stopped(After(data, size, n), Announced(|data|, size)) ==> After(data, size, m) == After(data, size, n)
    decreases m
  {
    hide Needed;
    if n < m { StaysStopped(data, size, n, m - 1); }
  }

  lemma CutStart(data: seq<byte>, size: nat)
    requires data != [] && 0 < size
    ensures [] + Cut(data[0..], size, 1, Needed(|data|, size)) == Fragments(data, size)
  {
    assert data[0..] == data;
  }

  lemma CutStep(data: seq<byte>, at: nat, size: nat, i: nat, tot: nat)
    requires at < |data| && size > 0
    ensures var (n, len) := (|data| - at, if |data| - at >= size then size else |data| - at);
            && Cut(data[at..], size, i, tot)
               == [Fragment(i, tot, data[at..at + len])] + Cut(data[at + len..], size, i + 1, tot)
            && Needed(n, size) == 1 + (if n > len then Needed(n - len, size) else 0)
            && Needed(n, size) >= 1 && (n > len ==> Needed(n - len, size) >= 1)
  {
    var (n, len) := (|data| - at, if |data| - at >= size then size else |data| - at);
    assert data[at..][..len] == data[at..at + len];
    assert data[at..][len..] == data[at + len..];
    hide Needed;
    if n > size { NeededLess(n, size); AtLeastOne(n - size, size); } else { NeededOne(n, size); }
    if n <= size { assert data[at + len..] == []; assert data[at..] == data[at..at + len]; }
  }

  lemma NothingLeft(data: seq<byte>, size: nat, i: nat, tot: nat)
    requires size > 0
    ensures Cut(data[|data|..], size, i, tot) == []
  {}

  lemma TurnSends(data: seq<byte>, size: nat, tot: nat, s: Sender)
    requires size > 0 && s.i <= tot <= 254 && 0 < s.length == |data| - s.at
    ensures var len := if s.length >= size then size else s.length;
            Turn(data, size, tot, s)
            == Sender(s.i + 1, if s.length >= size then s.length - size else s.length, s.at + len,
                      s.out + [Fragment(s.i, tot, data[s.at..s.at + len])])
  {}

  ghost predicate Sent(data: seq<byte>, size: nat, n: nat, need: nat, s: Sender)
    requires size > 0
  {
    && s.i == n + 1 && s.at <= |data|
    && (if n < need then s.length == |data| - s.at > 0 && n + Needed(s.length, size) == need else s.at == |data|)
  }

  lemma SentMore(data: seq<byte>, size: nat, n: nat, need: nat, s: Sender, all: seq<Fragment>)
    requires size > 0 && n < need <= 254 && Sent(data, size, n, need, s)
    requires s.out + Cut(data[s.at..], size, n + 1, need) == all
    ensures var s' := Turn(data, size, need, s);
            Sent(data, size, n + 1, need, s') && s'.out + Cut(data[s'.at..], size, n + 2, need) == all
  {
    hide Cut, Needed, Turn;
    TurnSends(data, size, need, s);
    var s' := Turn(data, size, need, s);
    CutStep(data, s.at, size, n + 1, need);
    var (f, rest) := (Fragment(n + 1, need, data[s.at..s'.at]), Cut(data[s'.at..], size, n + 2, need));
    assert s.out + ([f] + rest) == s'.out + rest;
  }

  lemma AfterStep(data: seq<byte>, size: nat, n: nat)
    requires data != [] && size > 0 && Needed(|data|, size) <= 254
    ensures After(data, size, 0) == Sender(1, |data|, 0, [])
    ensures n > 0 ==> After(data, size, n) == Turn(data, size, Needed(|data|, size), After(data, size, n - 1))
  {
    hide Turn, Needed;
  }

  /** While the message fits 254 fragments, the n-th turn sends the n-th fragment. */
  lemma {:induction false} Progress(data: seq<byte>, size: nat, n: nat)
    requires data != [] && size > 0 && n <= Needed(|data|, size) <= 254
    ensures var (s, need) := (After(data, size, n), Needed(|data|, size));
            Sent(data, size, n, need, s) && s.out + Cut(data[s.at..], size, n + 1, need) == Fragments(data, size)
  {
    hide Cut, Needed, Fragments, After, Turn;
    AtLeastOne(|data|, size);
    AfterStep(data, size, n);
    if n == 0 {
      CutStart(data, size);
    } else {
      Progress(data, size, n - 1);
      SentMore(data, size, n - 1, Needed(|data|, size), After(data, size, n - 1), Fragments(data, size));
    }
  }

  /** With a total of 255 or more an unsigned char never passes it. */
  lemma {:induction false} NeverEnds(data: seq<byte>, size: nat, n: nat)
    requires data != [] && size > 0 && Announced(|data|, size) >= 255
    ensures !Stopped(After(data, size, n), Announced(|data|, size))
  {
    hide Needed;
    if n > 0 { NeverEnds(data, size, n - 1); }
  }

  /** Otherwise the loop ends after as many turns as the announced total says. */
  lemma {:induction false} CountsTurns(data: seq<byte>, size: nat, n: nat)
    requires data != [] && size > 0 && Announced(|data|, size) < 255
    ensures var (s, tot) := (After(data, size, n), Announced(|data|, size));
            |s.out| == (if n < tot then n else tot) && s.i == |s.out| + 1 && (Stopped(s, tot) <==> n >= tot)
  {
    hide Needed, Stretch;
    if n > 0 { CountsTurns(data, size, n - 1); }
  }

  ghost predicate Ends(data: seq<byte>, size: nat, n: nat)
    requires data != [] && size > 0
  {
    Stopped(After(data, size, n), Announced(|data|, size))
  }

  /** The loop ends if and only if the announced total is below 255. It ends with all
    * fragments sent if and only if at most 254 are needed: from 65536 on the total
    * is cut to 16 bits, and the loop may end too early.
    */
  lemma SendsAllIff(data: seq<byte>, size: nat)
    requires data != [] && size > 0
    ensures (exists n :: Ends(data, size, n)) <==> Announced(|data|, size) < 255
    ensures (exists n :: Ends(data, size, n) && After(data, size, n).out == Fragments(data, size))
            <==> Needed(|data|, size) <= 254
  {
    hide Needed, After, Cut;
    var (need, tot) := (Needed(|data|, size), Announced(|data|, size));
    AtLeastOne(|data|, size);
    if need <= 254 {
      Progress(data, size, need);
      CountsTurns(data, size, need);
      NothingLeft(data, size, need + 1, need);
      assert After(data, size, need).out + [] == After(data, size, need).out;
      assert Ends(data, size, need);
    }
    if tot < 255 {
      CountsTurns(data, size, tot);
      assert Ends(data, size, tot);
    }
    CutIsComplete(data, size, 1, need);
    forall n | Ends(data, size, n)
      ensures tot < 255 && (After(data, size, n).out == Fragments(data, size) ==> need <= 254)
    {
      if tot < 255 { CountsTurns(data, size, n); } else { NeverEnds(data, size, n); }
    }
  }

  /** Two messages that are not sent: one of 255 bytes in fragments of one, where the
    * loop never ends, and one of 65537, of which a single byte is sent.
    */
  lemma NotSent(n: nat)
    ensures var data := seq(255, _ => 0); !Stopped(After(data, 1, n), Announced(255, 1))
    ensures var data := seq(65537, _ => 0);
            After(data, 1, n + 1).out == [Fragment(1, 1, [0])] && Stopped(After(data, 1, n + 1), Announced(65537, 1))
  {
    NeverEnds(seq(255, _ => 0), 1, n);
    var data: seq<byte> := seq(65537, _ => 0);
    assert Announced(65537, 1) == 1;
    var (a, b) := (After(data, 1, 0), After(data, 1, 1));
    assert Stretch(data, 0, 1) == [0];
    assert b == Sender(2, 65536, 1, [Fragment(1, 1, [0])]);
    StaysStopped(data, 1, 1, n + 1);
  }

  // ---------------------------------------------------------------------- receiving

  /** frag_index and what has been put together so far. */
  datatype Assembly = Assembly(index: nat, got: seq<byte>)

  const CLEAN: Assembly := Assembly(1, [])

  /** One fragment: the new state and the message, if it completes one. After that
    * thr_receive is called again and starts from scratch.
    */
  function Feed(st: Assembly, f: Fragment): (Assembly, seq<seq<byte>>) {
    if st.index == f.num then
      var (index, got) := ((st.index + 1) % 0x1_0000, st.got + f.payload);
      if index > f.tot then (CLEAN, [got]) else (Assembly(index, got), [])
    else (CLEAN, [])
  }

  function FeedAll(st: Assembly, fs: seq<Fragment>): (Assembly, seq<seq<byte>>)
    decreases |fs|
  {
    if fs == [] then (st, [])
    else
      var (st1, out1) := Feed(st, fs[0]);
      var (st2, out2) := FeedAll(st1, fs[1..]);
      (st2, out1 + out2)
  }

  lemma {:induction false} FeedConcat(st: Assembly, a: seq<Fragment>, b: seq<Fragment>)
    ensures var (st1, out1) := FeedAll(st, a);
            var (st2, out2) := FeedAll(st1, b);
            FeedAll(st, a + b) == (st2, out1 + out2)
    decreases |a|
  {
    hide Feed;
    if a == [] {
      assert a + b == b;
      var out := FeedAll(st, b).1;
      assert [] + out == out;
    } else {
      var (st1, out1) := Feed(st, a[0]);
      assert (a + b)[1..] == a[1..] + b;
      FeedConcat(st1, a[1..], b);
      assert out1 + (FeedAll(st1, a[1..]).1 + FeedAll(FeedAll(st1, a[1..]).0, b).1)
          == out1 + FeedAll(st1, a[1..]).1 + FeedAll(FeedAll(st1, a[1..]).0, b).1;
    }
  }

  lemma FeedOne(st: Assembly, f: Fragment, fs: seq<Fragment>)
    ensures var (st1, out1) := Feed(st, f);
            FeedAll(st, [f] + fs) == (FeedAll(st1, fs).0, out1 + FeedAll(st1, fs).1)
  {
    assert ([f] + fs)[1..] == fs;
  }

  /** The fragments in order complete the message. */
  lemma {:induction false} Reassemble(data: seq<byte>, size: nat, i: nat, tot: nat, got: seq<byte>)
    requires size > 0 && data != [] && 0 < i && tot == i - 1 + Needed(|data|, size) && tot < 0xffff
    ensures FeedAll(Assembly(i, got), Cut(data, size, i, tot)) == (CLEAN, [got + data])
    decreases |data|
  {
    hide FeedAll, Needed;
    if |data| <= size {
      NeededOne(|data|, size);
      FeedOne(Assembly(i, got), Fragment(i, tot, data), []);
      assert [Fragment(i, tot, data)] + [] == [Fragment(i, tot, data)];
      Done(CLEAN);
      assert [got + data] + [] == [got + data];
    } else {
      NeededLess(|data|, size);
      AtLeastOne(|data| - size, size);
      var rest := Cut(data[size..], size, i + 1, tot);
      FeedOne(Assembly(i, got), Fragment(i, tot, data[..size]), rest);
      Reassemble(data[size..], size, i + 1, tot, got + data[..size]);
      assert got + data[..size] + data[size..] == got + data;
      assert [] + [got + data] == [got + data];
    }
  }

  lemma Done(st: Assembly)
    ensures FeedAll(st, []) == (st, [])
  {}

  /** A lossless link: the receiver rebuilds the message and is clean again. */
  lemma RoundTrip(data: seq<byte>, size: nat)
    requires data != [] && size > 0 && Needed(|data|, size) <= 254
    ensures FeedAll(CLEAN, Fragments(data, size)) == (CLEAN, [data])
  {
    hide FeedAll, Cut, Needed;
    Reassemble(data, size, 1, Needed(|data|, size), []);
    assert [] + data == data;
  }

  lemma {:induction false} WaitingForFirst(fs: seq<Fragment>)
    requires forall k :: 0 <= k < |fs| ==> fs[k].num != 1
    ensures FeedAll(CLEAN, fs) == (CLEAN, [])
  {
    if fs != [] {
      WaitingForFirst(fs[1..]);
      assert Feed(CLEAN, fs[0]) == (CLEAN, []);
      var none: seq<seq<byte>> := [];
      assert none + none == none;
    }
  }

  /** From any state in the middle of a message, an intact message is dropped and
    * leaves the receiver clean.
    */
  lemma Resynchronise(st: Assembly, data: seq<byte>, size: nat)
    requires st.index != 1 && data != [] && size > 0
    ensures FeedAll(st, Fragments(data, size)) == (CLEAN, [])
  {
    hide FeedAll, Cut;
    var fs := Fragments(data, size);
    CutIsComplete(data, size, 1, Needed(|data|, size));
    FeedOne(st, fs[0], fs[1..]);
    assert [fs[0]] + fs[1..] == fs;
    WaitingForFirst(fs[1..]);
    var none: seq<seq<byte>> := [];
    assert none + none == none;
  }

  datatype Message = Message(data: seq<byte>, size: nat)

  ghost predicate Sendable(m: Message) {
    m.data != [] && m.size > 0 && Needed(|m.data|, m.size) <= 254
  }

  function Stream(ms: seq<Message>): seq<Fragment>
    requires forall k :: 0 <= k < |ms| ==> Sendable(ms[k])
  {
    if ms == [] then []
    else
      assert Sendable(ms[0]);
      Fragments(ms[0].data, ms[0].size) + Stream(ms[1..])
  }

  function Datas(ms: seq<Message>): (r: seq<seq<byte>>)
    ensures |r| == |ms|
  {
    seq(|ms|, i requires 0 <= i < |ms| => ms[i].data)
  }

  lemma {:induction false} CleanStream(ms: seq<Message>)
    requires forall k :: 0 <= k < |ms| ==> Sendable(ms[k])
    ensures FeedAll(CLEAN, Stream(ms)) == (CLEAN, Datas(ms))
    decreases |ms|
  {
    hide FeedAll, Fragments;
    if ms == [] {
      Done(CLEAN);
    } else {
      var fs := Fragments(ms[0].data, ms[0].size);
      RoundTrip(ms[0].data, ms[0].size);
      CleanStream(ms[1..]);
      FeedConcat(CLEAN, fs, Stream(ms[1..]));
      assert Datas(ms) == [ms[0].data] + Datas(ms[1..]);
    }
  }

  /** Whatever was lost before, of the messages that then arrive intact at most the
    * first is dropped, and it is dropped exactly when the receiver was inside a
    * message.
    */
  lemma AfterLoss(st: Assembly, ms: seq<Message>)
    requires ms != [] && forall k :: 0 <= k < |ms| ==> Sendable(ms[k])
    requires st.index == 1 ==> st.got == []
    ensures FeedAll(st, Stream(ms)) == (CLEAN, Datas(if st.index == 1 then ms else ms[1..]))
  {
    hide FeedAll, Fragments;
    if st.index == 1 {
      CleanStream(ms);
    } else {
      var fs := Fragments(ms[0].data, ms[0].size);
      Resynchronise(st, ms[0].data, ms[0].size);
      CleanStream(ms[1..]);
      FeedConcat(st, fs, Stream(ms[1..]));
      assert [] + Datas(ms[1..]) == Datas(ms[1..]);
    }
  }

  lemma {:induction false} StatesReached(st: Assembly, fs: seq<Fragment>)
    requires st.index == 1 ==> st.got == []
    requires forall k :: 0 <= k < |fs| ==> 1 <= fs[k].num <= fs[k].tot < 0x1_0000
    ensures var st' := FeedAll(st, fs).0; st'.index == 1 ==> st'.got == []
    decreases |fs|
  {
    if fs != [] { StatesReached(Feed(st, fs[0]).0, fs[1..]); }
  }

  // --------------------------------------------------------------------- thr_receive

  /** An Ethernet frame: thr_msg_check looks at length, protocol and channel. */
  datatype Frame = Frame(ok: bool, fragment: Fragment)

  function Ours(frames: seq<Frame>): seq<Fragment> {
    if frames == [] then []
    else (if frames[0].ok then [frames[0].fragment] else []) + Ours(frames[1..])
  }

  lemma OursStep(f: Frame, rest: seq<Frame>)
    ensures Ours([f] + rest) == (if f.ok then [f.fragment] else []) + Ours(rest)
  {
    assert ([f] + rest)[1..] == rest;
  }

  lemma NoFrames()
    ensures Ours([]) == []
  {}

  lemma {:induction false} OursConcat(a: seq<Frame>, b: seq<Frame>)
    ensures Ours(a + b) == Ours(a) + Ours(b)
    decreases |a|
  {
    hide Ours;
    NoFrames();
    if a == [] {
      assert a + b == b;
    } else {
      OursConcat(a[1..], b);
      var h := if a[0].ok then [a[0].fragment] else [];
      OursStep(a[0], a[1..] + b);
      OursStep(a[0], a[1..]);
      assert [a[0]] + a[1..] == a && [a[0]] + (a[1..] + b) == a + b;
      assert h + (Ours(a[1..]) + Ours(b)) == h + Ours(a[1..]) + Ours(b);
    }
  }

  /** thr_receive on the frames that arrive: it returns with the first message that
    * is complete, having looked at no later frame.
    */
  method Receive(frames: seq<Frame>) returns (done: bool, data: seq<byte>, used: nat)
    ensures used <= |frames| && FeedAll(CLEAN, Ours(frames[..used])).1 == (if done then [data] else [])
    ensures done ==> FeedAll(CLEAN, Ours(frames[..used])).0 == CLEAN
    ensures !done ==> used == |frames|
  {
    hide FeedAll, Ours;
    done, data, used := false, [], 0;
    var index := 1;
    Beginning(frames);
    while used < |frames|
      invariant used <= |frames| && 0 <= index
      invariant FeedAll(CLEAN, Ours(frames[..used])) == (Assembly(index, data), [])
    {
      var f := frames[used];
      NextFrame(frames, used, Assembly(index, data));
      used := used + 1;
      if f.ok {
        if index == f.fragment.num {
          data := data + f.fragment.payload;
          index := (index + 1) % 0x1_0000;
          if index > f.fragment.tot { return true, data, used; }
        } else {
          index, data := 1, [];
        }
      }
    }
  }

  lemma Beginning(frames: seq<Frame>)
    ensures FeedAll(CLEAN, Ours(frames[..0])) == (CLEAN, [])
  {}

  lemma NextFrame(frames: seq<Frame>, n: nat, st: Assembly)
    requires n < |frames| && FeedAll(CLEAN, Ours(frames[..n])) == (st, [])
    ensures FeedAll(CLEAN, Ours(frames[..n + 1])) == if frames[n].ok then Feed(st, frames[n].fragment) else (st, [])
  {
    hide FeedAll, Feed, Ours;
    assert frames[..n + 1] == frames[..n] + [frames[n]];
    OursConcat(frames[..n], [frames[n]]);
    SingleFrame(frames[n], st);
    FeedConcat(CLEAN, Ours(frames[..n]), Ours([frames[n]]));
    var out := FeedAll(st, Ours([frames[n]])).1;
    assert [] + out == out;
  }

  lemma SingleFrame(f: Frame, st: Assembly)
    ensures FeedAll(st, Ours([f])) == if f.ok then Feed(st, f.fragment) else (st, [])
  {
    assert [f][1..] == [];
    assert Ours([]) == [];
    if f.ok {
      assert Ours([f]) == [f.fragment];
      FeedOne(st, f.fragment, []);
      var out := Feed(st, f.fragment).1;
      assert out + [] == out;
      assert [f.fragment] + [] == [f.fragment];
    }
  }
}
