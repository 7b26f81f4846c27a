/** What the receiver of a throttled channel can deliver when frames are lost. Each
  * fragment is followed together with the message it comes from.
  */
module ThrottleLosses {
  import opened Wire
  import opened Throttle

  type Messages = ms: seq<Message> | forall k :: 0 <= k < |ms| ==> Sendable(ms[k]) witness []

  /** A fragment of the message with number `from`. */
  datatype Tagged = Tagged(from: nat, f: Fragment)

  ghost function Tags(ms: Messages, k: nat): (r: seq<Tagged>)
    requires k < |ms|
    ensures |r| == Needed(|ms[k].data|, ms[k].size) && 1 <= |r| <= 254
    ensures forall i :: 0 <= i < |r| ==> r[i].from == k && r[i].f.num == i + 1 && r[i].f.tot == |r|
  {
    var (data, size) := (ms[k].data, ms[k].size);
    assert Sendable(ms[k]);
    CutIsComplete(data, size, 1, Needed(|data|, size));
    var fs := Fragments(data, size);
    seq(|fs|, i requires 0 <= i < |fs| => Tagged(k, fs[i]))
  }

  /** Everything that is sent, from message k on. */
  ghost function Sending(ms: Messages, k: nat): seq<Tagged>
    requires k <= |ms|
    decreases |ms| - k
  {
    if k == |ms| then [] else Tags(ms, k) + Sending(ms, k + 1)
  }

  function Untag(ts: seq<Tagged>): (r: seq<Fragment>)
    ensures |r| == |ts|
  {
    seq(|ts|, i requires 0 <= i < |ts| => ts[i].f)
  }

  lemma TagsAre(ms: Messages, k: nat)
    requires k < |ms|
    ensures Sendable(ms[k]) && Untag(Tags(ms, k)) == Fragments(ms[k].data, ms[k].size)
  {
    hide Cut, Needed;
    assert Sendable(ms[k]);
    CutIsComplete(ms[k].data, ms[k].size, 1, Needed(|ms[k].data|, ms[k].size));
  }

  lemma UntagConcat(a: seq<Tagged>, b: seq<Tagged>)
    ensures Untag(a + b) == Untag(a) + Untag(b)
  {}

  /** Without the tags it is the stream. */
  lemma {:induction false} SendingIsStream(ms: Messages, k: nat)
    requires k <= |ms|
    ensures Untag(Sending(ms, k)) == Stream(ms[k..])
    decreases |ms| - k
  {
    hide Fragments, Untag, Tags;
    if k == |ms| {
      assert Untag([]) == [];
      assert ms[k..] == [];
    } else {
      TagsAre(ms, k);
      SendingIsStream(ms, k + 1);
      UntagConcat(Tags(ms, k), Sending(ms, k + 1));
      assert ms[k..][1..] == ms[k + 1..] && ms[k..][0] == ms[k];
    }
  }

  // ---------------------------------------------------------------------- receiving

  /** The receiver's state, with the fragments it has put together. */
  datatype Trace = Trace(index: nat, parts: seq<Tagged>)

  const FRESH: Trace := Trace(1, [])

  function Follow(st: Trace, x: Tagged): (Trace, seq<seq<Tagged>>) {
    if st.index == x.f.num then
      var (index, parts) := ((st.index + 1) % 0x1_0000, st.parts + [x]);
      if index > x.f.tot then (FRESH, [parts]) else (Trace(index, parts), [])
    else (FRESH, [])
  }

  function FollowAll(st: Trace, xs: seq<Tagged>): (Trace, seq<seq<Tagged>>)
    decreases |xs|
  {
    if xs == [] then (st, [])
    else
      var (st1, out1) := Follow(st, xs[0]);
      var (st2, out2) := FollowAll(st1, xs[1..]);
      (st2, out1 + out2)
  }

  function Bytes(parts: seq<Tagged>): seq<byte> {
    Payloads(Untag(parts))
  }

  function AllBytes(ds: seq<seq<Tagged>>): (r: seq<seq<byte>>)
    ensures |r| == |ds|
  {
    seq(|ds|, i requires 0 <= i < |ds| => Bytes(ds[i]))
  }

  lemma {:induction false} PayloadsConcat(a: seq<Fragment>, b: seq<Fragment>)
    ensures Payloads(a + b) == Payloads(a) + Payloads(b)
  {
    if a == [] {
      assert a + b == b;
    } else {
      assert (a + b)[1..] == a[1..] + b;
      PayloadsConcat(a[1..], b);
    }
  }

  lemma BytesMore(parts: seq<Tagged>, x: Tagged)
    ensures Bytes(parts + [x]) == Bytes(parts) + x.f.payload && Bytes([]) == []
  {
    UntagConcat(parts, [x]);
    PayloadsConcat(Untag(parts), Untag([x]));
    assert Untag([x]) == [x.f];
    assert Payloads([x.f]) == x.f.payload + Payloads([]);
  }

  lemma FollowIsFeed(st: Trace, x: Tagged)
    ensures var (st', ds) := Follow(st, x);
            Feed(Assembly(st.index, Bytes(st.parts)), x.f) == (Assembly(st'.index, Bytes(st'.parts)), AllBytes(ds))
  {
    hide Bytes;
    BytesMore(st.parts, x);
    assert AllBytes([]) == [];
    var ds: seq<seq<Tagged>> := [st.parts + [x]];
    assert AllBytes(ds) == [Bytes(st.parts + [x])];
  }

  /** Following the fragments is what the receiver does with their bytes. */
  lemma {:induction false} FollowAllIsFeedAll(st: Trace, xs: seq<Tagged>)
    ensures var (st', ds) := FollowAll(st, xs);
            FeedAll(Assembly(st.index, Bytes(st.parts)), Untag(xs)) == (Assembly(st'.index, Bytes(st'.parts)), AllBytes(ds))
    decreases |xs|
  {
    hide Follow, Feed, Bytes;
    if xs == [] {
      assert Untag(xs) == [] && AllBytes([]) == [];
    } else {
      FollowIsFeed(st, xs[0]);
      var (st1, out1) := Follow(st, xs[0]);
      FollowAllIsFeedAll(st1, xs[1..]);
      assert Untag(xs)[1..] == Untag(xs[1..]);
      var out2 := FollowAll(st1, xs[1..]).1;
      assert AllBytes(out1 + out2) == AllBytes(out1) + AllBytes(out2);
    }
  }

  // ------------------------------------------------------------------- what is delivered

  /** All fragments of one message, and only those. */
  ghost predicate Whole(ms: Messages, d: seq<Tagged>) {
    exists k :: 0 <= k < |ms| && d == Tags(ms, k)
  }

  ghost predicate AllWhole(ms: Messages, ds: seq<seq<Tagged>>) {
    forall i :: 0 <= i < |ds| ==> Whole(ms, ds[i])
  }

  predicate Long(ms: Messages, k: nat)
    requires k < |ms|
  {
    assert Sendable(ms[k]);
    Needed(|ms[k].data|, ms[k].size) > 1
  }

  ghost predicate AtMostOneLong(ms: Messages) {
    forall i, j :: 0 <= i < j < |ms| ==> !(Long(ms, i) && Long(ms, j))
  }

  /** Each of them was sent: losses, repetitions and any order are allowed. */
  ghost predicate Arrived(ms: Messages, xs: seq<Tagged>) {
    forall i :: 0 <= i < |xs| ==> xs[i].from < |ms| && xs[i] in Tags(ms, xs[i].from)
  }

  /** What was put together so far is the beginning of a message. */
  ghost predicate Begun(ms: Messages, st: Trace) {
    if st.index == 1 then st.parts == []
    else exists k :: 0 <= k < |ms| && 1 < st.index <= |Tags(ms, k)| && st.parts == Tags(ms, k)[..st.index - 1]
  }

  lemma SameLong(ms: Messages, i: nat, j: nat)
    requires AtMostOneLong(ms) && i < |ms| && j < |ms| && |Tags(ms, i)| > 1 && |Tags(ms, j)| > 1
    ensures i == j
  {
    hide Tags;
    assert Long(ms, i) && Long(ms, j);
  }

  /** The expected fragment continues the beginning of its own message. */
  lemma Continues(ms: Messages, st: Trace, x: Tagged)
    requires AtMostOneLong(ms) && Begun(ms, st) && x.from < |ms| && x in Tags(ms, x.from) && st.index == x.f.num
    ensures st.parts + [x] == Tags(ms, x.from)[..st.index] && 1 <= st.index <= |Tags(ms, x.from)| == x.f.tot
  {
    hide Tags, AtMostOneLong;
    var t := Tags(ms, x.from);
    var p :| 0 <= p < |t| && t[p] == x;
    if st.index > 1 {
      var k :| 0 <= k < |ms| && 1 < st.index <= |Tags(ms, k)| && st.parts == Tags(ms, k)[..st.index - 1];
      SameLong(ms, k, x.from);
    }
    assert st.parts == t[..p];
  }

  lemma FollowBeginning(ms: Messages, st: Trace, x: Tagged)
    requires AtMostOneLong(ms) && Begun(ms, st) && x.from < |ms| && x in Tags(ms, x.from)
    ensures Begun(ms, Follow(st, x).0) && AllWhole(ms, Follow(st, x).1)
  {
    hide *;
    if st.index == x.f.num {
      Continues(ms, st, x);
      FollowExpected(ms, st, x);
    } else {
      FollowOther(ms, st, x);
    }
  }

  lemma FollowExpected(ms: Messages, st: Trace, x: Tagged)
    requires x.from < |ms| && st.index == x.f.num && 1 <= st.index <= |Tags(ms, x.from)| == x.f.tot
    requires st.parts + [x] == Tags(ms, x.from)[..st.index]
    ensures Begun(ms, Follow(st, x).0) && AllWhole(ms, Follow(st, x).1)
  {
    hide Tags;
    assert Tags(ms, x.from)[..|Tags(ms, x.from)|] == Tags(ms, x.from);
  }

  lemma FollowOther(ms: Messages, st: Trace, x: Tagged)
    requires st.index != x.f.num
    ensures Begun(ms, Follow(st, x).0) && AllWhole(ms, Follow(st, x).1)
  {}

  lemma {:induction false} OnlyWholes(ms: Messages, st: Trace, xs: seq<Tagged>)
    requires AtMostOneLong(ms) && Begun(ms, st) && Arrived(ms, xs)
    ensures AllWhole(ms, FollowAll(st, xs).1)
    decreases |xs|
  {
    hide AtMostOneLong, Begun, Follow, Tags, Whole;
    if xs != [] {
      FollowBeginning(ms, st, xs[0]);
      OnlyWholes(ms, Follow(st, xs[0]).0, xs[1..]);
    }
  }

  /** A whole message is delivered as it was sent. */
  lemma WholeIsSent(ms: Messages, d: seq<Tagged>)
    requires Whole(ms, d)
    ensures exists k :: 0 <= k < |ms| && Bytes(d) == ms[k].data
  {
    hide Cut, Needed, Tags;
    var k :| 0 <= k < |ms| && d == Tags(ms, k);
    TagsAre(ms, k);
    CutIsComplete(ms[k].data, ms[k].size, 1, Needed(|ms[k].data|, ms[k].size));
  }

  // --------------------------------------------------------------------------- losses

  /** What is left of a stream when some of it is lost. */
  ghost predicate Left<T>(xs: seq<T>, all: seq<T>)
    decreases |all|
  {
    if all == [] then xs == []
    else Left(xs, all[1..]) || (xs != [] && xs[0] == all[0] && Left(xs[1..], all[1..]))
  }

  lemma {:induction false} NothingIsLeft<T>(all: seq<T>)
    ensures Left([], all)
  {
    if all != [] { NothingIsLeft(all[1..]); }
  }

  lemma {:induction false} AllIsLeft<T>(all: seq<T>)
    ensures Left(all, all)
  {
    if all != [] { AllIsLeft(all[1..]); }
  }

  lemma {:induction false} LeftConcat<T>(a: seq<T>, all: seq<T>, b: seq<T>, more: seq<T>)
    requires Left(a, all) && Left(b, more)
    ensures Left(a + b, all + more)
    decreases |all|
  {
    if all == [] {
      assert a + b == b && all + more == more;
    } else {
      assert (all + more)[1..] == all[1..] + more;
      if Left(a, all[1..]) {
        LeftConcat(a, all[1..], b, more);
      } else {
        assert (a + b)[1..] == a[1..] + b;
        LeftConcat(a[1..], all[1..], b, more);
      }
    }
  }

  lemma {:induction false} LeftIsIn<T>(xs: seq<T>, all: seq<T>)
    requires Left(xs, all)
    ensures forall i :: 0 <= i < |xs| ==> xs[i] in all
    decreases |all|
  {
    if all != [] {
      if Left(xs, all[1..]) {
        LeftIsIn(xs, all[1..]);
      } else {
        LeftIsIn(xs[1..], all[1..]);
        forall i | 0 <= i < |xs| ensures xs[i] in all {
          if i > 0 { assert xs[1..][i - 1] in all[1..]; }
        }
      }
    }
  }

  lemma {:induction false} SendingHas(ms: Messages, k: nat, x: Tagged)
    requires k <= |ms| && x in Sending(ms, k)
    ensures x.from < |ms| && x in Tags(ms, x.from)
    decreases |ms| - k
  {
    hide Tags;
    if k < |ms| {
      if x in Tags(ms, k) {
        var i :| 0 <= i < |Tags(ms, k)| && Tags(ms, k)[i] == x;
      } else {
        SendingHas(ms, k + 1, x);
      }
    }
  }

  /** Any part of what is sent from one message on. */
  lemma {:induction false} LeftOfMessage(ms: Messages, k: nat, j: nat, xs: seq<Tagged>)
    requires k <= j < |ms| && Left(xs, Tags(ms, j))
    ensures Left(xs, Sending(ms, k))
    decreases j - k
  {
    hide Left, Tags;
    if k < j {
      LeftOfMessage(ms, k + 1, j, xs);
      NothingIsLeft(Tags(ms, k));
      LeftConcat([], Tags(ms, k), xs, Sending(ms, k + 1));
      assert [] + xs == xs;
    } else {
      NothingIsLeft(Sending(ms, j + 1));
      LeftConcat(xs, Tags(ms, j), [], Sending(ms, j + 1));
      assert xs + [] == xs;
    }
  }

  lemma {:induction false} LeftOfTwo(ms: Messages, k: nat, i: nat, j: nat, a: seq<Tagged>, b: seq<Tagged>)
    requires k <= i < j < |ms| && Left(a, Tags(ms, i)) && Left(b, Tags(ms, j))
    ensures Left(a + b, Sending(ms, k))
    decreases i - k
  {
    hide Left, Tags;
    if k < i {
      LeftOfTwo(ms, k + 1, i, j, a, b);
      NothingIsLeft(Tags(ms, k));
      LeftConcat([], Tags(ms, k), a + b, Sending(ms, k + 1));
      assert [] + (a + b) == a + b;
    } else {
      LeftOfMessage(ms, i + 1, j, b);
      LeftConcat(a, Tags(ms, i), b, Sending(ms, i + 1));
    }
  }

  // --------------------------------------------------------------------------- splices

  lemma {:induction false} Completes(ms: Messages, j: nat, p: nat, parts: seq<Tagged>)
    requires j < |ms| && p < |Tags(ms, j)|
    ensures FollowAll(Trace(p + 1, parts), Tags(ms, j)[p..]) == (FRESH, [parts + Tags(ms, j)[p..]])
    decreases |Tags(ms, j)| - p
  {
    hide Tags;
    var t := Tags(ms, j);
    var (xs, st) := (t[p..], Trace(p + 1, parts));
    assert xs[1..] == t[p + 1..];
    assert parts + [t[p]] + t[p + 1..] == parts + t[p..];
    if p + 1 < |t| {
      Completes(ms, j, p + 1, parts + [t[p]]);
      var out := [parts + t[p..]];
      assert [] + out == out;
    } else {
      assert FollowAll(FRESH, []) == (FRESH, []);
      assert parts + [t[p]] == parts + t[p..];
      var (out, none: seq<seq<Tagged>>) := ([parts + t[p..]], []);
      assert out + none == out;
    }
  }

  /** The first fragment of one message and all but the first of another. */
  ghost function Spliced(ms: Messages, i: nat, j: nat): seq<Tagged>
    requires i < |ms| && j < |ms|
  {
    [Tags(ms, i)[0]] + Tags(ms, j)[1..]
  }

  lemma LongIsCut(ms: Messages, k: nat)
    requires k < |ms| && Long(ms, k)
    ensures var (data, size) := (ms[k].data, ms[k].size);
            && size < |data| && Tags(ms, k)[0].f.payload == data[..size]
            && Bytes(Tags(ms, k)[1..]) == data[size..]
  {
    hide Needed, Tags;
    var (data, size) := (ms[k].data, ms[k].size);
    TagsAre(ms, k);
    if |data| <= size { NeededOne(|data|, size); }
    CutIsComplete(data[size..], size, 2, Needed(|data|, size));
    var fs := Fragments(data, size);
    assert fs[1..] == Cut(data[size..], size, 2, Needed(|data|, size));
    assert Untag(Tags(ms, k)[1..]) == fs[1..];
    assert Untag(Tags(ms, k))[0] == fs[0];
  }

  /** The beginning of one message, as much as a fragment holds, and the rest of another. */
  ghost function Joined(ms: Messages, i: nat, j: nat): seq<byte>
    requires i < |ms| && j < |ms| && Long(ms, i) && Long(ms, j)
  {
    LongIsCut(ms, i);
    LongIsCut(ms, j);
    ms[i].data[..ms[i].size] + ms[j].data[ms[j].size..]
  }

  /** Two losses can join parts of two messages: the beginning of one and the end of
    * another, and that is delivered.
    */
  lemma Splice(ms: Messages, i: nat, j: nat)
    requires i < j < |ms| && Long(ms, i) && Long(ms, j)
    ensures var xs := Spliced(ms, i, j);
            && Left(xs, Sending(ms, 0)) && FollowAll(FRESH, xs) == (FRESH, [xs]) && !Whole(ms, xs)
            && Bytes(xs) == Joined(ms, i, j)
  {
    hide *;
    SpliceIsLeft(ms, i, j);
    SpliceDelivers(ms, i, j);
    SpliceIsMixed(ms, i, j);
    SplicedBytes(ms, i, j);
  }

  lemma SpliceIsLeft(ms: Messages, i: nat, j: nat)
    requires i < j < |ms|
    ensures Left(Spliced(ms, i, j), Sending(ms, 0))
  {
    hide Tags, Left, Sending;
    FirstIsLeft(Tags(ms, i));
    RestIsLeft(Tags(ms, j));
    LeftOfTwo(ms, 0, i, j, [Tags(ms, i)[0]], Tags(ms, j)[1..]);
  }

  lemma SpliceDelivers(ms: Messages, i: nat, j: nat)
    requires i < |ms| && j < |ms| && Long(ms, i) && Long(ms, j)
    ensures var xs := Spliced(ms, i, j); FollowAll(FRESH, xs) == (FRESH, [xs])
  {
    hide Tags, FollowAll, Needed;
    Completes(ms, j, 1, [Tags(ms, i)[0]]);
    FollowFirst(Tags(ms, i)[0], Tags(ms, j)[1..]);
  }

  lemma SpliceIsMixed(ms: Messages, i: nat, j: nat)
    requires i < j < |ms| && Long(ms, j)
    ensures !Whole(ms, Spliced(ms, i, j))
  {
    hide Tags, Needed;
    var xs := Spliced(ms, i, j);
    assert xs[0].from == i && xs[1].from == j;
  }

  lemma SplicedBytes(ms: Messages, i: nat, j: nat)
    requires i < |ms| && j < |ms| && Long(ms, i) && Long(ms, j)
    ensures Bytes(Spliced(ms, i, j)) == Joined(ms, i, j)
  {
    hide Needed, Tags, Long, Payloads;
    LongIsCut(ms, i);
    LongIsCut(ms, j);
    var (x, rest) := (Tags(ms, i)[0], Tags(ms, j)[1..]);
    BytesMore([], x);
    assert [] + [x] == [x] && Bytes([]) + x.f.payload == x.f.payload;
    UntagConcat([x], rest);
    PayloadsConcat(Untag([x]), Untag(rest));
  }

  lemma FollowFirst(x: Tagged, xs: seq<Tagged>)
    requires x.f.num == 1 && x.f.tot > 1
    ensures FollowAll(FRESH, [x] + xs) == FollowAll(Trace(2, [x]), xs)
  {
    assert ([x] + xs)[1..] == xs;
    assert FRESH.parts + [x] == [x];
    var out := FollowAll(Trace(2, [x]), xs).1;
    assert [] + out == out;
  }

  lemma FirstIsLeft(a: seq<Tagged>)
    requires a != []
    ensures Left([a[0]], a)
  {
    NothingIsLeft(a[1..]);
    assert [a[0]][1..] == [];
  }

  lemma RestIsLeft(a: seq<Tagged>)
    requires a != []
    ensures Left(a[1..], a)
  {
    AllIsLeft(a[1..]);
  }

  /** Whatever is lost, each delivery is put together from all fragments of one message
    * and no others: this holds if and only if at most one of the messages needs more
    * than one fragment.
    */
  lemma OnlySentIff(ms: Messages)
    ensures (forall xs: seq<Tagged> :: Left(xs, Sending(ms, 0)) ==> AllWhole(ms, FollowAll(FRESH, xs).1)) <==> AtMostOneLong(ms)
  {
    hide Tags, Left, FollowAll, Needed, Sending;
    if AtMostOneLong(ms) {
      forall xs: seq<Tagged> | Left(xs, Sending(ms, 0)) ensures AllWhole(ms, FollowAll(FRESH, xs).1) {
        LeftIsIn(xs, Sending(ms, 0));
        forall i | 0 <= i < |xs| ensures xs[i].from < |ms| && xs[i] in Tags(ms, xs[i].from) {
          SendingHas(ms, 0, xs[i]);
        }
        OnlyWholes(ms, FRESH, xs);
      }
    } else {
      var i, j :| 0 <= i < j < |ms| && Long(ms, i) && Long(ms, j);
      Splice(ms, i, j);
      var xs := Spliced(ms, i, j);
      assert FollowAll(FRESH, xs).1[0] == xs;
    }
  }

  // ------------------------------------------------------- what thr_receive makes of it

  lemma UntagNothing()
    ensures Untag([]) == []
  {}

  lemma UntagFirst(x: Tagged, xs: seq<Tagged>)
    ensures Untag([x] + xs) == [x.f] + Untag(xs)
  {}

  lemma UntagRest(ts: seq<Tagged>)
    requires ts != []
    ensures Untag(ts)[0] == ts[0].f && Untag(ts)[1..] == Untag(ts[1..])
  {}

  /** Every loss of fragments is a loss of tagged fragments. */
  lemma {:induction false} Lift(fs: seq<Fragment>, all: seq<Tagged>) returns (xs: seq<Tagged>)
    requires Left(fs, Untag(all))
    ensures Left(xs, all) && Untag(xs) == fs
    decreases |all|
  {
    hide Untag;
    xs := [];
    UntagNothing();
    if all != [] {
      UntagRest(all);
      if Left(fs, Untag(all[1..])) {
        xs := Lift(fs, all[1..]);
      } else {
        var more := Lift(fs[1..], all[1..]);
        UntagFirst(all[0], more);
        xs := [all[0]] + more;
        assert xs[1..] == more;
        assert [fs[0]] + fs[1..] == fs;
      }
    }
  }

  lemma {:induction false} LeftUntag(xs: seq<Tagged>, all: seq<Tagged>)
    requires Left(xs, all)
    ensures Left(Untag(xs), Untag(all))
    decreases |all|
  {
    hide Untag;
    UntagNothing();
    if all != [] {
      UntagRest(all);
      if Left(xs, all[1..]) {
        LeftUntag(xs, all[1..]);
      } else {
        UntagRest(xs);
        LeftUntag(xs[1..], all[1..]);
      }
    }
  }

  ghost predicate IsSent(ms: Messages, d: seq<byte>) {
    exists k :: 0 <= k < |ms| && d == ms[k].data
  }

  lemma WholesAreSent(ms: Messages, ds: seq<seq<Tagged>>)
    requires AllWhole(ms, ds)
    ensures forall i :: 0 <= i < |ds| ==> IsSent(ms, AllBytes(ds)[i])
  {
    hide Whole, Bytes;
    forall i | 0 <= i < |ds| ensures IsSent(ms, AllBytes(ds)[i]) { WholeIsSent(ms, ds[i]); }
  }

  /** If at most one message is long, the receiver delivers messages that were sent and
    * nothing else, whatever is lost.
    */
  lemma DeliversSent(ms: Messages, fs: seq<Fragment>)
    requires AtMostOneLong(ms) && Left(fs, Stream(ms))
    ensures forall i :: 0 <= i < |FeedAll(CLEAN, fs).1| ==> IsSent(ms, FeedAll(CLEAN, fs).1[i])
  {
    hide AtMostOneLong, Left, Stream, FeedAll, Untag, Sending, FollowAll, AllWhole, IsSent;
    SendingIsStream(ms, 0);
    assert ms[0..] == ms;
    var xs := Lift(fs, Sending(ms, 0));
    OnlySentIff(ms);
    FollowAllIsFeedAll(FRESH, xs);
    NoBytes();
    WholesAreSent(ms, FollowAll(FRESH, xs).1);
  }

  lemma NoBytes()
    ensures Bytes([]) == []
  {}

  /** If two are, losses make it deliver the beginning of one with the rest of the other. */
  lemma DeliversSplice(ms: Messages, i: nat, j: nat) returns (fs: seq<Fragment>)
    requires i < j < |ms| && Long(ms, i) && Long(ms, j)
    ensures Left(fs, Stream(ms))
    ensures FeedAll(CLEAN, fs) == (CLEAN, [Joined(ms, i, j)])
  {
    hide Left, Stream, FeedAll, Untag, Sending, FollowAll, Whole, Long, Bytes;
    SendingIsStream(ms, 0);
    assert ms[0..] == ms;
    var xs := Spliced(ms, i, j);
    Splice(ms, i, j);
    LeftUntag(xs, Sending(ms, 0));
    FollowAllIsFeedAll(FRESH, xs);
    NoBytes();
    assert AllBytes([xs]) == [Bytes(xs)];
    fs := Untag(xs);
  }

  lemma {:induction false} StreamNumbers(ms: Messages)
    ensures forall k :: 0 <= k < |Stream(ms)| ==> 1 <= Stream(ms)[k].num <= Stream(ms)[k].tot < 0x1_0000
    decreases |ms|
  {
    hide Fragments, Needed;
    if ms != [] {
      TagsAre(ms, 0);
      assert forall k :: 0 <= k < |Tags(ms, 0)| ==> Untag(Tags(ms, 0))[k] == Tags(ms, 0)[k].f;
      StreamNumbers(ms[1..]);
    }
  }

  /** After any losses, of the messages that then arrive intact at most the first is
    * dropped.
    */
  lemma ThenIntact(ms: Messages, fs: seq<Fragment>, later: Messages)
    requires Left(fs, Stream(ms)) && later != []
    ensures var (st, before) := FeedAll(CLEAN, fs);
            FeedAll(CLEAN, fs + Stream(later)) == (CLEAN, before + Datas(if st.index == 1 then later else later[1..]))
  {
    hide Left, Stream, FeedAll;
    StreamNumbers(ms);
    LeftIsIn(fs, Stream(ms));
    assert forall k :: 0 <= k < |fs| ==> 1 <= fs[k].num <= fs[k].tot < 0x1_0000;
    StatesReached(CLEAN, fs);
    AfterLoss(FeedAll(CLEAN, fs).0, later);
    FeedConcat(CLEAN, fs, Stream(later));
  }
}
