/** The introspection handshake (examples/twoway/introspecting.c): each end
  * announces the signatures it handles, and an end that is about to send looks up
  * whether its peer does.
  */
module Introspection {

  datatype Status = Unhandled | Unregistered | Registered

  /** Name and flat signature. */
  datatype Signature = Signature(name: string, bytes: string)

  /** What has been announced, by remote index, and the status of each local index
    * that was asked for; the others are unknown.
    */
  datatype Tables = Tables(remote: map<nat, Signature>, local: map<nat, Status>)

  datatype Event =
    | Announce(index: nat, sig: Signature)  // handles_signature
    | Query(l: nat)                         // HAS_SIGNATURE
    | Begin(l: nat)                         // writer start for a registration

  function Rank(s: Status): nat {
    match s
    case Unhandled => 1
    case Unregistered => 2
    case Registered => 3
  }

  function StatusRank(t: Tables, l: nat): nat {
    if l in t.local then Rank(t.local[l]) else 0
  }

  ghost predicate Announced(remote: map<nat, Signature>, sig: Signature) {
    exists i :: i in remote && remote[i] == sig
  }

  /** get_local: `sigs` gives the signature of a local index. */
  ghost function Look(t: Tables, sigs: nat -> Signature, l: nat): Tables {
    if l in t.local then t
    else t.(local := t.local[l := if Announced(t.remote, sigs(l)) then Unregistered else Unhandled])
  }

  ghost function Step(t: Tables, sigs: nat -> Signature, e: Event): Tables {
    match e
    case Query(l) => Look(t, sigs, l)
    case Begin(l) => var u := Look(t, sigs, l); u.(local := u.local[l := Registered])
    case Announce(i, sig) =>
      Tables(t.remote[i := sig],
             map l | l in t.local :: if t.local[l].Unhandled? && sigs(l) == sig then Unregistered else t.local[l])
  }

  ghost function Run(sigs: nat -> Signature, es: seq<Event>): Tables {
    if es == [] then Tables(map[], map[]) else Step(Run(sigs, es[..|es| - 1]), sigs, es[|es| - 1])
  }

  /** The verdict on a local index, from the set of events alone. */
  ghost predicate Started(es: seq<Event>, l: nat) {
    Begin(l) in es
  }

  ghost predicate Known(es: seq<Event>, l: nat) {
    Begin(l) in es || Query(l) in es
  }

  ghost predicate Heard(es: seq<Event>, sig: Signature) {
    exists k :: 0 <= k < |es| && es[k].Announce? && es[k].sig == sig
  }

  lemma HeardMore(p: seq<Event>, e: Event, sig: Signature)
    ensures Heard(p + [e], sig) <==> Heard(p, sig) || (e.Announce? && e.sig == sig)
  {
    var es := p + [e];
    if Heard(p, sig) {
      var k :| 0 <= k < |p| && p[k].Announce? && p[k].sig == sig;
      assert es[k] == p[k];
    }
    if e.Announce? && e.sig == sig { assert es[|p|] == e; }
    if Heard(es, sig) {
      var k :| 0 <= k < |es| && es[k].Announce? && es[k].sig == sig;
      assert k < |p| ==> p[k] == es[k];
    }
  }

  /** An announcement whose remote index has not been given to another signature. */
  ghost predicate Stands(es: seq<Event>, k: nat)
    requires k < |es|
  {
    es[k].Announce? && forall m :: k < m < |es| && es[m].Announce? && es[m].index == es[k].index ==> es[m].sig == es[k].sig
  }

  /** A matching announcement that no later one has overwritten. */
  ghost predicate Standing(es: seq<Event>, sig: Signature) {
    exists k :: 0 <= k < |es| && Stands(es, k) && es[k].sig == sig
  }

  lemma StandsLater(p: seq<Event>, e: Event, k: nat)
    requires k < |p|
    ensures Stands(p + [e], k) <==>
            Stands(p, k) && (e.Announce? && e.index == p[k].index ==> e.sig == p[k].sig)
  {
    var es := p + [e];
    assert es[|p|] == e;
    assert forall m :: 0 <= m < |p| ==> es[m] == p[m];
  }

  ghost predicate StandsFor(es: seq<Event>, i: nat, sig: Signature) {
    exists k :: 0 <= k < |es| && Stands(es, k) && es[k] == Announce(i, sig)
  }

  lemma StillStands(p: seq<Event>, e: Event, i: nat, sig: Signature)
    requires StandsFor(p, i, sig) && !(e.Announce? && e.index == i)
    ensures StandsFor(p + [e], i, sig)
  {
    var k :| 0 <= k < |p| && Stands(p, k) && p[k] == Announce(i, sig);
    StandsLater(p, e, k);
    assert (p + [e])[k] == p[k];
  }

  ghost predicate HoldsStanding(r: map<nat, Signature>, es: seq<Event>) {
    && (forall k :: 0 <= k < |es| && Stands(es, k) ==> es[k].index in r && r[es[k].index] == es[k].sig)
    && (forall i :: i in r ==> StandsFor(es, i, r[i]))
  }

  /** The remote table holds the announcements that stand. */
  lemma {:induction false} RemoteStands(sigs: nat -> Signature, es: seq<Event>)
    ensures HoldsStanding(Run(sigs, es).remote, es)
  {
    if es != [] {
      var (p, e) := (es[..|es| - 1], es[|es| - 1]);
      assert es == p + [e];
      RemoteStands(sigs, p);
      var (q, r) := (Run(sigs, p).remote, Run(sigs, es).remote);
      assert r == if e.Announce? then q[e.index := e.sig] else q;
      forall k | 0 <= k < |es| && Stands(es, k) ensures es[k].index in r && r[es[k].index] == es[k].sig {
        if k < |p| { StandsLater(p, e, k); }
      }
      forall i | i in r ensures StandsFor(es, i, r[i]) {
        if e.Announce? && i == e.index {
          assert es[|p|] == e && Stands(es, |p|);
        } else {
          StillStands(p, e, i, q[i]);
        }
      }
    }
  }

  lemma StandingIs(sigs: nat -> Signature, es: seq<Event>, sig: Signature)
    ensures Announced(Run(sigs, es).remote, sig) <==> Standing(es, sig)
  {
    RemoteStands(sigs, es);
    var r := Run(sigs, es).remote;
    if Announced(r, sig) {
      var i :| i in r && r[i] == sig;
      assert StandsFor(es, i, sig);
    }
    if Standing(es, sig) {
      var k :| 0 <= k < |es| && Stands(es, k) && es[k].sig == sig;
      assert r[es[k].index] == sig;
    }
  }

  /** What was known of a signature when it was first asked for, or has been
    * announced since.
    */
  ghost predicate Noticed(es: seq<Event>, l: nat, sig: Signature)
    requires Known(es, l)
  {
    var q := FirstAsked(es, l);
    Standing(es[..q], sig) || Heard(es[q..], sig)
  }

  ghost function FirstAsked(es: seq<Event>, l: nat): (q: nat)
    requires Known(es, l)
    ensures q < |es| && (es[q] == Begin(l) || es[q] == Query(l)) && !Known(es[..q], l)
  {
    if es[0] == Begin(l) || es[0] == Query(l) then 0
    else
      assert es == [es[0]] + es[1..];
      var q := 1 + FirstAsked(es[1..], l);
      assert es[..q] == [es[0]] + es[1..][..q - 1];
      q
  }

  lemma FirstAskedIs(es: seq<Event>, l: nat, q: nat)
    requires Known(es, l) && q < |es| && (es[q] == Begin(l) || es[q] == Query(l)) && !Known(es[..q], l)
    ensures FirstAsked(es, l) == q
  {
    var r := FirstAsked(es, l);
    assert forall i :: 0 <= i < q ==> es[i] in es[..q];
    assert forall i :: 0 <= i < r ==> es[i] in es[..r];
  }

  lemma NoticedMore(p: seq<Event>, e: Event, l: nat, sig: Signature)
    requires Known(p, l)
    ensures Known(p + [e], l) && (Noticed(p + [e], l, sig) <==> Noticed(p, l, sig) || (e.Announce? && e.sig == sig))
  {
    hide Heard, Standing;
    var (es, q) := (p + [e], FirstAsked(p, l));
    assert es[q] == p[q] && es[..q] == p[..q] && es[q..] == p[q..] + [e];
    assert es[q] in es;
    FirstAskedIs(es, l, q);
    HeardMore(p[q..], e, sig);
  }

  lemma NoticedFirst(p: seq<Event>, e: Event, l: nat, sig: Signature)
    requires !Known(p, l) && (e == Begin(l) || e == Query(l))
    ensures Known(p + [e], l) && (Noticed(p + [e], l, sig) <==> Standing(p, sig))
  {
    hide Standing;
    var es := p + [e];
    assert es[|p|] == e && es[..|p|] == p && es[|p|..] == [e];
    FirstAskedIs(es, l, |p|);
    assert !Heard([e], sig);
  }

  /** The verdict after any events at all: a known local signature that was not
    * started is unregistered if and only if a matching announcement stood when it
    * was first asked for, or has come since.
    */
  lemma {:induction false} Verdict(sigs: nat -> Signature, es: seq<Event>, l: nat)
    ensures var t := Run(sigs, es);
            && (l in t.local <==> Known(es, l))
            && (l in t.local ==>
                  t.local[l] == if Started(es, l) then Registered
                                else if Noticed(es, l, sigs(l)) then Unregistered else Unhandled)
  {
    hide Noticed, Heard, Standing;
    if es != [] {
      var (p, e) := (es[..|es| - 1], es[|es| - 1]);
      assert es == p + [e];
      Verdict(sigs, p, l);
      StandingIs(sigs, p, sigs(l));
      assert Begin(l) in es <==> Begin(l) in p || e == Begin(l);
      assert Query(l) in es <==> Query(l) in p || e == Query(l);
      if Known(p, l) {
        NoticedMore(p, e, l, sigs(l));
      } else if Known(es, l) {
        NoticedFirst(p, e, l, sigs(l));
      }
    }
  }

  /** A matching announcement was made before the signature was first asked for and
    * overwritten by then, and none has come since.
    */
  ghost predicate Overwritten(es: seq<Event>, l: nat, sig: Signature)
    requires Known(es, l)
  {
    var q := FirstAsked(es, l);
    Heard(es[..q], sig) && !Standing(es[..q], sig) && !Heard(es[q..], sig)
  }

  /** The outcome is the one that the set of events tells if and only if the
    * signature was started or not all its announcements were overwritten before it
    * was asked for.
    */
  lemma ConfluentIff(sigs: nat -> Signature, es: seq<Event>, l: nat)
    requires Known(es, l)
    ensures var t := Run(sigs, es);
            && l in t.local
            && (t.local[l] == (if Started(es, l) then Registered else if Heard(es, sigs(l)) then Unregistered else Unhandled)
                <==> Started(es, l) || !Overwritten(es, l, sigs(l)))
  {
    hide Heard, Run, Standing;
    Verdict(sigs, es, l);
    var q := FirstAsked(es, l);
    assert es == es[..q] + es[q..];
    HeardConcat(es[..q], es[q..], sigs(l));
    if Standing(es[..q], sigs(l)) { StandingHeard(es[..q], sigs(l)); }
  }

  lemma HeardConcat(a: seq<Event>, b: seq<Event>, sig: Signature)
    ensures Heard(a + b, sig) <==> Heard(a, sig) || Heard(b, sig)
  {
    var es := a + b;
    if Heard(a, sig) {
      var k :| 0 <= k < |a| && a[k].Announce? && a[k].sig == sig;
      assert es[k] == a[k];
    }
    if Heard(b, sig) {
      var k :| 0 <= k < |b| && b[k].Announce? && b[k].sig == sig;
      assert es[|a| + k] == b[k];
    }
    if Heard(es, sig) {
      var k :| 0 <= k < |es| && es[k].Announce? && es[k].sig == sig;
      assert if k < |a| then a[k] == es[k] else b[k - |a|] == es[k];
    }
  }

  lemma StandingHeard(es: seq<Event>, sig: Signature)
    requires Standing(es, sig)
    ensures Heard(es, sig)
  {}

  /** Each remote index stands for one signature. */
  ghost predicate Consistent(es: seq<Event>) {
    forall j, k :: 0 <= j < k < |es| && es[j].Announce? && es[k].Announce? && es[j].index == es[k].index ==> es[j].sig == es[k].sig
  }

  /** The handshake is confluent: after any interleaving, a local signature that was
    * asked for or started is registered if it was started, else unregistered if a
    * matching announcement was seen at any time, before or after the query, else
    * unhandled; and nothing else is known.
    */
  lemma Confluent(sigs: nat -> Signature, es: seq<Event>, l: nat)
    requires Consistent(es)
    ensures var t := Run(sigs, es);
            && (l in t.local <==> Known(es, l))
            && (l in t.local ==>
                  t.local[l] == if Started(es, l) then Registered
                                else if Heard(es, sigs(l)) then Unregistered else Unhandled)
  {
    hide Run, Heard, Standing;
    Verdict(sigs, es, l);
    if Known(es, l) {
      ConfluentIff(sigs, es, l);
      if Heard(es[..FirstAsked(es, l)], sigs(l)) { NotOverwritten(es, FirstAsked(es, l), sigs(l)); }
    }
  }

  lemma NotOverwritten(es: seq<Event>, q: nat, sig: Signature)
    requires Consistent(es) && q <= |es| && Heard(es[..q], sig)
    ensures Standing(es[..q], sig)
  {
    var k :| 0 <= k < q && es[..q][k].Announce? && es[..q][k].sig == sig;
    assert Stands(es[..q], k);
  }

  /** Hence the order of the events does not matter. */
  lemma OrderDoesNotMatter(sigs: nat -> Signature, a: seq<Event>, b: seq<Event>)
    requires Consistent(a) && Consistent(b) && forall e :: e in a <==> e in b
    ensures Run(sigs, a).local == Run(sigs, b).local
  {
    var (x, y) := (Run(sigs, a).local, Run(sigs, b).local);
    forall l: nat ensures (l in x <==> l in y) && (l in x ==> x[l] == y[l]) {
      Confluent(sigs, a, l);
      Confluent(sigs, b, l);
      SameHeard(a, b, sigs(l));
      SameHeard(b, a, sigs(l));
    }
  }

  lemma SameHeard(a: seq<Event>, b: seq<Event>, sig: Signature)
    requires forall e :: e in a ==> e in b
    ensures Heard(a, sig) ==> Heard(b, sig)
  {
    if Heard(a, sig) {
      var k :| 0 <= k < |a| && a[k].Announce? && a[k].sig == sig;
      assert a[k] in b;
      var j :| 0 <= j < |b| && b[j] == a[k];
    }
  }

  /** Without one signature per remote index the order matters: the announcement
    * that was overwritten counts only for queries made before.
    */
  lemma OverwritingLoses(sigs: nat -> Signature, other: Signature)
    requires other != sigs(0)
    ensures var (a, b, q) := (Announce(7, sigs(0)), Announce(7, other), Query(0));
            Run(sigs, [a, q, b]).local == map[0 := Unregistered] && Run(sigs, [a, b, q]).local == map[0 := Unhandled]
  {
    var (a, b, q) := (Announce(7, sigs(0)), Announce(7, other), Query(0));
    assert [a][..0] == [] && [a, q][..1] == [a] && [a, q, b][..2] == [a, q] && [a, b][..1] == [a] && [a, b, q][..2] == [a, b];
    var t := Run(sigs, [a]);
    assert Run(sigs, []) == Tables(map[], map[]);
    assert t == Step(Tables(map[], map[]), sigs, a);
    FirstAnnouncement(sigs, map[], 7, sigs(0));
    FirstAnnouncement(sigs, map[7 := sigs(0)], 7, other);
    assert t.remote[7] == sigs(0);
    assert Run(sigs, [a, q]) == Tables(map[7 := sigs(0)], map[0 := Unregistered]);
    assert Run(sigs, [a, b]) == Tables(map[7 := other], map[]);
    assert !Announced(map[7 := other], sigs(0));
  }

  lemma FirstAnnouncement(sigs: nat -> Signature, remote: map<nat, Signature>, i: nat, sig: Signature)
    ensures Step(Tables(remote, map[]), sigs, Announce(i, sig)) == Tables(remote[i := sig], map[])
  {
    var t := Step(Tables(remote, map[]), sigs, Announce(i, sig));
    assert t.local.Keys == {};
    assert t.local == map[];
  }

  /** A status never goes back, whatever is announced. */
  lemma NeverRegresses(t: Tables, sigs: nat -> Signature, e: Event, l: nat)
    ensures StatusRank(t, l) <= StatusRank(Step(t, sigs, e), l)
  {}

  // ------------------------------------------------------------------------ in place

  class Introspecting {
    const sigs: nat -> Signature
    var remote: map<nat, Signature>
    var local: map<nat, Status>

    ghost function Value(): Tables
      reads this
    {
      Tables(remote, local)
    }

    constructor (sigs: nat -> Signature)
      ensures this.sigs == sigs && Value() == Tables(map[], map[])
    {
      this.sigs, remote, local := sigs, map[], map[];
    }

    /** The scan over the announcements. */
    method Matches(sig: Signature) returns (found: bool)
      ensures found <==> Announced(remote, sig)
    {
      var todo := remote.Keys;
      while todo != {}
        invariant todo <= remote.Keys && forall i :: i in remote && i !in todo ==> remote[i] != sig
        decreases |todo|
      {
        var i :| i in todo;
        if remote[i] == sig { return true; }
        todo := todo - {i};
      }
      return false;
    }

    method GetLocal(l: nat)
      modifies this`local
      ensures Value() == Look(old(Value()), sigs, l) && l in local
    {
      if l !in local {
        var found := Matches(sigs(l));
        local := local[l := if found then Unregistered else Unhandled];
      }
    }

    method HandlesSignature(index: nat, sig: Signature)
      modifies this`remote, this`local
      ensures Value() == Step(old(Value()), sigs, Announce(index, sig))
    {
      remote := remote[index := sig];
      var todo := local.Keys;
      while todo != {}
        invariant todo <= local.Keys == old(local).Keys && remote == old(remote)[index := sig]
        invariant forall l :: l in local ==>
                    local[l] == if l !in todo && old(local)[l].Unhandled? && sigs(l) == sig then Unregistered else old(local)[l]
        decreases |todo|
      {
        var l :| l in todo;
        if local[l] == Unhandled && sigs(l) == sig { local := local[l := Unregistered]; }
        todo := todo - {l};
      }
    }

    method WriterStart(l: nat)
      modifies this`local
      ensures Value() == Step(old(Value()), sigs, Begin(l))
    {
      GetLocal(l);
      local := local[l := Registered];
    }

    method HasSignature(l: nat) returns (status: Status)
      modifies this`local
      ensures Value() == Step(old(Value()), sigs, Query(l)) && l in local && status == local[l]
    {
      GetLocal(l);
      status := local[l];
    }
  }
}
