/** Renaming encoders (lib/c/2014/labcomm2014_renaming_encoder.c) sharing a
  * registry: who owns which use of a rename, over every interleaving of threads.
  */
module RenamingRuns {
  import opened Options
  import opened Renaming
  import opened RenamingLists

  /** How many keys hold j. */
  ghost function Count<K(!new)>(m: map<K, nat>, j: nat): nat {
    |Holders(m, j)|
  }

  ghost function Holders<K(!new)>(m: map<K, nat>, j: nat): set<K> {
    set k | k in m && m[k] == j
  }

  lemma CountAdd<K(!new)>(m: map<K, nat>, k: K, v: nat, j: nat)
    requires k !in m
    ensures Count(m[k := v], j) == Count(m, j) + if v == j then 1 else 0
  {
    if v == j {
      assert Holders(m[k := v], j) == Holders(m, j) + {k};
    } else {
      assert Holders(m[k := v], j) == Holders(m, j);
    }
  }

  lemma CountRemove<K(!new)>(m: map<K, nat>, k: K, j: nat)
    requires k in m
    ensures Count(m, j) == Count(m - {k}, j) + if m[k] == j then 1 else 0
  {
    var m' := m - {k};
    assert m'[k := m[k]] == m;
    CountAdd(m', k, m[k], j);
  }

  lemma CountNone<K(!new)>(j: nat)
    ensures Count<K>(map[], j) == 0
  {
    var m: map<K, nat> := map[];
    assert Holders(m, j) == {};
  }

  lemma CountPositive<K(!new)>(m: map<K, nat>, k: K)
    requires k in m
    ensures Count(m, m[k]) > 0
  {
    CountRemove(m, k, m[k]);
  }

  // ----------------------------------------------------------------- one encoder

  type Held = map<nat, RenameEntry>

  ghost function Indices(renamed: Held): map<nat, nat> {
    map i | i in renamed :: renamed[i].index
  }

  /** What is in the array has not been freed. */
  ghost predicate Owned(slots: Slots, objects: Objects, renamed: Held) {
    forall i :: i in renamed ==>
      IsRename(slots, renamed[i].index) && renamed[i].index in objects && objects[renamed[i].index] == renamed[i]
  }

  /** Uses are those in the array, and those of others. */
  ghost predicate Balanced(slots: Slots, others: nat -> nat, renamed: Held) {
    forall j: nat :: Uses(slots, j) == others(j) + Count(Indices(renamed), j)
  }

  lemma Gain(r: Reg, names: nat -> string, i: nat, rename: string -> Option<string>, others: nat -> nat,
             objects: Objects, renamed: Held, objects': Objects, result: RenameEntry)
    requires Good(r) && 0 < i < r.next && Owned(r.slots, objects, renamed) && Balanced(r.slots, others, renamed) && i !in renamed
    requires forall j :: j in objects ==> j in objects' && objects'[j] == objects[j]
    requires NewRename(r, names, i, rename).1 == Some(result.index)
    requires result.index in objects' && objects'[result.index] == result
    ensures var slots := NewRename(r, names, i, rename).0.slots;
            Owned(slots, objects', renamed[i := result]) && Balanced(slots, others, renamed[i := result])
  {
    hide Count, Good, NewRename;
    NewRenameGives(r, names, i, rename);
    assert Indices(renamed[i := result]) == Indices(renamed)[i := result.index];
    var slots := NewRename(r, names, i, rename).0.slots;
    forall j: nat ensures Uses(slots, j) == others(j) + Count(Indices(renamed[i := result]), j) {
      CountAdd(Indices(renamed), i, result.index, j);
    }
  }

  lemma NoGain(r: Reg, names: nat -> string, i: nat, rename: string -> Option<string>, others: nat -> nat,
               objects: Objects, renamed: Held, objects': Objects)
    requires Good(r) && 0 < i < r.next && Owned(r.slots, objects, renamed) && Balanced(r.slots, others, renamed)
    requires forall j :: j in objects ==> j in objects' && objects'[j] == objects[j]
    requires NewRename(r, names, i, rename).1.None?
    ensures var slots := NewRename(r, names, i, rename).0.slots;
            Owned(slots, objects', renamed) && Balanced(slots, others, renamed)
  {
    hide Count, Good, NewRename;
    NewRenameGives(r, names, i, rename);
  }

  lemma Loss(r: Reg, i: nat, others: nat -> nat, objects: Objects, renamed: Held, objects': Objects)
    requires Good(r) && Owned(r.slots, objects, renamed) && Balanced(r.slots, others, renamed) && i in renamed
    requires var slots := FreeRename(r, renamed[i].index).slots;
             forall j :: IsRename(slots, j) ==> j in objects && j in objects' && objects'[j] == objects[j]
    ensures var slots := FreeRename(r, renamed[i].index).slots;
            Owned(slots, objects', renamed - {i}) && Balanced(slots, others, renamed - {i})
  {
    hide Count, Good, FreeRename;
    var (held, j) := (Indices(renamed), renamed[i].index);
    FreeRenameGives(r, j);
    assert Indices(renamed - {i}) == held - {i};
    var slots := FreeRename(r, j).slots;
    forall k: nat ensures Uses(slots, k) == others(k) + Count(Indices(renamed - {i}), k) { CountRemove(held, i, k); }
    forall k | k in renamed && k != i ensures IsRename(slots, renamed[k].index) {
      CountPositive(held - {i}, k);
      assert Uses(slots, renamed[k].index) > 0;
    }
  }

  lemma OneLess(m: Held, i: nat)
    requires i in m
    ensures |m - {i}| < |m|
  {
    assert m.Keys == (m - {i}).Keys + {i};
  }

  lemma NothingHeld(slots: Slots, others: nat -> nat)
    requires Balanced(slots, others, map[])
    ensures forall j: nat :: Uses(slots, j) == others(j)
  {
    assert Indices(map[]) == map[];
    forall j: nat ensures Uses(slots, j) == others(j) { CountNone<nat>(j); }
  }

  class RenamingEncoder {
    const registry: Registry
    const rename: string -> Option<string>
    /** The `renamed` signature array, NULL entries absent. */
    var renamed: Held

    constructor (registry: Registry, rename: string -> Option<string>)
      ensures this.registry == registry && this.rename == rename && renamed == map[]
    {
      this.registry, this.rename, renamed := registry, rename, map[];
    }

    /** The uses that are not this encoder's own are those of others. */
    ghost predicate Shares(others: nat -> nat)
      reads this, registry, registry.registry.Values, registry.renames.Values
    {
      && registry.Valid() && Owned(registry.slots, registry.renames, renamed)
      && Balanced(registry.slots, others, renamed)
    }

    lemma ValidGood()
      requires registry.Valid()
      ensures Good(registry.Value())
    {}

    /** set_renamed without interference. A second call finds the first rename and
      * counts no further use. `name` is the name that the signature carries.
      */
    method SetRenamed(ghost names: nat -> string, i: nat, name: string, ghost others: nat -> nat) returns (result: RenameEntry?)
      requires Shares(others) && 0 < i < registry.next && name == NameOf(names, registry.slots, i)
      modifies this`renamed, registry, registry.All()
      ensures Shares(others) && fresh(registry.All() - old(registry.All()))
      ensures i in old(renamed) ==> renamed == old(renamed) && result == renamed[i]
      ensures result != null ==> renamed == old(renamed)[i := result]
      ensures result == null ==> renamed == old(renamed)
    {
      hide Balanced, Owned, Good, NewRename, Registry.Valid;
      if i in renamed { return renamed[i]; }
      ValidGood();
      ghost var (reg, objects) := (registry.Value(), registry.renames);
      result := registry.RenameNew(names, i, name, rename);
      if result == null {
        NoGain(reg, names, i, rename, others, objects, renamed, registry.renames);
      } else {
        Gain(reg, names, i, rename, others, objects, renamed, registry.renames, result);
        renamed := renamed[i := result];
      }
    }

    lemma OwnedOne(i: nat)
      requires Owned(registry.slots, registry.renames, renamed) && i in renamed
      ensures IsRename(registry.slots, renamed[i].index) && renamed[i].index in registry.renames
      ensures registry.renames[renamed[i].index] == renamed[i]
    {}

    /** do_free: gives back every use, and only its own. */
    method Free(ghost others: nat -> nat)
      requires Shares(others)
      modifies this`renamed, registry, registry.All()
      ensures renamed == map[] && registry.Valid() && forall j: nat :: Uses(registry.slots, j) == others(j)
    {
      hide Balanced, Owned, Registry.Valid;
      while renamed != map[]
        invariant Shares(others) && registry.All() <= old(registry.All())
        decreases |renamed|
      {
        assert renamed.Keys != {};
        var i :| i in renamed;
        FreeOne(i, others);
      }
      NothingHeld(registry.slots, others);
    }

    method FreeOne(i: nat, ghost others: nat -> nat)
      requires Shares(others) && i in renamed
      modifies this`renamed, registry, registry.All()
      ensures Shares(others) && renamed == old(renamed) - {i} && |renamed| < |old(renamed)|
      ensures registry.All() <= old(registry.All())
    {
      hide Balanced, Owned, Good, FreeRename, Registry.Valid;
      OwnedOne(i);
      ValidGood();
      OneLess(renamed, i);
      ghost var (reg, objects) := (registry.Value(), registry.renames);
      var e := renamed[i];
      renamed := renamed - {i};
      registry.RenameFree(e);
      Loss(reg, i, others, objects, old(renamed), registry.renames);
    }
  }

  // ------------------------------------------------------------------ interleavings

  /** Who holds a use: a slot of an encoder's table, or a thread in set_renamed
    * that has its rename but not yet the writer lock.
    */
  datatype Owner = Table(e: nat, i: nat) | Thread(t: nat, e: nat, i: nat)

  datatype World = World(reg: Reg, owners: map<Owner, nat>)

  datatype Step =
    | Prepare(t: nat, e: nat, i: nat, rename: string -> Option<string>)  // rename_new
    | Commit(t: nat, e: nat, i: nat)                                      // under the writer lock
    | Release(e: nat, i: nat)                                             // one turn of do_free
    | Declare                                                             // a signature gets its index

  ghost predicate Enabled(w: World, step: Step) {
    match step
    case Prepare(t, e, i, _) => 0 < i < w.reg.next && Thread(t, e, i) !in w.owners
    case Commit(t, e, i) => Thread(t, e, i) in w.owners
    case Release(e, i) => Table(e, i) in w.owners
    case Declare => true
  }

  ghost predicate Inv(w: World) {
    Good(w.reg) && forall j: nat :: Uses(w.reg.slots, j) == Count(w.owners, j)
  }

  ghost function Apply(w: World, names: nat -> string, step: Step): World
    requires Inv(w) && Enabled(w, step)
  {
    match step
    case Prepare(t, e, i, rename) =>
      var (reg, j) := NewRename(w.reg, names, i, rename);
      World(reg, if j.Some? then w.owners[Thread(t, e, i) := j.value] else w.owners)
    case Commit(t, e, i) =>
      var o := Thread(t, e, i);
      Alive(w, o);
      // another thread may have filled the slot in the meantime
      if Table(e, i) in w.owners then World(FreeRename(w.reg, w.owners[o]), w.owners - {o})
      else World(w.reg, (w.owners - {o})[Table(e, i) := w.owners[o]])
    case Release(e, i) =>
      Alive(w, Table(e, i));
      World(FreeRename(w.reg, w.owners[Table(e, i)]), w.owners - {Table(e, i)})
    case Declare => w.(reg := w.reg.(next := w.reg.next + 1))
  }

  /** What somebody holds has not been freed. */
  lemma Alive(w: World, o: Owner)
    requires Inv(w) && o in w.owners
    ensures IsRename(w.reg.slots, w.owners[o]) && IsBase(w.reg.slots, w.reg.slots[w.owners[o]].base)
  {
    hide Count;
    CountPositive(w.owners, o);
    assert Uses(w.reg.slots, w.owners[o]) > 0;
    RenameIsOk(w.reg.slots, w.owners[o]);
  }

  lemma StepKeepsInv(w: World, names: nat -> string, step: Step)
    requires Inv(w) && Enabled(w, step)
    ensures Inv(Apply(w, names, step))
  {
    hide Good, NewRename, FreeRename, Count;
    var w' := Apply(w, names, step);
    match step
    case Prepare(t, e, i, rename) =>
      NewRenameKeeps(w.reg, names, i, rename);
      NewRenameGives(w.reg, names, i, rename);
      var j := NewRename(w.reg, names, i, rename).1;
      forall k: nat ensures Uses(w'.reg.slots, k) == Count(w'.owners, k) {
        if j.Some? { CountAdd(w.owners, Thread(t, e, i), j.value, k); }
      }
    case Commit(t, e, i) =>
      var o := Thread(t, e, i);
      Alive(w, o);
      if Table(e, i) in w.owners { FreeRenameGives(w.reg, w.owners[o]); }
      forall k: nat ensures Uses(w'.reg.slots, k) == Count(w'.owners, k) {
        CountRemove(w.owners, o, k);
        if Table(e, i) !in w.owners { CountAdd(w.owners - {o}, Table(e, i), w.owners[o], k); }
      }
    case Release(e, i) =>
      Alive(w, Table(e, i));
      FreeRenameGives(w.reg, w.owners[Table(e, i)]);
      forall k: nat ensures Uses(w'.reg.slots, k) == Count(w'.owners, k) { CountRemove(w.owners, Table(e, i), k); }
    case Declare => LaterIndex(w.reg);
  }

  lemma LaterIndex(r: Reg)
    requires Good(r)
    ensures Good(r.(next := r.next + 1))
  {
    hide SlotsOk;
  }

  /** A run, and whether it ever asks for a rename that fails on an unknown
    * signature.
    */
  ghost predicate Feasible(w: World, names: nat -> string, steps: seq<Step>)
    requires Inv(w)
    decreases |steps|
  {
    steps == [] || (Enabled(w, steps[0]) && (StepKeepsInv(w, names, steps[0]); Feasible(Apply(w, names, steps[0]), names, steps[1..])))
  }

  ghost function Run(w: World, names: nat -> string, steps: seq<Step>): (w': World)
    requires Inv(w) && Feasible(w, names, steps)
    ensures Inv(w')
    decreases |steps|
  {
    if steps == [] then w
    else
      StepKeepsInv(w, names, steps[0]);
      Run(Apply(w, names, steps[0]), names, steps[1..])
  }

  ghost predicate FailsOnUnknown(w: World, names: nat -> string, step: Step) {
    step.Prepare? && step.i !in w.reg.slots && step.rename(NameOf(names, w.reg.slots, step.i)).None?
  }

  ghost predicate NeverFails(w: World, names: nat -> string, steps: seq<Step>)
    requires Inv(w) && Feasible(w, names, steps)
    decreases |steps|
  {
    steps == [] ||
    (!FailsOnUnknown(w, names, steps[0]) &&
     (StepKeepsInv(w, names, steps[0]); NeverFails(Apply(w, names, steps[0]), names, steps[1..])))
  }

  lemma StepLeftover(w: World, names: nat -> string, step: Step)
    requires Inv(w) && Enabled(w, step) && NoLeftover(w.reg.slots)
    ensures NoLeftover(Apply(w, names, step).reg.slots) <==> !FailsOnUnknown(w, names, step)
  {
    hide Good, NewRename, FreeRename, Count, NoLeftover;
    match step
    case Prepare(t, e, i, rename) => LeftoverIff(w.reg, names, i, rename);
    case Commit(t, e, i) =>
      Alive(w, Thread(t, e, i));
      FreeLeavesNothing(w.reg, w.owners[Thread(t, e, i)]);
    case Release(e, i) =>
      Alive(w, Table(e, i));
      FreeLeavesNothing(w.reg, w.owners[Table(e, i)]);
    case Declare =>
  }

  lemma {:induction false} RunLeftover(w: World, names: nat -> string, steps: seq<Step>)
    requires Inv(w) && NoLeftover(w.reg.slots) && Feasible(w, names, steps) && NeverFails(w, names, steps)
    ensures NoLeftover(Run(w, names, steps).reg.slots)
    decreases |steps|
  {
    hide Inv, Apply, Enabled, NoLeftover, FailsOnUnknown;
    if steps != [] {
      StepKeepsInv(w, names, steps[0]);
      StepLeftover(w, names, steps[0]);
      RunLeftover(Apply(w, names, steps[0]), names, steps[1..]);
    }
  }

  ghost function Start(first: nat): World {
    World(Reg(map[], first), map[])
  }

  lemma StartInv(first: nat)
    ensures Inv(Start(first)) && NoLeftover(Start(first).reg.slots)
  {
    forall j: nat ensures Count(Start(first).owners, j) == 0 { CountNone<Owner>(j); }
  }

  /** The registry theorem, for every interleaving. Use counts equal the uses that
    * tables and threads hold; everything held is alive, and so is its base; and
    * when nothing is held any more only bases without renames are left, none at
    * all if no rename function failed on an unknown signature.
    */
  lemma EveryRun(first: nat, names: nat -> string, steps: seq<Step>)
    ensures Inv(Start(first))
    ensures Feasible(Start(first), names, steps) ==>
              var w := Run(Start(first), names, steps);
              && (forall j: nat :: Uses(w.reg.slots, j) == Count(w.owners, j))
              && (forall o :: o in w.owners ==>
                    IsRename(w.reg.slots, w.owners[o]) && IsBase(w.reg.slots, w.reg.slots[w.owners[o]].base))
              && (w.owners == map[] ==>
                    && (forall i :: i in w.reg.slots ==> w.reg.slots[i] == Base([]))
                    && (NeverFails(Start(first), names, steps) ==> w.reg.slots == map[]))
  {
    StartInv(first);
    hide Good, Count, Run, Feasible, NeverFails, Start, NoLeftover;
    if Feasible(Start(first), names, steps) {
      var w := Run(Start(first), names, steps);
      forall o | o in w.owners
        ensures IsRename(w.reg.slots, w.owners[o]) && IsBase(w.reg.slots, w.reg.slots[w.owners[o]].base)
      {
        Alive(w, o);
      }
      if w.owners == map[] {
        forall j: nat ensures Uses(w.reg.slots, j) == 0 { CountNone<Owner>(j); }
        ReleasedIsEmpty(w.reg);
        if NeverFails(Start(first), names, steps) { RunLeftover(Start(first), names, steps); }
      }
    }
  }
}
