/** The renaming registry in place (lib/c/2014/labcomm2014_renaming_registry.c): the
  * renames of a base signature are a linked list, and entries point to their base.
  */
module RenamingLists {
  import opened Options
  import opened Renaming

  /** struct registry. */
  class RegistryEntry {
    const index: nat
    const base: RegistryEntry?
    var rename: RenameEntry?

    constructor (index: nat, base: RegistryEntry?)
      ensures this.index == index && this.base == base && rename == null
    {
      this.index, this.base, rename := index, base, null;
    }
  }

  /** struct labcomm2014_renaming_rename. */
  class RenameEntry {
    const index: nat
    const name: string
    const base: RegistryEntry
    var uses: nat
    var next: RenameEntry?

    constructor (index: nat, name: string, base: RegistryEntry)
      ensures this.index == index && this.name == name && this.base == base && uses == 0 && next == null
    {
      this.index, this.name, this.base := index, name, base;
      uses, next := 0, null;
    }
  }

  type Entries = map<nat, RegistryEntry>
  type Objects = map<nat, RenameEntry>
  type Pointers = map<nat, RenameEntry?>

  // ----------------------------------------------------------------- what is linked how

  /** The k-th element of a list, or its end. */
  ghost function Node(renames: Objects, rs: seq<nat>, k: nat): RenameEntry? {
    if k < |rs| && rs[k] in renames then renames[rs[k]] else null
  }

  ghost predicate RenameIs(slots: Slots, registry: Entries, renames: Objects, uses: map<nat, nat>, j: nat)
    requires IsRename(slots, j)
  {
    && j in renames && j in registry && j in uses && slots[j].base in registry
    && renames[j].index == j && renames[j].name == slots[j].name && uses[j] == slots[j].uses
    && renames[j].base == registry[slots[j].base] && registry[j].base == registry[slots[j].base]
  }

  ghost predicate BaseIs(slots: Slots, registry: Entries, renames: Objects, heads: Pointers, nexts: Pointers, b: nat)
    requires IsBase(slots, b)
  {
    && b in registry && b in heads && registry[b].base == null && heads[b] == Node(renames, slots[b].renames, 0)
    && ListIs(renames, nexts, slots[b].renames)
  }

  ghost predicate HasNext(renames: Objects, nexts: Pointers, rs: seq<nat>, k: nat)
    requires k < |rs|
  {
    rs[k] in nexts && nexts[rs[k]] == Node(renames, rs, k + 1)
  }

  ghost predicate ListIs(renames: Objects, nexts: Pointers, rs: seq<nat>) {
    forall k :: 0 <= k < |rs| ==> rs[k] in renames && HasNext(renames, nexts, rs, k)
  }

  ghost predicate Distinct(rs: seq<nat>) {
    forall k, l :: 0 <= k < l < |rs| ==> rs[k] != rs[l]
  }

  /** A list is not concerned by changes elsewhere. */
  lemma ListElsewhere(renames: Objects, nexts: Pointers, rs: seq<nat>, renames': Objects, nexts': Pointers)
    requires ListIs(renames, nexts, rs)
    requires forall k :: 0 <= k < |rs| ==> rs[k] in renames' && rs[k] in nexts' && renames'[rs[k]] == renames[rs[k]]
    requires forall k :: 0 <= k < |rs| && rs[k] in nexts ==> nexts'[rs[k]] == nexts[rs[k]]
    ensures ListIs(renames', nexts', rs) && Node(renames', rs, 0) == Node(renames, rs, 0)
  {
    forall k | 0 <= k < |rs| ensures HasNext(renames', nexts', rs, k) { assert HasNext(renames, nexts, rs, k); }
  }

  lemma ListAppend(renames: Objects, nexts: Pointers, rs: seq<nat>, j: nat, entry: RenameEntry, nexts': Pointers)
    requires ListIs(renames, nexts, rs) && Distinct(rs) && j !in renames
    requires nexts' == (if rs == [] then nexts else nexts[rs[|rs| - 1] := entry])[j := null]
    ensures ListIs(renames[j := entry], nexts', rs + [j])
    ensures Node(renames[j := entry], rs + [j], 0) == if rs == [] then entry else Node(renames, rs, 0)
  {
    var (more, renames') := (rs + [j], renames[j := entry]);
    forall k | 0 <= k < |more| ensures HasNext(renames', nexts', more, k) {
      if k < |rs| { assert HasNext(renames, nexts, rs, k); }
    }
  }

  lemma ListUnlink(renames: Objects, nexts: Pointers, rs: seq<nat>, k: nat, nexts': Pointers)
    requires ListIs(renames, nexts, rs) && Distinct(rs) && k < |rs| && rs[k] in nexts
    requires nexts' == if k == 0 then nexts else nexts[rs[k - 1] := nexts[rs[k]]]
    ensures ListIs(renames - {rs[k]}, nexts', rs[..k] + rs[k + 1..])
    ensures k == 0 ==> nexts[rs[0]] == Node(renames - {rs[0]}, rs[1..], 0)
    ensures k > 0 ==> Node(renames - {rs[k]}, rs[..k] + rs[k + 1..], 0) == Node(renames, rs, 0)
  {
    var (left, renames') := (rs[..k] + rs[k + 1..], renames - {rs[k]});
    assert HasNext(renames, nexts, rs, k);
    forall i | 0 <= i < |left| ensures left[i] in renames' && HasNext(renames', nexts', left, i) {
      assert HasNext(renames, nexts, rs, if i < k then i else i + 1);
    }
  }

  /** The pointers stand for the slots: `heads` are those in base entries, `nexts` those
    * in renames.
    */
  ghost predicate Shape(slots: Slots, registry: Entries, renames: Objects, heads: Pointers, nexts: Pointers, uses: map<nat, nat>) {
    && KeysAre(slots, registry, renames) && RenamesAre(slots, registry, renames, uses)
    && BasesAre(slots, registry, renames, heads, nexts)
  }

  ghost predicate KeysAre(slots: Slots, registry: Entries, renames: Objects) {
    && registry.Keys == slots.Keys
    && (forall j :: j in renames ==> IsRename(slots, j))
    && (forall i :: i in registry ==> registry[i].index == i)
  }

  ghost predicate RenamesAre(slots: Slots, registry: Entries, renames: Objects, uses: map<nat, nat>) {
    forall j :: IsRename(slots, j) ==> RenameIs(slots, registry, renames, uses, j)
  }

  ghost predicate BasesAre(slots: Slots, registry: Entries, renames: Objects, heads: Pointers, nexts: Pointers) {
    forall b :: IsBase(slots, b) ==> BaseIs(slots, registry, renames, heads, nexts, b)
  }

  /** A rename is not concerned by changes elsewhere. */
  lemma RenameStays(slots: Slots, registry: Entries, renames: Objects, uses: map<nat, nat>, j: nat,
                    slots': Slots, registry': Entries, renames': Objects, uses': map<nat, nat>)
    requires IsRename(slots, j) && RenameIs(slots, registry, renames, uses, j) && j in slots' && slots'[j] == slots[j]
    requires j in registry' && registry'[j] == registry[j] && j in renames' && renames'[j] == renames[j]
    requires slots[j].base in registry' && registry'[slots[j].base] == registry[slots[j].base]
    requires j in uses' && uses'[j] == uses[j]
    ensures RenameIs(slots', registry', renames', uses', j)
  {}

  lemma RenameAt(slots: Slots, registry: Entries, renames: Objects, uses: map<nat, nat>, j: nat)
    requires SlotsOk(slots) && RenamesAre(slots, registry, renames, uses) && IsRename(slots, j)
    ensures RenameIs(slots, registry, renames, uses, j) && IsBase(slots, slots[j].base) && j in slots[slots[j].base].renames
    ensures j in registry && j in renames && j in uses && slots[j].base in registry
  {
    RenameIsOk(slots, j);
  }

  /** The elements of a list are the renames of its base, each once. */
  lemma Listed(slots: Slots, b: nat)
    requires SlotsOk(slots) && IsBase(slots, b)
    ensures var rs := slots[b].renames;
            && (forall k :: 0 <= k < |rs| ==> IsRename(slots, rs[k]) && slots[rs[k]].base == b)
            && Distinct(rs)
  {
    assert BaseOk(slots, b);
  }

  lemma ListOf(slots: Slots, registry: Entries, renames: Objects, heads: Pointers, nexts: Pointers, uses: map<nat, nat>, b: nat)
    requires SlotsOk(slots) && Shape(slots, registry, renames, heads, nexts, uses) && IsBase(slots, b)
    ensures Distinct(slots[b].renames) && BaseIs(slots, registry, renames, heads, nexts, b)
  {
    Listed(slots, b);
  }

  lemma NotThere(slots: Slots, registry: Entries, renames: Objects, heads: Pointers, nexts: Pointers, uses: map<nat, nat>, j: nat)
    requires Shape(slots, registry, renames, heads, nexts, uses) && j !in slots
    ensures j !in renames && j !in registry
  {}

  lemma EntryShape(slots: Slots, registry: Entries, renames: Objects, heads: Pointers, nexts: Pointers, uses: map<nat, nat>,
                   i: nat, place: RegistryEntry)
    requires SlotsOk(slots) && Shape(slots, registry, renames, heads, nexts, uses)
    requires i !in slots && place.index == i && place.base == null
    ensures Shape(slots[i := Base([])], registry[i := place], renames, heads[i := null], nexts, uses)
  {
    var slots' := slots[i := Base([])];
    forall j | IsRename(slots', j) ensures RenameIs(slots', registry[i := place], renames, uses, j) {
      assert RenameIs(slots, registry, renames, uses, j) && RenameOk(slots, j);
    }
    forall b | IsBase(slots', b) ensures BaseIs(slots', registry[i := place], renames, heads[i := null], nexts, b) {
      assert b != i ==> IsBase(slots, b);
    }
  }

  lemma UseShape(slots: Slots, registry: Entries, renames: Objects, heads: Pointers, nexts: Pointers, uses: map<nat, nat>,
                 j: nat, n: nat)
    requires Shape(slots, registry, renames, heads, nexts, uses) && IsRename(slots, j)
    ensures Shape(slots[j := slots[j].(uses := n)], registry, renames, heads, nexts, uses[j := n])
  {
    var slots' := slots[j := slots[j].(uses := n)];
    forall k | IsRename(slots', k) ensures RenameIs(slots', registry, renames, uses[j := n], k) {
      assert RenameIs(slots, registry, renames, uses, k);
    }
    forall b | IsBase(slots', b) ensures BaseIs(slots', registry, renames, heads, nexts, b) {
      assert BaseIs(slots, registry, renames, heads, nexts, b);
    }
  }

  // --------------------------------------------------------------------- appending

  function AtEnd(rs: seq<nat>, heads: Pointers, nexts: Pointers, b: nat, e: RenameEntry?): (Pointers, Pointers) {
    if rs == [] then (heads[b := e], nexts) else (heads, nexts[rs[|rs| - 1] := e])
  }

  lemma AppendShape(slots: Slots, registry: Entries, renames: Objects, heads: Pointers, nexts: Pointers, uses: map<nat, nat>,
                    b: nat, j: nat, name: string, entry: RenameEntry, place: RegistryEntry)
    requires SlotsOk(slots) && Shape(slots, registry, renames, heads, nexts, uses) && IsBase(slots, b) && j !in slots
    requires place.index == j && place.base == registry[b]
    requires entry.index == j && entry.name == name && entry.base == registry[b]
    ensures var (heads', nexts') := AtEnd(slots[b].renames, heads, nexts, b, entry);
            Shape(AddRename(slots, b, j, name), registry[j := place], renames[j := entry], heads'[j := null],
                  nexts'[j := null], uses[j := 1])
  {
    var slots' := AddRename(slots, b, j, name);
    var (heads', nexts') := AtEnd(slots[b].renames, heads, nexts, b, entry);
    NotThere(slots, registry, renames, heads, nexts, uses, j);
    BaseThere(slots, registry, renames, heads, nexts, uses, b);
    AppendKeysAre(slots, registry, renames, b, j, name, entry, place);
    AppendRenamesAre(slots, registry, renames, uses, b, j, name, entry, place);
    hide SlotsOk, KeysAre, RenamesAre, BaseIs, RenameIs, AtEnd;
    forall c | IsBase(slots', c)
      ensures BaseIs(slots', registry[j := place], renames[j := entry], heads'[j := null], nexts'[j := null], c)
    {
      AppendBase(slots, registry, renames, heads, nexts, uses, b, j, name, entry, place, c);
    }
  }

  lemma BaseThere(slots: Slots, registry: Entries, renames: Objects, heads: Pointers, nexts: Pointers, uses: map<nat, nat>, b: nat)
    requires Shape(slots, registry, renames, heads, nexts, uses) && IsBase(slots, b)
    ensures b in registry
  {}

  lemma AppendKeysAre(slots: Slots, registry: Entries, renames: Objects, b: nat, j: nat, name: string, entry: RenameEntry,
                      place: RegistryEntry)
    requires KeysAre(slots, registry, renames) && IsBase(slots, b) && j !in slots && place.index == j
    ensures KeysAre(AddRename(slots, b, j, name), registry[j := place], renames[j := entry])
  {}

  lemma AppendRenamesAre(slots: Slots, registry: Entries, renames: Objects, uses: map<nat, nat>, b: nat, j: nat, name: string,
                         entry: RenameEntry, place: RegistryEntry)
    requires SlotsOk(slots) && RenamesAre(slots, registry, renames, uses) && IsBase(slots, b) && j !in slots && b in registry
    requires j !in registry && place.base == registry[b] && entry.index == j && entry.name == name && entry.base == registry[b]
    ensures RenamesAre(AddRename(slots, b, j, name), registry[j := place], renames[j := entry], uses[j := 1])
  {
    hide SlotsOk;
    var (slots', registry', renames', uses') := (AddRename(slots, b, j, name), registry[j := place], renames[j := entry], uses[j := 1]);
    forall i | IsRename(slots', i) ensures RenameIs(slots', registry', renames', uses', i) {
      if i != j {
        RenameAt(slots, registry, renames, uses, i);
        RenameStays(slots, registry, renames, uses, i, slots', registry', renames', uses');
      }
    }
  }

  lemma AppendBase(slots: Slots, registry: Entries, renames: Objects, heads: Pointers, nexts: Pointers, uses: map<nat, nat>,
                   b: nat, j: nat, name: string, entry: RenameEntry, place: RegistryEntry, c: nat)
    requires SlotsOk(slots) && Shape(slots, registry, renames, heads, nexts, uses) && IsBase(slots, b) && j !in slots
    requires IsBase(slots, c)
    ensures var (heads', nexts') := AtEnd(slots[b].renames, heads, nexts, b, entry);
            BaseIs(AddRename(slots, b, j, name), registry[j := place], renames[j := entry], heads'[j := null], nexts'[j := null], c)
  {
    ListOf(slots, registry, renames, heads, nexts, uses, c);
    NotThere(slots, registry, renames, heads, nexts, uses, j);
    hide SlotsOk, Shape, ListIs, Distinct, Node;
    var rs := slots[c].renames;
    var (heads', nexts') := AtEnd(slots[b].renames, heads, nexts, b, entry);
    if c == b {
      ListAppend(renames, nexts, rs, j, entry, nexts'[j := null]);
    } else {
      OtherList(slots, b, c);
      InList(renames, nexts, rs);
      ListElsewhere(renames, nexts, rs, renames[j := entry], nexts'[j := null]);
    }
  }

  lemma InList(renames: Objects, nexts: Pointers, rs: seq<nat>)
    requires ListIs(renames, nexts, rs)
    ensures forall k :: 0 <= k < |rs| ==> rs[k] in renames && rs[k] in nexts
  {
    forall k | 0 <= k < |rs| ensures rs[k] in nexts { assert HasNext(renames, nexts, rs, k); }
  }

  /** The lists of two bases have no element in common. */
  lemma OtherList(slots: Slots, b: nat, c: nat)
    requires SlotsOk(slots) && IsBase(slots, b) && IsBase(slots, c) && b != c
    ensures forall k :: 0 <= k < |slots[c].renames| ==> slots[c].renames[k] !in slots[b].renames
  {
    Listed(slots, b);
    Listed(slots, c);
  }

  // --------------------------------------------------------------------- unlinking

  lemma {:induction false} WithoutAt(rs: seq<nat>, k: nat)
    requires k < |rs| && Distinct(rs)
    ensures Without(rs, rs[k]) == rs[..k] + rs[k + 1..]
  {
    if k > 0 {
      WithoutAt(rs[1..], k - 1);
      assert rs[0] != rs[k];
      hide Distinct;
      assert rs[..k] == [rs[0]] + rs[1..][..k - 1];
      assert rs[1..][k..] == rs[k + 1..];
    }
  }

  /** The pointer that led to element k leads past it. */
  function Past(rs: seq<nat>, k: nat, heads: Pointers, nexts: Pointers, b: nat): (Pointers, Pointers)
    requires k < |rs| && rs[k] in nexts
  {
    if k == 0 then (heads[b := nexts[rs[k]]], nexts) else (heads, nexts[rs[k - 1] := nexts[rs[k]]])
  }

  ghost predicate Keeps(old': Pointers, new': Pointers, keys: set<nat>) {
    forall i :: i in keys && i in old' ==> i in new' && new'[i] == old'[i]
  }

  lemma UnlinkBase(slots: Slots, registry: Entries, renames: Objects, heads: Pointers, nexts: Pointers, uses: map<nat, nat>,
                   j: nat, k: nat, c: nat, registry': Entries)
    requires SlotsOk(slots) && Shape(slots, registry, renames, heads, nexts, uses)
    requires IsRename(slots, j) && IsBase(slots, slots[j].base) && k < |slots[slots[j].base].renames|
    requires slots[slots[j].base].renames[k] == j && j in nexts
    requires IsBase(DropRename(slots, j), c) && c in registry' && registry'[c] == registry[c]
    ensures var (heads', nexts') := Past(slots[slots[j].base].renames, k, heads, nexts, slots[j].base);
            BaseIs(DropRename(slots, j), registry', renames - {j}, heads', nexts', c)
  {
    hide SlotsOk, Shape, Without, ListIs, Distinct;
    var b := slots[j].base;
    ListOf(slots, registry, renames, heads, nexts, uses, b);
    ListOf(slots, registry, renames, heads, nexts, uses, c);
    WithoutAt(slots[b].renames, k);
    var (all, rs) := (slots[b].renames, slots[c].renames);
    var (heads', nexts') := Past(all, k, heads, nexts, b);
    if c == b {
      ListUnlink(renames, nexts, rs, k, nexts');
    } else {
      OtherList(slots, b, c);
      InList(renames, nexts, rs);
      assert k > 0 ==> all[k - 1] in all;
      ListElsewhere(renames, nexts, rs, renames - {j}, nexts');
    }
  }

  lemma UnlinkShape(slots: Slots, registry: Entries, renames: Objects, heads: Pointers, nexts: Pointers, uses: map<nat, nat>,
                    j: nat, k: nat, registry': Entries)
    requires SlotsOk(slots) && Shape(slots, registry, renames, heads, nexts, uses)
    requires IsRename(slots, j) && IsBase(slots, slots[j].base) && k < |slots[slots[j].base].renames|
    requires slots[slots[j].base].renames[k] == j && j in nexts
    requires registry'.Keys == DropRename(slots, j).Keys && forall i :: i in registry' ==> i in registry && registry'[i] == registry[i]
    ensures var (heads', nexts') := Past(slots[slots[j].base].renames, k, heads, nexts, slots[j].base);
            Shape(DropRename(slots, j), registry', renames - {j}, heads', nexts', uses)
  {
    var slots' := DropRename(slots, j);
    UnlinkKeysAre(slots, registry, renames, j, registry');
    UnlinkRenamesAre(slots, registry, renames, uses, j, registry');
    hide SlotsOk, KeysAre, RenamesAre, BaseIs, RenameIs, Past, Without, DropRename;
    var (heads', nexts') := Past(slots[slots[j].base].renames, k, heads, nexts, slots[j].base);
    forall c | IsBase(slots', c) ensures BaseIs(slots', registry', renames - {j}, heads', nexts', c) {
      UnlinkBase(slots, registry, renames, heads, nexts, uses, j, k, c, registry');
    }
  }

  lemma UnlinkKeysAre(slots: Slots, registry: Entries, renames: Objects, j: nat, registry': Entries)
    requires KeysAre(slots, registry, renames) && IsRename(slots, j) && IsBase(slots, slots[j].base)
    requires registry'.Keys == DropRename(slots, j).Keys && forall i :: i in registry' ==> i in registry && registry'[i] == registry[i]
    ensures KeysAre(DropRename(slots, j), registry', renames - {j})
  {
    hide Without;
  }

  lemma UnlinkRenamesAre(slots: Slots, registry: Entries, renames: Objects, uses: map<nat, nat>, j: nat, registry': Entries)
    requires SlotsOk(slots) && RenamesAre(slots, registry, renames, uses) && IsRename(slots, j) && IsBase(slots, slots[j].base)
    requires registry'.Keys == DropRename(slots, j).Keys && forall i :: i in registry' ==> i in registry && registry'[i] == registry[i]
    ensures RenamesAre(DropRename(slots, j), registry', renames - {j}, uses)
  {
    hide SlotsOk, Without, RenameIs;
    var slots' := DropRename(slots, j);
    forall i | IsRename(slots', i) ensures RenameIs(slots', registry', renames - {j}, uses, i) {
      RenameAt(slots, registry, renames, uses, i);
      StillListed(slots, j, i);
      RenameStays(slots, registry, renames, uses, i, slots', registry', renames - {j}, uses);
    }
  }

  /** A base that has another rename is not freed. */
  lemma StillListed(slots: Slots, j: nat, i: nat)
    requires SlotsOk(slots) && IsRename(slots, j) && IsBase(slots, slots[j].base) && IsRename(slots, i) && i != j
    ensures IsBase(DropRename(slots, j), slots[i].base)
  {
    assert RenameOk(slots, i);
    Listed(slots, slots[j].base);
    WithoutIs(slots[slots[j].base].renames, j);
  }

  /** Pointers of entries that are gone do not matter. */
  lemma FewerPointers(slots: Slots, registry: Entries, renames: Objects, heads: Pointers, nexts: Pointers, uses: map<nat, nat>,
                      heads': Pointers, nexts': Pointers, uses': map<nat, nat>)
    requires Shape(slots, registry, renames, heads, nexts, uses) && SlotsOk(slots)
    requires Keeps(heads, heads', registry.Keys) && Keeps(nexts, nexts', renames.Keys)
    requires forall i :: i in renames && i in uses ==> i in uses' && uses'[i] == uses[i]
    ensures Shape(slots, registry, renames, heads', nexts', uses')
  {
    forall j | IsRename(slots, j) ensures RenameIs(slots, registry, renames, uses', j) {
      assert RenameIs(slots, registry, renames, uses, j);
    }
    forall b | IsBase(slots, b) ensures BaseIs(slots, registry, renames, heads', nexts', b) {
      assert BaseIs(slots, registry, renames, heads, nexts, b);
      Listed(slots, b);
      InList(renames, nexts, slots[b].renames);
      ListElsewhere(renames, nexts, slots[b].renames, renames, nexts');
    }
  }

  // ------------------------------------------------------------------------ the object

  ghost predicate PointersAre(registry: Entries, renames: Objects, heads: Pointers, nexts: Pointers, uses: map<nat, nat>)
    reads registry.Values, renames.Values
  {
    && heads.Keys == registry.Keys && (forall i :: i in registry ==> heads[i] == registry[i].rename)
    && nexts.Keys == renames.Keys && (forall j :: j in renames ==> nexts[j] == renames[j].next)
    && uses.Keys == renames.Keys && (forall j :: j in renames ==> uses[j] == renames[j].uses)
  }

  /** Every object knows its index, so different indices are different objects. */
  ghost predicate Keyed(registry: Entries, renames: Objects) {
    (forall i :: i in registry ==> registry[i].index == i) && (forall i :: i in renames ==> renames[i].index == i)
  }

  /** struct labcomm2014_renaming_registry, with the index counter. `slots` is what the
    * pointers stand for, and `renames` the renames that have not been freed.
    */
  class Registry {
    var registry: Entries
    var next: nat
    ghost var slots: Slots
    ghost var renames: Objects

    ghost function Value(): Reg
      reads this
    {
      Reg(slots, next)
    }

    ghost function Heads(): Pointers
      reads this, registry.Values
    {
      map i | i in registry :: registry[i].rename
    }

    ghost function Nexts(): Pointers
      reads this, renames.Values
    {
      map j | j in renames :: renames[j].next
    }

    ghost function UseCounts(): map<nat, nat>
      reads this, renames.Values
    {
      map j | j in renames :: renames[j].uses
    }

    ghost predicate Linked()
      reads this, registry.Values, renames.Values
    {
      Shape(slots, registry, renames, Heads(), Nexts(), UseCounts())
    }

    ghost predicate Valid()
      reads this, registry.Values, renames.Values
    {
      Good(Value()) && Linked()
    }

    ghost function All(): set<object>
      reads this
    {
      var (a: set<object>, b: set<object>) := (registry.Values, renames.Values);
      a + b
    }

    /** `first` is LABCOMM_USER or what the counter has reached. */
    constructor (first: nat)
      ensures Valid() && Value() == Reg(map[], first) && renames == map[] && All() == {}
    {
      registry, next := map[], first;
      slots, renames := map[], map[];
    }

    /** registry_new(signature, NULL), and the base of what it gives. */
    method BaseOf(i: nat) returns (base: RegistryEntry)
      requires Valid() && 0 < i < next
      modifies this
      ensures Valid() && next == old(next) && renames == old(renames) && fresh(All() - old(All()))
      ensures slots == WithEntry(old(slots), i)
      ensures IsBase(slots, RootOf(slots, i)) && RootOf(slots, i) in registry && base == registry[RootOf(slots, i)]
    {
      EntryKeeps(slots, i);
      EntryOf(i);
      hide Shape, SlotsOk;
      if i !in registry {
        base := NewEntry(i);
      } else {
        base := registry[i];
        if base.base != null { base := base.base; }
      }
    }

    lemma EntryOf(i: nat)
      requires Valid()
      ensures i in registry <==> i in slots
      ensures i in registry ==>
                var r := registry[i];
                if IsRename(slots, i) then slots[i].base in registry && IsBase(slots, slots[i].base) && r.base == registry[slots[i].base]
                else r.base == null
    {
      if IsRename(slots, i) { assert RenameIs(slots, registry, renames, UseCounts(), i) && RenameOk(slots, i); }
      if IsBase(slots, i) { assert BaseIs(slots, registry, renames, Heads(), Nexts(), i); }
    }

    method NewEntry(i: nat) returns (base: RegistryEntry)
      requires Valid() && 0 < i < next && i !in slots
      modifies this
      ensures Valid() && next == old(next) && renames == old(renames) && fresh(All() - old(All()))
      ensures slots == old(slots)[i := Base([])] && i in registry && base == registry[i]
    {
      hide Good, Shape, Linked, SlotsOk;
      base := new RegistryEntry(i, null);
      ghost var heads, nexts, uses := PlanEntry(i, base);
      hide Valid;
      registry := registry[i := base];
      slots := slots[i := Base([])];
      LinkedFrom(heads[i := null], nexts, uses);
    }

    lemma PlanEntry(i: nat, base: RegistryEntry) returns (heads: Pointers, nexts: Pointers, uses: map<nat, nat>)
      requires Valid() && 0 < i < next && i !in slots && base.index == i && base.base == null
      ensures PointersAre(registry, renames, heads, nexts, uses) && i !in registry && Good(Reg(slots[i := Base([])], next))
      ensures Shape(slots[i := Base([])], registry[i := base], renames, heads[i := null], nexts, uses)
    {
      hide Shape, SlotsOk, PointersAre;
      heads, nexts, uses := TakePointers();
      GoodEntry(Value(), i);
      EntryShape(slots, registry, renames, heads, nexts, uses, i, base);
      NotThere(slots, registry, renames, heads, nexts, uses, i);
    }

    lemma TakePointers() returns (heads: Pointers, nexts: Pointers, uses: map<nat, nat>)
      requires Valid()
      ensures PointersAre(registry, renames, heads, nexts, uses) && Shape(slots, registry, renames, heads, nexts, uses)
    {
      heads, nexts, uses := Heads(), Nexts(), UseCounts();
    }

    lemma LinkedFrom(heads: Pointers, nexts: Pointers, uses: map<nat, nat>)
      requires Good(Value()) && Shape(slots, registry, renames, heads, nexts, uses) && PointersAre(registry, renames, heads, nexts, uses)
      ensures Valid()
    {
      hide Good, Shape;
      assert heads == Heads();
      assert nexts == Nexts();
      assert uses == UseCounts();
    }

    ghost predicate Reached(b: nat, k: nat, prev: RenameEntry?, cur: RenameEntry?)
      requires IsBase(slots, b)
      reads this
    {
      && k <= |slots[b].renames| && cur == Node(renames, slots[b].renames, k)
      && prev == (if k == 0 then null else Node(renames, slots[b].renames, k - 1))
      && (k < |slots[b].renames| ==> cur != null) && (k > 0 ==> prev != null)
    }

    /** Following the pointer to the next element. */
    lemma NextReached(b: nat, k: nat, prev: RenameEntry?, cur: RenameEntry?)
      requires Valid() && IsBase(slots, b) && Reached(b, k, prev, cur) && k < |slots[b].renames|
      ensures cur in renames.Values && Reached(b, k + 1, cur, cur.next)
      ensures var j := slots[b].renames[k]; IsRename(slots, j) && j in renames && cur == renames[j] && cur.name == slots[j].name
    {
      Listed(slots, b);
      var rs := slots[b].renames;
      assert BaseIs(slots, registry, renames, Heads(), Nexts(), b) && HasNext(renames, Nexts(), rs, k);
      assert RenameIs(slots, registry, renames, UseCounts(), rs[k]);
      if k + 1 < |rs| { assert RenameIs(slots, registry, renames, UseCounts(), rs[k + 1]); }
    }

    lemma FirstReached(b: nat)
      requires Valid() && IsBase(slots, b)
      ensures b in registry && Reached(b, 0, null, registry[b].rename)
    {
      Listed(slots, b);
      assert BaseIs(slots, registry, renames, Heads(), Nexts(), b);
      if slots[b].renames != [] { assert RenameIs(slots, registry, renames, UseCounts(), slots[b].renames[0]); }
    }

    /** The loop over the list: the element with the name or the end, and the pointer
      * that leads there, which is in the base or in another element.
      */
    method FindName(base: RegistryEntry, ghost b: nat, name: string) returns (prev: RenameEntry?, cur: RenameEntry?)
      requires Valid() && IsBase(slots, b) && b in registry && base == registry[b]
      ensures var found := Find(slots, slots[b].renames, name);
              if found.Some? then found.value in renames && cur == renames[found.value]
              else cur == null && Reached(b, |slots[b].renames|, prev, cur)
    {
      hide Valid, Good, Linked, Shape, SlotsOk, Find, Scanning, Reached, Node;
      ScanStart(b, name);
      prev, cur := null, base.rename;
      ghost var k := 0;
      while cur != null
        invariant Scanning(b, name, k, prev, cur)
        decreases |slots[b].renames| - k
      {
        ScanStep(b, name, k, prev, cur);
        if cur.name == name { return; }
        prev, cur := cur, cur.next;
        k := k + 1;
      }
      ScanEnd(b, name, k, prev);
    }

    /** No element before k has the name. */
    ghost predicate Scanning(b: nat, name: string, k: nat, prev: RenameEntry?, cur: RenameEntry?)
      requires IsBase(slots, b)
      reads this
    {
      Reached(b, k, prev, cur) && Find(slots, slots[b].renames[k..], name) == Find(slots, slots[b].renames, name)
    }

    lemma ScanStart(b: nat, name: string)
      requires Valid() && IsBase(slots, b)
      ensures b in registry && Scanning(b, name, 0, null, registry[b].rename)
    {
      hide Valid, Find;
      FirstReached(b);
      assert slots[b].renames[0..] == slots[b].renames;
    }

    lemma ScanStep(b: nat, name: string, k: nat, prev: RenameEntry?, cur: RenameEntry)
      requires Valid() && IsBase(slots, b) && Scanning(b, name, k, prev, cur)
      ensures k < |slots[b].renames| && cur in renames.Values
      ensures if cur.name == name then
                var found := Find(slots, slots[b].renames, name); found.Some? && found.value in renames && cur == renames[found.value]
              else Scanning(b, name, k + 1, cur, cur.next)
    {
      hide Valid, Find;
      NextReached(b, k, prev, cur);
      FindFrom(slots, slots[b].renames, k, name);
    }

    lemma ScanEnd(b: nat, name: string, k: nat, prev: RenameEntry?)
      requires IsBase(slots, b) && Scanning(b, name, k, prev, null)
      ensures Find(slots, slots[b].renames, name).None? && Reached(b, |slots[b].renames|, prev, null)
    {
      FindFrom(slots, slots[b].renames, k, name);
    }

    // ------------------------------------------------------------------ appending

    lemma PlanAppend(b: nat, name: string, prev: RenameEntry?, entry: RenameEntry, place: RegistryEntry)
      returns (heads: Pointers, nexts: Pointers, uses: map<nat, nat>)
      requires Valid() && IsBase(slots, b) && b in registry && Find(slots, slots[b].renames, name).None? && 0 < next
      requires Reached(b, |slots[b].renames|, prev, null)
      requires place.index == entry.index == next && place.base == entry.base == registry[b] && entry.name == name
      ensures PointersAre(registry, renames, heads, nexts, uses) && Keyed(registry, renames) && next !in registry && next !in renames
      ensures entry !in renames.Values && place !in registry.Values
      ensures var rs := slots[b].renames;
              if rs == [] then prev == null else rs[|rs| - 1] in renames && prev == renames[rs[|rs| - 1]]
      ensures Good(Reg(AddRename(slots, b, next, name), next + 1))
      ensures var (heads', nexts') := AtEnd(slots[b].renames, heads, nexts, b, entry);
              Shape(AddRename(slots, b, next, name), registry[next := place], renames[next := entry],
                    heads'[next := null], nexts'[next := null], uses[next := 1])
    {
      heads, nexts, uses := TakePointers();
      hide Shape, SlotsOk, PointersAre, Find;
      AppendKeeps(Value(), b, name);
      AppendShape(slots, registry, renames, heads, nexts, uses, b, next, name, entry, place);
      NotThere(slots, registry, renames, heads, nexts, uses, next);
      AllKeyed();
      LastReached(b, prev);
    }

    lemma LastReached(b: nat, prev: RenameEntry?)
      requires Valid() && IsBase(slots, b) && Reached(b, |slots[b].renames|, prev, null)
      ensures var rs := slots[b].renames;
              if rs == [] then prev == null else rs[|rs| - 1] in renames && prev == renames[rs[|rs| - 1]]
    {}

    lemma AllKeyed()
      requires Valid()
      ensures Keyed(registry, renames)
    {
      forall j | j in renames ensures renames[j].index == j { assert RenameIs(slots, registry, renames, UseCounts(), j); }
    }

    /** A new rename at the end of the list, with one use. */
    method Append(base: RegistryEntry, ghost b: nat, prev: RenameEntry?, name: string) returns (entry: RenameEntry)
      requires Valid() && IsBase(slots, b) && b in registry && base == registry[b] && 0 < next
      requires Find(slots, slots[b].renames, name).None? && Reached(b, |slots[b].renames|, prev, null)
      modifies this, All()
      ensures Valid() && fresh(All() - old(All()))
      ensures Value() == Reg(AddRename(old(slots), b, old(next), name), old(next) + 1)
      ensures entry.index == old(next) && renames == old(renames)[old(next) := entry]
    {
      hide Good, Shape, Linked, SlotsOk, Find, PointersAre, AtEnd, Keyed;
      ghost var rs := slots[b].renames;
      var j := next;
      entry := new RenameEntry(j, name, base);
      var place := new RegistryEntry(j, base);
      ghost var heads, nexts, uses := PlanAppend(b, name, prev, entry, place);
      hide Valid;
      Insert(base, b, prev, j, entry, place, heads, nexts, uses);
      next := next + 1;
      ghost var (heads', nexts') := AtEnd(rs, heads, nexts, b, entry);
      slots := AddRename(slots, b, j, name);
      LinkedFrom(heads'[j := null], nexts'[j := null], uses[j := 1]);
    }

    method Insert(base: RegistryEntry, ghost b: nat, prev: RenameEntry?, j: nat, entry: RenameEntry, place: RegistryEntry,
                  ghost heads: Pointers, ghost nexts: Pointers, ghost uses: map<nat, nat>)
      requires PointersAre(registry, renames, heads, nexts, uses) && Keyed(registry, renames)
      requires IsBase(slots, b) && b in registry && base == registry[b]
      requires var rs := slots[b].renames;
               if rs == [] then prev == null else rs[|rs| - 1] in renames && prev == renames[rs[|rs| - 1]]
      requires j !in registry && j !in renames && entry !in renames.Values
      requires entry.uses == 0 && entry.next == null && place.rename == null && place !in registry.Values
      modifies this`registry, this`renames, entry`uses, base, if prev == null then {} else {prev}
      ensures registry == old(registry)[j := place] && renames == old(renames)[j := entry]
      ensures var (heads', nexts') := AtEnd(slots[b].renames, heads, nexts, b, entry);
              PointersAre(registry, renames, heads'[j := null], nexts'[j := null], uses[j := 1])
    {
      hide Keyed, AtEnd, PointersAre;
      SetEnd(base, b, prev, entry, heads, nexts, uses);
      ghost var (heads', nexts') := AtEnd(slots[b].renames, heads, nexts, b, entry);
      Enter(j, entry, place, heads', nexts', uses);
    }

    /** The end of the list, in the base or in the last element. */
    method SetEnd(base: RegistryEntry, ghost b: nat, prev: RenameEntry?, entry: RenameEntry,
                  ghost heads: Pointers, ghost nexts: Pointers, ghost uses: map<nat, nat>)
      requires PointersAre(registry, renames, heads, nexts, uses) && Keyed(registry, renames) && IsBase(slots, b) && b in registry && base == registry[b]
      requires var rs := slots[b].renames;
               if rs == [] then prev == null else rs[|rs| - 1] in renames && prev == renames[rs[|rs| - 1]]
      modifies base, if prev == null then {} else {prev}
      ensures var (heads', nexts') := AtEnd(slots[b].renames, heads, nexts, b, entry); PointersAre(registry, renames, heads', nexts', uses)
    {
      if prev == null { base.rename := entry; } else { prev.next := entry; }
    }

    method Enter(j: nat, entry: RenameEntry, place: RegistryEntry, ghost heads: Pointers, ghost nexts: Pointers, ghost uses: map<nat, nat>)
      requires PointersAre(registry, renames, heads, nexts, uses) && j !in registry && j !in renames && entry !in renames.Values
      requires entry.uses == 0 && entry.next == null && place.rename == null
      modifies this`registry, this`renames, entry`uses
      ensures registry == old(registry)[j := place] && renames == old(renames)[j := entry]
      ensures PointersAre(registry, renames, heads[j := null], nexts[j := null], uses[j := 1])
    {
      entry.uses := entry.uses + 1;
      registry := registry[j := place];
      renames := renames[j := entry];
    }

    lemma PlanUse(j: nat, n: nat) returns (heads: Pointers, nexts: Pointers, uses: map<nat, nat>)
      requires Valid() && IsRename(slots, j) && SlotsOk(slots[j := slots[j].(uses := n)])
      ensures PointersAre(registry, renames, heads, nexts, uses) && Keyed(registry, renames) && j in renames && renames[j].uses == slots[j].uses
      ensures Good(Reg(slots[j := slots[j].(uses := n)], next))
      ensures Shape(slots[j := slots[j].(uses := n)], registry, renames, heads, nexts, uses[j := n])
    {
      heads, nexts, uses := TakePointers();
      UseShape(slots, registry, renames, heads, nexts, uses, j, n);
      assert RenameIs(slots, registry, renames, uses, j);
      hide *;
      AllKeyed();
      GoodUses(Value(), j, n);
    }

    /** use_count++ or --, as long as it does not get 0. */
    method Count(entry: RenameEntry, n: nat)
      requires Valid() && IsRename(slots, entry.index) && entry.index in renames && entry == renames[entry.index]
      requires SlotsOk(slots[entry.index := slots[entry.index].(uses := n)])
      modifies this`slots, All()
      ensures Valid() && next == old(next) && registry == old(registry) && renames == old(renames)
      ensures slots == old(slots)[entry.index := old(slots)[entry.index].(uses := n)]
    {
      hide Good, Shape, Linked, SlotsOk;
      ghost var j := entry.index;
      ghost var heads, nexts, uses := PlanUse(j, n);
      hide Valid;
      entry.uses := n;
      slots := slots[j := slots[j].(uses := n)];
      LinkedFrom(heads, nexts, uses[j := n]);
    }

    /** labcomm2014_renaming_rename_new; `name` is the name that the signature carries. */
    method RenameNew(ghost names: nat -> string, i: nat, name: string, rename: string -> Option<string>)
      returns (result: RenameEntry?)
      requires Valid() && i < next && name == NameOf(names, slots, i)
      modifies this, All()
      ensures Valid() && fresh(All() - old(All()))
      ensures Value() == NewRename(old(Value()), names, i, rename).0
      ensures var found := NewRename(old(Value()), names, i, rename).1;
              if result == null then found.None? else found == Some(result.index) && result.index in renames && renames[result.index] == result
      ensures forall j :: j in old(renames) ==> j in renames && renames[j] == old(renames)[j]
    {
      hide Good, Linked, SlotsOk, Find, Reached;
      if i == 0 { return null; }
      var base := BaseOf(i);
      SameName(names, old(slots), i);
      var new_name := rename(name);
      if new_name.None? { return null; }
      result := Get(base, RootOf(slots, i), new_name.value);
    }

    /** The rename with a name, found or new. */
    method Get(base: RegistryEntry, ghost b: nat, name: string) returns (result: RenameEntry)
      requires Valid() && IsBase(slots, b) && b in registry && base == registry[b]
      modifies this, All()
      ensures Valid() && fresh(All() - old(All()))
      ensures var found := Find(old(slots), old(slots)[b].renames, name);
              && result.index in renames && renames[result.index] == result
              && (if found.Some? then
                    result.index == found.value && Value() == Reg(AddUse(old(slots), found.value), old(next))
                  else result.index == old(next) && Value() == Reg(AddRename(old(slots), b, old(next), name), old(next) + 1))
      ensures forall j :: j in old(renames) ==> j in renames && renames[j] == old(renames)[j]
    {
      hide Good, Shape, Linked, Valid, SlotsOk, Find, Reached, AddUse, AddRename;
      var prev, cur := FindName(base, b, name);
      NewIndex(b);
      if cur == null {
        result := Append(base, b, prev, name);
      } else {
        FoundRename(b, name);
        result := cur;
        Count(cur, cur.uses + 1);
      }
    }

    // ------------------------------------------------------------------- unlinking

    /** The loop for the pointer that leads to an element. */
    method FindEntry(entry: RenameEntry) returns (prev: RenameEntry?, ghost k: nat)
      requires Valid() && IsRename(slots, entry.index) && entry.index in renames && entry == renames[entry.index]
      ensures IsBase(slots, slots[entry.index].base) && k < |slots[slots[entry.index].base].renames|
      ensures slots[slots[entry.index].base].renames[k] == entry.index && Reached(slots[entry.index].base, k, prev, entry)
    {
      hide Valid, Good, Linked, Shape, SlotsOk, Reached, Node;
      ghost var b := slots[entry.index].base;
      EntryStart(entry);
      prev, k := null, 0;
      var cur := entry.base.rename;
      while cur != null && cur != entry
        invariant IsBase(slots, b) && k <= |slots[b].renames| && Reached(b, k, prev, cur)
        invariant entry.index in slots[b].renames[k..]
        decreases |slots[b].renames| - k
      {
        EntryStep(b, k, prev, cur, entry);
        prev, cur := cur, cur.next;
        k := k + 1;
      }
      EntryEnd(b, k, prev, cur, entry);
    }

    lemma EntryStart(entry: RenameEntry)
      requires Valid() && IsRename(slots, entry.index) && entry.index in renames && entry == renames[entry.index]
      ensures var b := slots[entry.index].base;
              && IsBase(slots, b) && b in registry && entry.base == registry[b] && Reached(b, 0, null, registry[b].rename)
              && entry.index in slots[b].renames[0..]
    {
      RenameIsOk(slots, entry.index);
      assert RenameIs(slots, registry, renames, UseCounts(), entry.index);
      var b := slots[entry.index].base;
      assert slots[b].renames[0..] == slots[b].renames;
      FirstReached(b);
    }

    lemma EntryStep(b: nat, k: nat, prev: RenameEntry?, cur: RenameEntry, entry: RenameEntry)
      requires Valid() && IsBase(slots, b) && k <= |slots[b].renames| && Reached(b, k, prev, cur) && cur != entry
      requires entry.index in slots[b].renames[k..] && entry.index in renames && entry == renames[entry.index]
      ensures k < |slots[b].renames| && cur in renames.Values && Reached(b, k + 1, cur, cur.next)
      ensures entry.index in slots[b].renames[k + 1..]
    {
      hide Valid;
      NextReached(b, k, prev, cur);
      assert slots[b].renames[k..] == [slots[b].renames[k]] + slots[b].renames[k + 1..];
    }

    lemma EntryEnd(b: nat, k: nat, prev: RenameEntry?, cur: RenameEntry?, entry: RenameEntry)
      requires Valid() && IsBase(slots, b) && k <= |slots[b].renames| && Reached(b, k, prev, cur) && (cur == null || cur == entry)
      requires entry.index in slots[b].renames[k..]
      ensures cur == entry && k < |slots[b].renames| && slots[b].renames[k] == entry.index
    {
      AllKeyed();
    }

    lemma PlanUnlink(j: nat, k: nat, prev: RenameEntry?) returns (heads: Pointers, nexts: Pointers, uses: map<nat, nat>)
      requires Valid() && IsRename(slots, j) && j in renames && slots[j].uses == 1
      requires IsBase(slots, slots[j].base) && k < |slots[slots[j].base].renames|
      requires slots[slots[j].base].renames[k] == j && Reached(slots[j].base, k, prev, renames[j])
      ensures PointersAre(registry, renames, heads, nexts, uses) && Keyed(registry, renames)
      ensures j in registry && slots[j].base in registry && renames[j].index == j && renames[j].uses == 1
      ensures renames[j].base == registry[slots[j].base] && registry[slots[j].base].index == slots[j].base
      ensures Good(Reg(DropRename(slots, j), next)) && registry.Keys == slots.Keys
      ensures var rs := slots[slots[j].base].renames;
              && j in nexts && slots[j].base in heads
              && (if k == 0 then prev == null else prev != null && rs[k - 1] in renames && prev == renames[rs[k - 1]])
              && (Past(rs, k, heads, nexts, slots[j].base).0[slots[j].base] == null <==> Without(rs, j) == [])
      ensures var (heads', nexts') := Past(slots[slots[j].base].renames, k, heads, nexts, slots[j].base);
              Shape(DropRename(slots, j), Remaining(j), renames - {j}, heads', nexts', uses)
    {
      heads, nexts, uses := TakePointers();
      var (b, rs) := (slots[j].base, slots[slots[j].base].renames);
      assert RenameIs(slots, registry, renames, uses, j);
      ListOf(slots, registry, renames, heads, nexts, uses, b);
      InList(renames, nexts, rs);
      ListUnlink(renames, nexts, rs, k, Past(rs, k, heads, nexts, b).1);
      WithoutAt(rs, k);
      hide Good, Shape, SlotsOk, Without, Linked, ListIs, DropRename;
      AllKeyed();
      DropGood(Value(), j);
      RemainingKeys(j);
      UnlinkShape(slots, registry, renames, heads, nexts, uses, j, k, Remaining(j));
    }

    lemma RemainingKeys(j: nat)
      requires IsRename(slots, j) && IsBase(slots, slots[j].base) && registry.Keys == slots.Keys
      ensures Remaining(j).Keys == DropRename(slots, j).Keys
      ensures forall i :: i in Remaining(j) ==> i in registry && Remaining(j)[i] == registry[i]
    {
      hide Without;
    }

    /** The entries that are left. */
    ghost function Remaining(j: nat): Entries
      requires IsRename(slots, j) && IsBase(slots, slots[j].base)
      reads this
    {
      var b := slots[j].base;
      (if Without(slots[b].renames, j) == [] then registry - {b} else registry) - {j}
    }

    method Bypass(entry: RenameEntry, base: RegistryEntry, ghost b: nat, ghost k: nat, prev: RenameEntry?,
                  ghost heads: Pointers, ghost nexts: Pointers, ghost uses: map<nat, nat>)
      requires PointersAre(registry, renames, heads, nexts, uses) && Keyed(registry, renames)
      requires IsBase(slots, b) && b in registry && base == registry[b] && k < |slots[b].renames|
      requires slots[b].renames[k] == entry.index && entry.index in renames && renames[entry.index] == entry
      requires entry.index in nexts && b in heads
      requires if k == 0 then prev == null
               else prev != null && slots[b].renames[k - 1] in renames && prev == renames[slots[b].renames[k - 1]]
      modifies base, if prev == null then {} else {prev}
      ensures var (heads', nexts') := Past(slots[b].renames, k, heads, nexts, b); PointersAre(registry, renames, heads', nexts', uses)
    {
      if prev == null { base.rename := entry.next; } else { prev.next := entry.next; }
    }

    lemma FewerLinked(registry': Entries, renames': Objects, heads: Pointers, nexts: Pointers, uses: map<nat, nat>)
      requires PointersAre(registry', renames', heads, nexts, uses) && Good(Value())
      requires forall i :: i in registry ==> i in registry' && registry'[i] == registry[i]
      requires forall i :: i in renames ==> i in renames' && renames'[i] == renames[i]
      requires Shape(slots, registry, renames, heads, nexts, uses)
      ensures Valid()
    {
      hide Shape, SlotsOk;
      FewerPointers(slots, registry, renames, heads, nexts, uses, Heads(), Nexts(), UseCounts());
    }

    method Drop(entry: RenameEntry)
      requires Valid() && IsRename(slots, entry.index) && entry.index in renames && entry == renames[entry.index]
      requires slots[entry.index].uses == 1
      modifies this, All()
      ensures Valid() && next == old(next) && All() <= old(All())
      ensures IsBase(old(slots), old(slots)[entry.index].base)
      ensures slots == DropRename(old(slots), entry.index) && renames == old(renames) - {entry.index}
    {
      hide Good, Shape, Linked, SlotsOk, Reached, Without, PointersAre, Keyed, Past, DropRename;
      ghost var k;
      var prev;
      prev, k := FindEntry(entry);
      ghost var (j, b) := (entry.index, slots[entry.index].base);
      ghost var heads, nexts, uses := PlanUnlink(j, k, prev);
      hide Valid;
      ghost var (registry', renames') := (registry, renames);
      ghost var (heads', nexts') := Past(slots[b].renames, k, heads, nexts, b);
      Forget(entry, entry.base, b, k, prev, heads, nexts, uses);
      slots := DropRename(slots, j);
      renames := renames - {j};
      FewerLinked(registry', renames', heads', nexts', uses);
    }

    /** The pointer past the element, and the registry without what is freed. */
    method Forget(entry: RenameEntry, base: RegistryEntry, ghost b: nat, ghost k: nat, prev: RenameEntry?,
                  ghost heads: Pointers, ghost nexts: Pointers, ghost uses: map<nat, nat>)
      requires PointersAre(registry, renames, heads, nexts, uses) && Keyed(registry, renames)
      requires IsBase(slots, b) && b in registry && base == registry[b] && base.index == b && k < |slots[b].renames|
      requires slots[b].renames[k] == entry.index && entry.index in renames && renames[entry.index] == entry
      requires entry.index in nexts && b in heads
      requires if k == 0 then prev == null
               else prev != null && slots[b].renames[k - 1] in renames && prev == renames[slots[b].renames[k - 1]]
      requires IsRename(slots, entry.index) && slots[entry.index].base == b
      requires Past(slots[b].renames, k, heads, nexts, b).0[b] == null <==> Without(slots[b].renames, entry.index) == []
      modifies this`registry, base, if prev == null then {} else {prev}
      ensures var (heads', nexts') := Past(slots[b].renames, k, heads, nexts, b);
              PointersAre(old(registry), renames, heads', nexts', uses)
      ensures registry == old(Remaining(entry.index))
    {
      hide Keyed, Past, PointersAre, Without;
      Bypass(entry, base, b, k, prev, heads, nexts, uses);
      ghost var (heads', nexts') := Past(slots[b].renames, k, heads, nexts, b);
      BaseHead(registry, renames, heads', nexts', uses, b);
      if base.rename == null { registry := registry - {base.index}; }
      registry := registry - {entry.index};
    }

    lemma BaseHead(registry': Entries, renames': Objects, heads: Pointers, nexts: Pointers, uses: map<nat, nat>, b: nat)
      requires PointersAre(registry', renames', heads, nexts, uses) && b in registry'
      ensures b in heads && heads[b] == registry'[b].rename
    {}

    /** labcomm2014_renaming_rename_free: the last use frees the rename, and the last
      * rename its base. (The count of a rename that is freed is not looked at again.)
      */
    method RenameFree(entry: RenameEntry)
      requires Valid() && IsRename(slots, entry.index) && entry.index in renames && entry == renames[entry.index]
      modifies this, All()
      ensures Valid() && All() <= old(All())
      ensures Value() == FreeRename(old(Value()), entry.index)
      ensures forall k :: IsRename(slots, k) ==> k in old(renames) && k in renames && renames[k] == old(renames)[k]
    {
      hide Good, Shape, Linked, SlotsOk, Find, DropRename;
      CountIs(entry.index);
      UsesOk(entry.index);
      if entry.uses > 1 {
        Count(entry, entry.uses - 1);
      } else {
        Drop(entry);
      }
      StillThere();
    }

    lemma CountIs(j: nat)
      requires Valid() && IsRename(slots, j)
      ensures j in renames && renames[j].uses == slots[j].uses
    {
      assert RenameIs(slots, registry, renames, UseCounts(), j);
    }

    lemma StillThere()
      requires Valid()
      ensures forall k :: IsRename(slots, k) ==> k in renames
    {
      forall k | IsRename(slots, k) ensures k in renames { assert RenameIs(slots, registry, renames, UseCounts(), k); }
    }

    lemma UsesOk(j: nat)
      requires Valid() && IsRename(slots, j)
      ensures slots[j].uses > 0 && SlotsOk(slots)
      ensures slots[j].uses > 1 ==> SlotsOk(slots[j := slots[j].(uses := slots[j].uses - 1)])
    {
      hide SlotsOk, Linked, DropUse;
      RenameIsOk(slots, j);
      if slots[j].uses > 1 {
        DropUseKeeps(slots, j);
        DropUseIs(slots, j);
      }
    }

    lemma NewIndex(b: nat)
      requires Valid() && IsBase(slots, b)
      ensures 0 < next && next !in renames
    {
      assert forall j :: j in renames ==> IsRename(slots, j);
    }

    lemma FoundRename(b: nat, name: string)
      requires Valid() && IsBase(slots, b) && Find(slots, slots[b].renames, name).Some?
      ensures var j := Find(slots, slots[b].renames, name).value;
              && IsRename(slots, j) && j in renames && renames[j].index == j && renames[j].uses == slots[j].uses
              && AddUse(slots, j) == slots[j := slots[j].(uses := slots[j].uses + 1)] && SlotsOk(AddUse(slots, j))
    {
      var j := Find(slots, slots[b].renames, name).value;
      assert RenameIs(slots, registry, renames, UseCounts(), j);
      hide SlotsOk;
      AddUseKeeps(slots, j);
    }
  }

  lemma DropGood(r: Reg, j: nat)
    requires Good(r) && IsRename(r.slots, j) && IsBase(r.slots, r.slots[j].base)
    ensures Good(Reg(DropRename(r.slots, j), r.next))
  {
    hide SlotsOk, Without;
    DropRenameKeeps(r.slots, j);
  }

  lemma DropUseIs(slots: Slots, j: nat)
    requires IsRename(slots, j) && slots[j].uses > 1
    ensures DropUse(slots, j) == slots[j := slots[j].(uses := slots[j].uses - 1)]
  {}

  lemma SameName(names: nat -> string, slots: Slots, i: nat)
    ensures NameOf(names, WithEntry(slots, i), i) == NameOf(names, slots, i)
  {}

  lemma GoodUses(r: Reg, j: nat, n: nat)
    requires Good(r) && IsRename(r.slots, j) && SlotsOk(r.slots[j := r.slots[j].(uses := n)])
    ensures Good(Reg(r.slots[j := r.slots[j].(uses := n)], r.next))
  {}

  lemma GoodEntry(r: Reg, i: nat)
    requires Good(r) && 0 < i < r.next && i !in r.slots
    ensures Good(Reg(r.slots[i := Base([])], r.next))
  {
    EntryKeeps(r.slots, i);
  }

  lemma AppendKeeps(r: Reg, b: nat, name: string)
    requires Good(r) && IsBase(r.slots, b) && Find(r.slots, r.slots[b].renames, name).None? && 0 < r.next
    ensures Good(Reg(AddRename(r.slots, b, r.next, name), r.next + 1))
  {
    hide SlotsOk, Find;
    AddRenameKeeps(r.slots, b, r.next, name);
  }

  lemma FindFrom(slots: Slots, rs: seq<nat>, k: nat, name: string)
    requires k <= |rs|
    ensures rs[0..] == rs
    ensures Find(slots, rs[k..], name)
            == if k == |rs| then None else if HasName(slots, rs[k], name) then Some(rs[k]) else Find(slots, rs[k + 1..], name)
  {
    if k < |rs| { assert rs[k..][1..] == rs[k + 1..]; }
  }
}
