/** The reference-counted registry of renamed signatures
  * (lib/c/2014/labcomm2014_renaming_registry.c). Registry entries and renames are
  * named by the local index of their signature, which is never given out twice.
  */
module Renaming {
  import opened Options

  /** A registry entry: of a base signature with the list of its renames, or of a
    * rename with the base it belongs to, its name and its use count.
    */
  datatype Slot = Base(renames: seq<nat>) | Renamed(base: nat, name: string, uses: nat)

  type Slots = map<nat, Slot>

  /** The registry and the counter of labcomm2014_set_local_index. */
  datatype Reg = Reg(slots: Slots, next: nat)

  /** The name a signature carries; `names` are those of the generated ones. */
  function NameOf(names: nat -> string, slots: Slots, i: nat): string {
    if i in slots && slots[i].Renamed? then slots[i].name else names(i)
  }

  predicate HasName(slots: Slots, j: nat, name: string) {
    j in slots && slots[j].Renamed? && slots[j].name == name
  }

  // ---------------------------------------------------------------------- invariant

  predicate IsRename(slots: Slots, j: nat) {
    j in slots && slots[j].Renamed?
  }

  predicate IsBase(slots: Slots, b: nat) {
    b in slots && slots[b].Base?
  }

  /** In use, and listed by a base that is alive: there are no chains. */
  ghost predicate RenameOk(slots: Slots, j: nat)
    requires IsRename(slots, j)
  {
    slots[j].uses > 0 && IsBase(slots, slots[j].base) && j in slots[slots[j].base].renames
  }

  /** The listed renames belong here and have different names. */
  ghost predicate BaseOk(slots: Slots, b: nat)
    requires IsBase(slots, b)
  {
    var rs := slots[b].renames;
    && (forall k :: 0 <= k < |rs| ==> IsRename(slots, rs[k]) && slots[rs[k]].base == b)
    && (forall k, l :: 0 <= k < l < |rs| && IsRename(slots, rs[k]) && IsRename(slots, rs[l]) ==> slots[rs[k]].name != slots[rs[l]].name)
  }

  ghost predicate SlotsOk(slots: Slots) {
    && (forall j :: IsRename(slots, j) ==> RenameOk(slots, j))
    && (forall b :: IsBase(slots, b) ==> BaseOk(slots, b))
  }

  ghost predicate Good(r: Reg) {
    SlotsOk(r.slots) && forall i :: i in r.slots ==> 0 < i < r.next
  }

  // --------------------------------------------------------------------- operations

  /** The first rename in the list with that name. */
  function Find(slots: Slots, renames: seq<nat>, name: string): (r: Option<nat>)
    ensures r.Some? ==> r.value in renames && HasName(slots, r.value, name)
    ensures r.None? ==> forall j :: j in renames ==> !HasName(slots, j, name)
  {
    if renames == [] then None
    else if HasName(slots, renames[0], name) then Some(renames[0])
    else Find(slots, renames[1..], name)
  }

  /** registry_new(signature, NULL). */
  function WithEntry(slots: Slots, i: nat): Slots {
    if i in slots then slots else slots[i := Base([])]
  }

  /** The entry's base, or the entry itself. */
  function RootOf(slots: Slots, i: nat): nat {
    if IsRename(slots, i) then slots[i].base else i
  }

  function AddUse(slots: Slots, j: nat): Slots
    requires IsRename(slots, j)
  {
    slots[j := slots[j].(uses := slots[j].uses + 1)]
  }

  function AddRename(slots: Slots, b: nat, j: nat, name: string): Slots
    requires IsBase(slots, b)
  {
    slots[b := Base(slots[b].renames + [j])][j := Renamed(b, name, 1)]
  }

  /** labcomm2014_renaming_rename_new: the new registry, and the rename or NULL. */
  function NewRename(r: Reg, names: nat -> string, i: nat, rename: string -> Option<string>): (Reg, Option<nat>)
    requires Good(r) && i < r.next
  {
    if i == 0 then (r, None)
    else
      var slots := WithEntry(r.slots, i);
      EntryKeeps(r.slots, i);
      var b := RootOf(slots, i);
      match rename(NameOf(names, slots, i))
      case None => (r.(slots := slots), None)
      case Some(name) =>
        match Find(slots, slots[b].renames, name)
        case Some(j) => (r.(slots := AddUse(slots, j)), Some(j))
        case None => (Reg(AddRename(slots, b, r.next, name), r.next + 1), Some(r.next))
  }

  /** The list without an element. */
  function Without(s: seq<nat>, j: nat): seq<nat> {
    if s == [] then [] else if s[0] == j then s[1..] else [s[0]] + Without(s[1..], j)
  }

  function DropUse(slots: Slots, j: nat): Slots
    requires IsRename(slots, j) && slots[j].uses > 1
  {
    slots[j := slots[j].(uses := slots[j].uses - 1)]
  }

  function DropRename(slots: Slots, j: nat): Slots
    requires IsRename(slots, j) && IsBase(slots, slots[j].base)
  {
    var b := slots[j].base;
    var left := Without(slots[b].renames, j);
    (if left == [] then slots - {b} else slots[b := Base(left)]) - {j}
  }

  /** labcomm2014_renaming_rename_free. */
  function FreeRename(r: Reg, j: nat): Reg
    requires Good(r) && IsRename(r.slots, j)
  {
    assert RenameOk(r.slots, j);
    r.(slots := if r.slots[j].uses > 1 then DropUse(r.slots, j) else DropRename(r.slots, j))
  }

  // ------------------------------------------------------------------- preservation

  lemma EntryKeeps(slots: Slots, i: nat)
    requires SlotsOk(slots)
    ensures SlotsOk(WithEntry(slots, i)) && IsBase(WithEntry(slots, i), RootOf(WithEntry(slots, i), i))
  {
    var slots' := WithEntry(slots, i);
    forall j | IsRename(slots', j) ensures RenameOk(slots', j) { assert RenameOk(slots, j); }
    forall b | IsBase(slots', b) ensures BaseOk(slots', b) { assert b != i ==> BaseOk(slots, b); assert i in slots ==> BaseOk(slots, b); }
    if IsRename(slots', i) { assert RenameOk(slots', i); }
  }

  lemma AddUseKeeps(slots: Slots, j: nat)
    requires SlotsOk(slots) && IsRename(slots, j)
    ensures SlotsOk(AddUse(slots, j))
  {
    var slots' := AddUse(slots, j);
    forall k | IsRename(slots', k) ensures RenameOk(slots', k) { assert RenameOk(slots, k); }
    forall b | IsBase(slots', b) ensures BaseOk(slots', b) { assert BaseOk(slots, b); }
  }

  lemma DropUseKeeps(slots: Slots, j: nat)
    requires SlotsOk(slots) && IsRename(slots, j) && slots[j].uses > 1
    ensures SlotsOk(DropUse(slots, j))
  {
    var slots' := DropUse(slots, j);
    forall k | IsRename(slots', k) ensures RenameOk(slots', k) { assert RenameOk(slots, k); }
    forall b | IsBase(slots', b) ensures BaseOk(slots', b) { assert BaseOk(slots, b); }
  }

  lemma AddRenameKeeps(slots: Slots, b: nat, j: nat, name: string)
    requires SlotsOk(slots) && IsBase(slots, b) && j !in slots
    requires forall k :: k in slots[b].renames ==> !HasName(slots, k, name)
    ensures SlotsOk(AddRename(slots, b, j, name))
  {
    var slots' := AddRename(slots, b, j, name);
    forall k | IsRename(slots', k) ensures RenameOk(slots', k) {
      if k == j {
        assert slots'[b].renames[|slots[b].renames|] == j;
      } else {
        assert RenameOk(slots, k);
      }
    }
    forall c | IsBase(slots', c) ensures BaseOk(slots', c) {
      assert BaseOk(slots, c);
    }
  }

  lemma {:induction false} WithoutIs(s: seq<nat>, j: nat)
    requires forall k, l :: 0 <= k < l < |s| ==> s[k] != s[l]
    ensures forall x :: x in Without(s, j) <==> x in s && x != j
    ensures forall k, l :: 0 <= k < l < |Without(s, j)| ==> Without(s, j)[k] != Without(s, j)[l]
  {
    if s != [] {
      assert s == [s[0]] + s[1..];
      WithoutIs(s[1..], j);
      var r := Without(s, j);
      forall k, l | 0 <= k < l < |r| ensures r[k] != r[l] {
        if s[0] == j {
          assert r == s[1..];
        } else if k == 0 {
          assert r[l] == Without(s[1..], j)[l - 1] && r[l] in s[1..];
        } else {
          assert r[k] == Without(s[1..], j)[k - 1] && r[l] == Without(s[1..], j)[l - 1];
        }
      }
    }
  }

  lemma RenamesDistinct(slots: Slots, b: nat)
    requires IsBase(slots, b) && BaseOk(slots, b)
    ensures forall k, l :: 0 <= k < l < |slots[b].renames| ==> slots[b].renames[k] != slots[b].renames[l]
  {}

  lemma DropRenameKeeps(slots: Slots, j: nat)
    requires SlotsOk(slots) && IsRename(slots, j) && IsBase(slots, slots[j].base)
    ensures SlotsOk(DropRename(slots, j))
  {
    hide Without;
    var b := slots[j].base;
    var (rs, left) := (slots[b].renames, Without(slots[b].renames, j));
    assert BaseOk(slots, b);
    RenamesDistinct(slots, b);
    WithoutIs(rs, j);
    var slots' := DropRename(slots, j);
    forall k | IsRename(slots', k) ensures RenameOk(slots', k) {
      assert RenameOk(slots, k);
    }
    forall c | IsBase(slots', c) ensures BaseOk(slots', c) {
      assert BaseOk(slots, c);
      DropBase(slots, slots', j, c);
    }
  }

  lemma DropBase(slots: Slots, slots': Slots, j: nat, c: nat)
    requires IsRename(slots, j) && IsBase(slots, slots[j].base) && BaseOk(slots, slots[j].base)
    requires slots' == DropRename(slots, j)
    requires IsBase(slots', c) && IsBase(slots, c) && BaseOk(slots, c)
    ensures BaseOk(slots', c)
  {
    hide Without;
    var b := slots[j].base;
    RenamesDistinct(slots, b);
    WithoutIs(slots[b].renames, j);
    var rs := slots'[c].renames;
    forall k | 0 <= k < |rs| ensures IsRename(slots', rs[k]) && slots'[rs[k]].base == c && rs[k] in slots[c].renames {
      assert rs[k] in rs;
    }
    forall k, l | 0 <= k < l < |rs| && IsRename(slots', rs[k]) && IsRename(slots', rs[l])
      ensures slots'[rs[k]].name != slots'[rs[l]].name
    {
      assert rs[k] in slots[c].renames && rs[l] in slots[c].renames && rs[k] != rs[l];
    }
  }

  // ------------------------------------------------------------------------- results

  /** The use count of a rename, 0 if there is none. */
  function Uses(slots: Slots, j: nat): nat {
    if IsRename(slots, j) then slots[j].uses else 0
  }

  lemma {:induction false} NewRenameKeeps(r: Reg, names: nat -> string, i: nat, rename: string -> Option<string>)
    requires Good(r) && i < r.next
    ensures Good(NewRename(r, names, i, rename).0)
  {
    hide SlotsOk, Find;
    if i > 0 {
      var slots := WithEntry(r.slots, i);
      EntryKeeps(r.slots, i);
      var b := RootOf(slots, i);
      var name := rename(NameOf(names, slots, i));
      if name.Some? {
        match Find(slots, slots[b].renames, name.value)
        case Some(j) => AddUseKeeps(slots, j);
        case None => AddRenameKeeps(slots, b, r.next, name.value);
      }
    }
  }

  /** What a caller gets: a rename of the signature's base with the new name, the
    * use counted, and no other rename touched. NULL exactly without a signature or
    * a new name.
    */
  lemma {:induction false} NewRenameGives(r: Reg, names: nat -> string, i: nat, rename: string -> Option<string>)
    requires Good(r) && i < r.next
    ensures var (r', j) := NewRename(r, names, i, rename);
            && (j.None? <==> i == 0 || rename(NameOf(names, r.slots, i)).None?)
            && (forall k: nat :: Uses(r'.slots, k) == Uses(r.slots, k) + if j == Some(k) then 1 else 0)
            && (forall k :: IsRename(r.slots, k) ==>
                  IsRename(r'.slots, k) && r'.slots[k].base == r.slots[k].base && r'.slots[k].name == r.slots[k].name)
            && (j.Some? ==>
                  && IsRename(r'.slots, j.value) && r'.slots[j.value].base == RootOf(r.slots, i)
                  && Some(r'.slots[j.value].name) == rename(NameOf(names, r.slots, i)))
  {
    hide SlotsOk;
    if i > 0 {
      var slots := WithEntry(r.slots, i);
      EntryKeeps(r.slots, i);
      var b := RootOf(slots, i);
      var name := rename(NameOf(names, slots, i));
      assert NameOf(names, slots, i) == NameOf(names, r.slots, i);
      if name.Some? {
        match Find(slots, slots[b].renames, name.value)
        case None =>
        case Some(j) => ListedBelongs(slots, b, j);
      }
    }
  }

  lemma ListedBelongs(slots: Slots, b: nat, j: nat)
    requires SlotsOk(slots) && IsBase(slots, b) && j in slots[b].renames
    ensures IsRename(slots, j) && slots[j].base == b
  {
    assert BaseOk(slots, b);
  }

  /** Within one base a name stands for one rename. */
  lemma NamesUnique(slots: Slots, j: nat, k: nat)
    requires SlotsOk(slots) && IsRename(slots, j) && IsRename(slots, k)
    requires slots[j].base == slots[k].base && slots[j].name == slots[k].name
    ensures j == k
  {
    assert RenameOk(slots, j) && RenameOk(slots, k) && BaseOk(slots, slots[j].base);
  }

  /** Two callers that reach the same name from the same base, by whatever chain
    * of renames, share one object.
    */
  lemma SameObject(r: Reg, names: nat -> string, i: nat, f: string -> Option<string>, k: nat, g: string -> Option<string>)
    requires Good(r) && i < r.next && k < r.next
    requires var r1 := NewRename(r, names, i, f).0;
             Good(r1) && k < r1.next && RootOf(r.slots, i) == RootOf(r1.slots, k)
    requires var r1 := NewRename(r, names, i, f).0;
             f(NameOf(names, r.slots, i)).Some? && f(NameOf(names, r.slots, i)) == g(NameOf(names, r1.slots, k))
    requires i != 0 && k != 0
    ensures var (r1, j) := NewRename(r, names, i, f);
            NewRename(r1, names, k, g).1 == j
  {
    hide NewRename, SlotsOk, NameOf, RootOf;
    var (r1, j) := NewRename(r, names, i, f);
    NewRenameGives(r, names, i, f);
    NewRenameGives(r1, names, k, g);
    NewRenameKeeps(r1, names, k, g);
    var (r2, l) := NewRename(r1, names, k, g);
    NamesUnique(r2.slots, j.value, l.value);
  }

  /** Giving a rename back: its use is uncounted, no other rename is touched. */
  lemma {:induction false} FreeRenameGives(r: Reg, j: nat)
    requires Good(r) && IsRename(r.slots, j)
    ensures Good(FreeRename(r, j))
    ensures var r' := FreeRename(r, j);
            && (forall k: nat :: Uses(r'.slots, k) == Uses(r.slots, k) - if k == j then 1 else 0)
            && (forall k :: k != j && IsRename(r.slots, k) ==> IsRename(r'.slots, k) && r'.slots[k] == r.slots[k])
  {
    hide SlotsOk, Without;
    assert RenameOk(r.slots, j) by { RenameIsOk(r.slots, j); }
    if r.slots[j].uses > 1 { DropUseKeeps(r.slots, j); } else { DropRenameKeeps(r.slots, j); }
  }

  lemma RenameIsOk(slots: Slots, j: nat)
    requires SlotsOk(slots) && IsRename(slots, j)
    ensures RenameOk(slots, j)
  {}

  // ------------------------------------------------------------------ empty registry

  /** No base without renames. */
  ghost predicate NoLeftover(slots: Slots) {
    forall b :: IsBase(slots, b) ==> slots[b].renames != []
  }

  /** When all uses are gone the registry is empty, except for leftover bases. */
  lemma ReleasedIsEmpty(r: Reg)
    requires Good(r) && forall j: nat :: Uses(r.slots, j) == 0
    ensures r.slots == map[] <==> NoLeftover(r.slots)
    ensures forall i :: i in r.slots ==> r.slots[i] == Base([])
  {
    forall j: nat ensures !IsRename(r.slots, j) {
      assert Uses(r.slots, j) == 0;
      if IsRename(r.slots, j) { RenameIsOk(r.slots, j); }
    }
    forall i | i in r.slots ensures r.slots[i] == Base([]) {
      assert IsBase(r.slots, i) by { assert !IsRename(r.slots, i); }
      FirstListed(r.slots, i);
    }
  }

  lemma FirstListed(slots: Slots, b: nat)
    requires SlotsOk(slots) && IsBase(slots, b)
    ensures slots[b].renames == [] || IsRename(slots, slots[b].renames[0])
  {
    assert BaseOk(slots, b);
  }

  /** Exactly when a leftover base comes about: the signature was not known and
    * its rename function gives no name.
    */
  lemma {:induction false} LeftoverIff(r: Reg, names: nat -> string, i: nat, rename: string -> Option<string>)
    requires Good(r) && i < r.next && NoLeftover(r.slots)
    ensures NoLeftover(NewRename(r, names, i, rename).0.slots)
            <==> !(i > 0 && i !in r.slots && rename(NameOf(names, r.slots, i)).None?)
  {
    hide SlotsOk;
    var r' := NewRename(r, names, i, rename).0;
    if i > 0 {
      var slots := WithEntry(r.slots, i);
      EntryKeeps(r.slots, i);
      assert NameOf(names, slots, i) == NameOf(names, r.slots, i);
      var (b, name) := (RootOf(slots, i), rename(NameOf(names, slots, i)));
      if name.None? && i !in r.slots {
        assert IsBase(r'.slots, i) && r'.slots[i].renames == [];
      } else if name.Some? && i !in r.slots {
        assert b == i && slots[b].renames == [];
      }
    }
  }

  lemma {:induction false} FreeLeavesNothing(r: Reg, j: nat)
    requires Good(r) && IsRename(r.slots, j) && NoLeftover(r.slots)
    ensures NoLeftover(FreeRename(r, j).slots)
  {
    hide SlotsOk, Without;
    assert RenameOk(r.slots, j) by { RenameIsOk(r.slots, j); }
  }
}
