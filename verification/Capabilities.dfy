/** kernel/security/capability.c: the table of capabilities. */
module Capabilities {
  import opened Options

  const TRANSFER: bv16 := 0x8

  datatype Capability = Capability(owner: nat, objectId: nat, rights: bv16)

  /** CAPABILITY_MAX_ENTRIES is 128; capability number n lives in slot n - 1. */
  type Slot = n: nat | n < 128
  type Table = t: seq<Option<Capability>> | |t| == 128 witness seq(128, _ => None)

  /** Every right in a is in b: adding a to b adds nothing. */
  predicate Within(a: bv16, b: bv16): (r: bool)
    ensures r <==> a | b == b
  {
    b & a == a
  }

  lemma {:induction false} WithinTrans(a: bv16, b: bv16, c: bv16)
    requires Within(a, b) && Within(b, c)
    ensures Within(a, c)
  {
    assert c & a == c & (b & a) == (c & b) & a;
  }

  function FirstFree(t: Table, i: nat): (r: Option<Slot>)
    requires i <= 128
    ensures r.Some? ==> i <= r.value && t[r.value].None?
    ensures forall j: Slot :: i <= j && (r.Some? ==> j < r.value) ==> t[j].Some?
    decreases |t| - i
  {
    if i == 128 then None
    else if t[i].None? then Some(i)
    else FirstFree(t, i + 1)
  }

  /** Status 0 with the new number, or -1 for no rights, or -2 for a full table. */
  function Create(t: Table, owner: nat, objectId: nat, rights: bv16): (Table, int, nat) {
    if rights == 0 then (t, -1, 0)
    else
      var slot := FirstFree(t, 0);
      if slot.None? then (t, -2, 0)
      else (t[slot.value := Some(Capability(owner, objectId, rights))], 0, slot.value + 1)
  }

  /** Who owns capability id, if it exists. */
  function Holder(t: Table, id: nat): Option<nat> {
    if 0 < id <= 128 && t[id - 1].Some? then Some(t[id - 1].value.owner) else None
  }

  /** Status 0, or the first check that fails: the arguments, a free slot, another owner, no transfer right, more rights
      than held. */
  function ValidateTransfer(t: Table, id: nat, owner: nat, mask: bv16): (status: int)
    ensures status == 0 <==> Sendable(t, id, owner, mask)
    ensures status == -1 <==> id == 0 || id > 128 || mask == 0
    ensures status == -2 <==> 0 < id <= 128 && mask != 0 && t[id - 1].None?
    ensures status == -3 <==> mask != 0 && Holder(t, id).Some? && Holder(t, id) != Some(owner)
    ensures status == -4 <==> mask != 0 && Holder(t, id) == Some(owner) && t[id - 1].value.rights & 0x8 == 0
    ensures status in {0, -1, -2, -3, -4, -5}
  {
    if !(0 < id <= 128) || mask == 0 then -1
    else
      var slot := t[id - 1];
      if slot.None? then -2
      else if slot.value.owner != owner then -3
      else if slot.value.rights & TRANSFER == 0 then -4
      else if !Within(mask, slot.value.rights) then -5
      else 0
  }

  /** The owner holds capability id, it may be passed on, and it covers the mask. */
  predicate Sendable(t: Table, id: nat, owner: nat, mask: bv16) {
    && 0 < id <= 128 && mask != 0 && t[id - 1].Some?
    && t[id - 1].value.owner == owner && t[id - 1].value.rights & 0x8 != 0 && Within(mask, t[id - 1].value.rights)
  }

  function CopyForOwner(t: Table, id: nat, owner: nat, mask: bv16, target: nat): (Table, int, nat) {
    var status := ValidateTransfer(t, id, owner, mask);
    if status != 0 then (t, status, 0)
    else
      var slot := FirstFree(t, 0);
      if slot.None? then (t, -2, 0)
      else (t[slot.value := Some(Capability(target, t[id - 1].value.objectId, mask))], 0, slot.value + 1)
  }

  /** The first unused slot, and no other, now holds c; its number is returned. */
  predicate Inserted(t: Table, c: Capability, u: Table, id: nat) {
    && 0 < id <= 128 && t[id - 1].None? && (forall n: Slot :: n < id - 1 ==> t[n].Some?)
    && forall n: Slot :: u[n] == if n == id - 1 then Some(c) else t[n]
  }

  /** Creation fails with -1 exactly without rights and with -2 exactly on a full table, changing nothing; otherwise it
      fills the first unused slot with the record asked for. */
  lemma {:induction false} CreateExact(t: Table, owner: nat, objectId: nat, rights: bv16)
    ensures var (u, status, id) := Create(t, owner, objectId, rights);
            if rights == 0 then (u, status, id) == (t, -1, 0)
            else if forall n: Slot :: t[n].Some? then (u, status, id) == (t, -2, 0)
            else status == 0 && Inserted(t, Capability(owner, objectId, rights), u, id)
  {
    hide FirstFree;
    var slot := FirstFree(t, 0);
    assert slot.None? ==> forall n: Slot :: t[n].Some?;
  }

  /** A copy succeeds exactly when the source may be passed on with these rights and a slot is unused: the target then
      owns, in the first unused slot, the same object with exactly the rights of the mask. A failed copy changes
      nothing. */
  lemma {:induction false} CopyForOwnerExact(t: Table, id: nat, owner: nat, mask: bv16, target: nat)
    ensures var (u, status, copy) := CopyForOwner(t, id, owner, mask, target);
            if !Sendable(t, id, owner, mask) then (u, status, copy) == (t, ValidateTransfer(t, id, owner, mask), 0) && status != 0
            else if forall n: Slot :: t[n].Some? then (u, status, copy) == (t, -2, 0)
            else status == 0 && Inserted(t, Capability(target, t[id - 1].value.objectId, mask), u, copy)
  {
    hide FirstFree;
    var slot := FirstFree(t, 0);
    assert slot.None? ==> forall n: Slot :: t[n].Some?;
  }
}
