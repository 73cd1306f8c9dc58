/** kernel/security/capability.c as it stands: the slots updated in place. */
module CapabilityStore {
  import opened Options
  import opened Capabilities

  class CapabilityTable {
    const slots: array<Option<Capability>>
    var count: nat

    ghost predicate Valid()
      reads this, slots
    {
      slots.Length == 128
    }

    constructor ()
      ensures Valid() && slots[..] == seq(128, _ => None) && count == 0 && fresh(slots)
    {
      slots := new Option<Capability>[128](_ => None);
      count := 0;
    }

    /** The search that both capability_create and capability_copy_for_owner make, and the entry they then write. */
    method Insert(c: Capability) returns (status: int, id: nat)
      requires Valid()
      modifies this, slots
      ensures Valid()
      ensures var slot := FirstFree(old(slots[..]), 0);
              if slot.None? then status == -2 && id == 0 && slots[..] == old(slots[..]) && count == old(count)
              else status == 0 && id == slot.value + 1 && count == old(count) + 1
                   && slots[..] == old(slots[..])[slot.value := Some(c)]
    {
      var i := 0;
      while i < 128
        invariant i <= 128 && FirstFree(slots[..], i) == FirstFree(slots[..], 0)
        invariant slots[..] == old(slots[..]) && count == old(count)
      {
        if slots[i].None? {
          slots[i] := Some(c);
          count := count + 1;
          return 0, i + 1;
        }
        i := i + 1;
      }
      return -2, 0;
    }

    method Create(owner: nat, objectId: nat, rights: bv16) returns (status: int, id: nat)
      requires Valid()
      modifies this, slots
      ensures Valid() && (slots[..], status, id) == Capabilities.Create(old(slots[..]), owner, objectId, rights)
      ensures count == old(count) + if status == 0 then 1 else 0
    {
      if rights == 0 {
        return -1, 0;
      }
      status, id := Insert(Capability(owner, objectId, rights));
    }

    method ValidateTransfer(id: nat, owner: nat, mask: bv16) returns (status: int)
      requires Valid()
      ensures status == Capabilities.ValidateTransfer(slots[..], id, owner, mask)
    {
      if !(0 < id <= 128) || mask == 0 {
        return -1;
      }
      var slot := slots[id - 1];
      if slot.None? {
        return -2;
      }
      if slot.value.owner != owner {
        return -3;
      }
      if slot.value.rights & TRANSFER == 0 {
        return -4;
      }
      if !Within(mask, slot.value.rights) {
        return -5;
      }
      return 0;
    }

    method CopyForOwner(id: nat, owner: nat, mask: bv16, target: nat) returns (status: int, copy: nat)
      requires Valid()
      modifies this, slots
      ensures Valid() && (slots[..], status, copy) == Capabilities.CopyForOwner(old(slots[..]), id, owner, mask, target)
      ensures count == old(count) + if status == 0 then 1 else 0
    {
      status := ValidateTransfer(id, owner, mask);
      if status != 0 {
        return status, 0;
      }
      status, copy := Insert(Capability(target, slots[id - 1].value.objectId, mask));
    }
  }
}
