/** `handle_storage_t` as the object it is. */
module HandleStorageObject {
  import opened Forms
  import opened HandleTable
  import opened HandleTheorems
  import opened HandleNames

  class HandleStorage {
    const form: Form
    const harbor: nat
    var handleIndex: nat         // handle_index
    var slot: seq<Slot>
    var name: map<string, nat>

    ghost function View(): Table
      reads this
    {
      Table(slot, handleIndex)
    }

    ghost predicate Valid()
      reads this
    {
      View().Valid()
    }

    constructor (form: Form, harbor: nat)
      ensures Valid() && View() == Fresh() && name == map[]
      ensures this.form == form && this.harbor == harbor % 256
    {
      this.form, this.harbor := form, harbor % 256;
      handleIndex, slot, name := 1, [Vacant, Vacant, Vacant, Vacant], map[];
    }

    /** The inner loop of `handle_register`: one scan of the table. */
    method ScanSlots() returns (f: Found)
      requires Valid()
      ensures f == Scan(slot, handleIndex, |slot|)
    {
      var h, i := handleIndex, 0;
      while i < |slot|
        invariant 0 <= i <= |slot| && 0 < h
        invariant Scan(slot, h, |slot| - i) == Scan(slot, handleIndex, |slot|)
      {
        h := InRange(h);
        SmallMod(h, HARBOR_UNIT);
        var hash := h % |slot|;
        if slot[hash].Vacant? {
          return At(h);
        }
        h := h + 1;
        i := i + 1;
      }
      return Nowhere;
    }

    /** Puts the context in the free slot of `h`, and the index after it. */
    method Occupy(context: nat, h: nat) returns (handle: nat)
      requires Valid() && 0 < h <= HANDLE_MASK
      modifies this`handleIndex, this`slot
      ensures Valid() && Registered(handle, View()) == Place(old(View()), context, h, harbor)
    {
      handle := h + harbor * HARBOR_UNIT;
      slot := slot[Hash(h, |slot|) := Used(Entry(context, handle))];
      handleIndex := h + 1;
    }

    /** `ok` is false when the assertion on the size cap fails. */
    method HandleRegister(context: nat) returns (ok: bool, handle: nat)
      requires Valid()
      modifies this`handleIndex, this`slot
      ensures Valid()
      ensures match Register(form, old(View()), context, harbor)
              case Full => !ok
              case Registered(h, t) => ok && handle == h && View() == t
    {
      ok, handle := false, 0;
      while true
        invariant Valid() && !ok
        invariant Register(form, View(), context, harbor) == Register(form, old(View()), context, harbor)
        decreases HANDLE_MASK + 1 - |slot|
      {
        var f := ScanSlots();
        if f.At? {
          ok := true;
          handle := Occupy(context, f.handle);
          return;
        }
        if 2 * |slot| - 1 > HANDLE_MASK {
          return;
        }
        GrownIsValid(form, View());
        slot := Grow(form, slot);
      }
    }

    /** The name index loses one name of the handle, if it has any; which one is up to the iteration
        order of the hash map. */
    method HandleRetire(handle: nat) returns (done: bool)
      requires Valid()
      modifies this`slot, this`name
      ensures Valid() && (done, View()) == Retire(old(View()), handle)
      ensures if done then NamesAfterRetire(form, old(name), name, handle) else name == old(name)
    {
      done := false;
      HashIsMask(handle, |slot|);
      var hash := handle % |slot|;
      if slot[hash].Used? && slot[hash].entry.handle == handle {
        slot := slot[hash := Vacant];
        done := true;
        var of := NamesOf(name, handle);
        if form.Repaired? {
          name := name - of;
        } else if of != {} {
          var k :| k in of;
          name := name - {k};
        }
      }
    }

    method HandleGrab(handle: nat) returns (found: Found)
      requires Valid()
      ensures found == Grab(View(), handle)
    {
      HashIsMask(handle, |slot|);
      var s := slot[handle % |slot|];
      if s.Used? && s.entry.handle == handle {
        return At(s.entry.context);
      }
      return Nowhere;
    }

    method HandleFindName(key: string) returns (handle: nat)
      ensures handle == FindName(name, key)
    {
      handle := if key in name then name[key] else 0;
    }

    /** A name is given once: a second registration changes nothing. */
    method HandleNameHandle(handle: nat, key: string) returns (done: bool)
      modifies this`name
      ensures done <==> key !in old(name)
      ensures name == GiveName(old(name), handle, key)
      ensures key in name && (done ==> FindName(name, key) == handle)
    {
      done := key !in name;
      if done {
        name := name[key := handle];
      }
    }
  }
}
