/**
 ArenaStringPtr: the string field of a message. Its methods work on a store of live string objects and on the cleanup
 lists of the arenas; a deleted string is gone from the store, so every access proves that the string is alive.
 */
module ArenaString {
  import opened Wrappers
  import opened TaggedString
  import opened StringModel

  /** The heap and the arenas. */
  class Memory {
    var strings: map<Ptr, StringObject>
    var cleanups: map<ArenaId, seq<Cleanup>>
    ghost var created: multiset<Ptr>
    ghost var finalised: multiset<Ptr>

    ghost function View(): Store
      reads this
    {
      Store(strings, cleanups, created, finalised)
    }

    /** operator new and the constructor, or Arena::Create without its cleanup. */
    method New(p: Ptr, text: string, onHeap: bool)
      requires FreshPtr(View(), p)
      modifies this
      ensures View() == Create(old(View()), p, text, onHeap)
    {
      strings := strings[p := StringObject(text, onHeap)];
      created := created + multiset{p};
    }

    method AddCleanup(a: ArenaId, cleanup: Cleanup)
      modifies this
      ensures View() == StringModel.AddCleanup(old(View()), a, cleanup)
    {
      cleanups := cleanups[a := (if a in cleanups then cleanups[a] else []) + [cleanup]];
    }

    method Delete(p: Ptr)
      requires p in strings && strings[p].onHeap
      modifies this
      ensures View() == Finalise(old(View()), p)
    {
      strings := strings - {p};
      finalised := finalised + multiset{p};
    }
  }

  class ArenaStringPtr {
    var tagged: bv64

    ghost function View(m: Memory): Cell
      reads this, m
    {
      Cell(m.View(), tagged)
    }

    method NewString(arena: Option<ArenaId>, m: Memory, p: Ptr, text: string) returns (s: Ptr)
      requires FreshPtr(m.View(), p)
      modifies this, m
      ensures View(m) == StringModel.NewString(old(View(m)), arena, p, text) && s == p
    {
      match arena {
        case None =>
          m.New(p, text, true);
          tagged := TagAs(Allocated, p);
        case Some(a) =>
          m.New(p, text, false);
          m.AddCleanup(a, Destructor(p));
          tagged := TagAs(MutableArena, p);
      }
      s := p;
    }

    /** *UnsafeMutablePointer() = text. */
    method Assign(m: Memory, text: string)
      requires Usable(View(m)) && IsMutable(tagged)
      modifies m
      ensures View(m) == StringModel.Assign(old(View(m)), text)
    {
      var s := TaggedString.Get(tagged);
      m.strings := m.strings[s := m.strings[s].(text := text)];
    }

    method Set(value: string, arena: Option<ArenaId>, m: Memory, p: Ptr)
      requires Usable(View(m)) && FreshPtr(m.View(), p)
      modifies this, m
      ensures View(m) == StringModel.Set(old(View(m)), value, arena, p)
    {
      QueriesByType(tagged);
      if IsDefault(tagged) {
        var _ := NewString(arena, m, p, value);
      } else {
        Assign(m, value);
      }
    }

    /** Mutable and MutableNoCopy with initial "", and Mutable with a lazy default. The caller may write to s. */
    method Mutable(initial: string, arena: Option<ArenaId>, m: Memory, p: Ptr) returns (s: Ptr)
      requires Usable(View(m)) && FreshPtr(m.View(), p)
      modifies this, m
      ensures View(m) == StringModel.Mutable(old(View(m)), initial, arena, p)
      ensures s == TaggedString.Get(tagged) && s in m.strings && IsMutable(tagged)
    {
      QueriesByType(tagged);
      if IsMutable(tagged) {
        s := TaggedString.Get(tagged);
      } else {
        TagRoundTrip(Allocated, p);
        TagRoundTrip(MutableArena, p);
        s := NewString(arena, m, p, initial);
      }
    }

    method Release(m: Memory, p: Ptr, leftover: string) returns (released: Option<Ptr>)
      requires Usable(View(m)) && FreshPtr(m.View(), p)
      modifies this, m
      ensures View(m) == StringModel.Release(old(View(m)), p, leftover)
      ensures released == Released(old(View(m)), p)
    {
      QueriesByType(tagged);
      if IsDefault(tagged) {
        return None;
      }
      released := Some(TaggedString.Get(tagged));
      if IsArena(tagged) {
        var text := m.strings[TaggedString.Get(tagged)].text;
        if IsMutable(tagged) {
          Assign(m, leftover);
        }
        m.New(p, text, true);
        released := Some(p);
      }
      tagged := DEFAULT_TAGGED;
    }

    /** After this the field may only be initialised again. */
    method Destroy(m: Memory)
      requires Usable(View(m))
      modifies m
      ensures m.View() == StringModel.Destroy(old(View(m))) && tagged == old(tagged)
    {
      GetIfAllocatedExactly(tagged);
      var s := GetIfAllocated(tagged);
      if s.Some? {
        m.Delete(s.value);
      }
    }

    method InitAllocated(p: Ptr, arena: Option<ArenaId>, m: Memory)
      modifies this, m
      ensures View(m) == StringModel.InitAllocated(old(m.View()), p, arena)
    {
      match arena {
        case None =>
          tagged := TagAs(Allocated, p);
        case Some(a) =>
          tagged := TagAs(MutableArena, p);
          m.AddCleanup(a, Delete(p));
      }
    }

    method SetAllocated(value: Option<Ptr>, arena: Option<ArenaId>, m: Memory)
      requires Usable(View(m))
      modifies this, m
      ensures View(m) == StringModel.SetAllocated(old(View(m)), value, arena)
    {
      Destroy(m);
      match value {
        case None => tagged := DEFAULT_TAGGED;
        case Some(p) => InitAllocated(p, arena, m);
      }
    }

    method ClearTo(text: string, m: Memory)
      requires Usable(View(m))
      modifies m
      ensures View(m) == StringModel.ClearTo(old(View(m)), text)
    {
      QueriesByType(tagged);
      if !IsDefault(tagged) {
        Assign(m, text);
      }
    }
  }

  /** InternalSwap. */
  method InternalSwap(rhs: ArenaStringPtr, lhs: ArenaStringPtr)
    modifies rhs, lhs
    ensures lhs.tagged == old(rhs.tagged) && rhs.tagged == old(lhs.tagged)
  {
    lhs.tagged, rhs.tagged := rhs.tagged, lhs.tagged;
  }
}
