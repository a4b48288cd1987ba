/**
 What each ArenaStringPtr operation does to a field, to the strings alive and to the cleanup lists of the arenas.
 */
module StringModel {
  import opened Wrappers
  import opened TaggedString

  type ArenaId = nat

  /** fixed_address_empty_string, the default value of all fields. */
  const EMPTY := Ptr(64)

  /** A live string; onHeap tells a string made by new from one an arena made in its own blocks. */
  datatype StringObject = StringObject(text: string, onHeap: bool)

  /** An entry of an arena's cleanup list: run the destructor, or delete. */
  datatype Cleanup = Destructor(ptr: Ptr) | Delete(ptr: Ptr)

  /** created and finalised are history: every string ever made, and every string destroyed or deleted. */
  datatype Store = Store(
    strings: map<Ptr, StringObject>,
    cleanups: map<ArenaId, seq<Cleanup>>,
    created: multiset<Ptr>,
    finalised: multiset<Ptr>)

  /** A field and the store it lives in. */
  datatype Cell = Cell(store: Store, tagged: bv64)

  const DEFAULT_TAGGED: bv64 := TagAs(Default, EMPTY)

  predicate FreshPtr(store: Store, p: Ptr) {
    p != NULL && p != EMPTY && Aligned(p) && p !in store.strings
  }

  function CleanupsOf(store: Store, a: ArenaId): seq<Cleanup> {
    if a in store.cleanups then store.cleanups[a] else []
  }

  function AddCleanup(store: Store, a: ArenaId, cleanup: Cleanup): Store {
    store.(cleanups := store.cleanups[a := CleanupsOf(store, a) + [cleanup]])
  }

  function Create(store: Store, p: Ptr, text: string, onHeap: bool): Store {
    store.(strings := store.strings[p := StringObject(text, onHeap)], created := store.created + multiset{p})
  }

  function Finalise(store: Store, p: Ptr): Store {
    store.(strings := store.strings - {p}, finalised := store.finalised + multiset{p})
  }

  // ---------------------------------------------------------------- what each operation does

  /** A new string for the field, in the arena if there is one. p is where the system puts it. */
  function NewString(c: Cell, arena: Option<ArenaId>, p: Ptr, text: string): Cell {
    match arena
    case None => Cell(Create(c.store, p, text, true), TagAs(Allocated, p))
    case Some(a) => Cell(AddCleanup(Create(c.store, p, text, false), a, Destructor(p)), TagAs(MutableArena, p))
  }

  /** Writing through the field's pointer. */
  function Assign(c: Cell, text: string): Cell {
    var p := Get(c.tagged);
    if p in c.store.strings then c.(store :=
        c.store.(strings := c.store.strings[p := c.store.strings[p].(text := text)])) else c
  }

  function Set(c: Cell, text: string, arena: Option<ArenaId>, p: Ptr): Cell {
    if IsDefault(c.tagged) then NewString(c, arena, p, text) else Assign(c, text)
  }

  function Mutable(c: Cell, initial: string, arena: Option<ArenaId>, p: Ptr): Cell {
    if IsMutable(c.tagged) then c else NewString(c, arena, p, initial)
  }

  /** What the caller gets is its own heap string; leftover is what moving out leaves in a string the arena keeps. */
  function Release(c: Cell, p: Ptr, leftover: string): Cell {
    if IsDefault(c.tagged) then c
    else if IsArena(c.tagged) then
      var q := Get(c.tagged);
      var text := if q in c.store.strings then c.store.strings[q].text else "";
      var left := if IsMutable(c.tagged) then leftover else text;
      Cell(Create(Assign(c, left).store, p, text, true), DEFAULT_TAGGED)
    else c.(tagged := DEFAULT_TAGGED)
  }

  function Released(c: Cell, p: Ptr): Option<Ptr> {
    if IsDefault(c.tagged) then None else if IsArena(c.tagged) then Some(p) else Some(Get(c.tagged))
  }

  function Destroy(c: Cell): Store {
    match GetIfAllocated(c.tagged)
    case None => c.store
    case Some(p) => Finalise(c.store, p)
  }

  function InitAllocated(store: Store, p: Ptr, arena: Option<ArenaId>): Cell {
    match arena
    case None => Cell(store, TagAs(Allocated, p))
    case Some(a) => Cell(AddCleanup(store, a, Delete(p)), TagAs(MutableArena, p))
  }

  function SetAllocated(c: Cell, value: Option<Ptr>, arena: Option<ArenaId>): Cell {
    match value
    case None => Cell(Destroy(c), DEFAULT_TAGGED)
    case Some(p) => InitAllocated(Destroy(c), p, arena)
  }

  /** ClearToEmpty, and ClearToDefault with the field's default text. */
  function ClearTo(c: Cell, text: string): Cell {
    if IsDefault(c.tagged) then c else Assign(c, text)
  }

  /** The string the field points to may be used, and may be written unless it is the default. */
  predicate Usable(c: Cell) {
    && TypeOf(c.tagged) != FixedSizeArena
    && Get(c.tagged) in c.store.strings
    && (TypeOf(c.tagged) == Allocated ==> c.store.strings[Get(c.tagged)].onHeap)
  }
}
