/**
 Who owns each string: string fields of messages on the heap and on arenas, and the caller, over any sequence of field
 operations. Every live string but the shared default has exactly one owner, each is finalised once, and a field behaves
 like a plain variable that holds a string or is unset.
 */
module StringOwnership {
  import opened Wrappers
  import opened TaggedString
  import opened StringModel

  type FieldId = nat

  /** A field as its tagged pointer reads, and the arena of its message. */
  datatype Field = Field(kind: Type, ptr: Ptr, home: Option<ArenaId>)

  /** The one who will finalise a string; entry is its place on the arena's cleanup list. */
  datatype Owner = Caller | OfField(field: FieldId) | OfArena(arena: ArenaId, entry: nat)

  /** owner is history. */
  datatype World = World(store: Store, fields: map<FieldId, Field>, owner: map<Ptr, Owner>)

  const START := World(Store(map[EMPTY := StringObject("", false)], map[], multiset{}, multiset{}), map[], map[])

  datatype Op =
    | NewField(f: FieldId, home: Option<ArenaId>)                // a new message: InitDefault
    | Set(f: FieldId, text: string, p: Ptr)
    // Mutable, MutableNoCopy and Mutable with a lazy default
    | Mutable(f: FieldId, initial: string, p: Ptr)
    | Write(f: FieldId, text: string)                            // through the pointer Mutable gave
    | Release(f: FieldId, p: Ptr, leftover: string)
    | SetAllocated(f: FieldId, value: Option<Ptr>)
    | ClearTo(f: FieldId, text: string)                          // ClearToEmpty and ClearToDefault
    | Swap(f: FieldId, g: FieldId)
    | Destroy(f: FieldId)                                        // by the destructor of a message on the heap
    | EndArena(a: ArenaId)                                       // the arena runs its cleanups; its messages are gone
    | CallerNew(p: Ptr, text: string)
    | CallerWrite(p: Ptr, text: string)
    | CallerDelete(p: Ptr)

  function CellOf(w: World, f: FieldId): Cell
    requires f in w.fields
  {
    Cell(w.store, TagAs(w.fields[f].kind, w.fields[f].ptr))
  }

  predicate Held(w: World, p: Ptr) {
    p in w.owner && w.owner[p] == Caller
  }

  predicate Enabled(w: World, op: Op) {
    match op
    case NewField(f, home) => f !in w.fields
    case Set(f, _, p) => f in w.fields && FreshPtr(w.store, p)
    case Mutable(f, _, p) => f in w.fields && FreshPtr(w.store, p)
    case Write(f, _) => f in w.fields && w.fields[f].kind != Default
    case Release(f, p, _) => f in w.fields && FreshPtr(w.store, p)
    case SetAllocated(f, value) => f in w.fields && (value.Some? ==> Held(w, value.value))
    case ClearTo(f, _) => f in w.fields
    case Swap(f, g) => f in w.fields && g in w.fields && w.fields[f].home == w.fields[g].home
    case Destroy(f) => f in w.fields && w.fields[f].home == None
    case EndArena(_) => true
    case CallerNew(p, _) => FreshPtr(w.store, p)
    case CallerWrite(p, _) => Held(w, p)
    case CallerDelete(p) => Held(w, p)
  }

  /** The owner of a string that field f has just been given. */
  function NewOwner(w: World, f: FieldId): Owner
    requires f in w.fields
  {
    match w.fields[f].home
    case None => OfField(f)
    case Some(a) => OfArena(a, |CleanupsOf(w.store, a)|)
  }

  function Put(w: World, f: FieldId, c: Cell): World
    requires f in w.fields
  {
    w.(store := c.store, fields := w.fields[f := Field(TypeOf(c.tagged), Get(c.tagged), w.fields[f].home)])
  }

  /** The owners when field f has dropped or handed over what it owned. */
  function OwnersWithout(w: World, f: FieldId): map<Ptr, Owner>
    requires f in w.fields
  {
    if w.fields[f].kind == Allocated then w.owner - {w.fields[f].ptr} else w.owner
  }

  /** The owner of what a swapped-in pointer points to moves with it. */
  function SwappedOwner(o: Owner, f: FieldId, g: FieldId): Owner {
    if o == OfField(f) then OfField(g) else if o == OfField(g) then OfField(f) else o
  }

  function Pointers(cleanups: seq<Cleanup>): seq<Ptr> {
    if cleanups == [] then [] else Pointers(cleanups[..|cleanups| - 1]) + [cleanups[|cleanups| - 1].ptr]
  }

  /** The arena runs all its cleanups and goes away with its messages. */
  function End(w: World, a: ArenaId): World {
    var gone := Pointers(CleanupsOf(w.store, a));
    World(w.store.(strings := w.store.strings - (set p | p in gone), cleanups := w.store.cleanups - {a},
                   finalised := w.store.finalised + multiset(gone)),
          map f | f in w.fields && w.fields[f].home != Some(a) :: w.fields[f],
          w.owner - (set p | p in gone))
  }

  function Apply(w: World, op: Op): World
    requires Enabled(w, op)
  {
    match op
    case NewField(f, home) => w.(fields := w.fields[f := Field(Default, EMPTY, home)])
    case Set(f, text, p) =>
      var w' := Put(w, f, StringModel.Set(CellOf(w, f), text, w.fields[f].home, p));
      if w.fields[f].kind == Default then w'.(owner := w.owner[p := NewOwner(w, f)]) else w'
    case Mutable(f, initial, p) =>
      var w' := Put(w, f, StringModel.Mutable(CellOf(w, f), initial, w.fields[f].home, p));
      if w.fields[f].kind == Default then w'.(owner := w.owner[p := NewOwner(w, f)]) else w'
    case Write(f, text) => Put(w, f, Assign(CellOf(w, f), text))
    case Release(f, p, leftover) =>
      var w' := Put(w, f, StringModel.Release(CellOf(w, f), p, leftover));
      (match Released(CellOf(w, f), p)
       case None => w'
       case Some(q) => w'.(owner := w.owner[q := Caller]))
    case SetAllocated(f, value) =>
      var w' := Put(w, f, StringModel.SetAllocated(CellOf(w, f), value, w.fields[f].home));
      (match value
       case None => w'.(owner := OwnersWithout(w, f))
       case Some(p) => w'.(owner := OwnersWithout(w, f)[p := NewOwner(w, f)]))
    case ClearTo(f, text) => Put(w, f, StringModel.ClearTo(CellOf(w, f), text))
    case Swap(f, g) =>
      w.(fields := w.fields[f := w.fields[g]][g := w.fields[f]],
         owner := map p | p in w.owner :: SwappedOwner(w.owner[p], f, g))
    case Destroy(f) =>
      w.(store := StringModel.Destroy(CellOf(w, f)), fields := w.fields - {f}, owner := OwnersWithout(w, f))
    case EndArena(a) => End(w, a)
    case CallerNew(p, text) => w.(store := Create(w.store, p, text, true), owner := w.owner[p := Caller])
    case CallerWrite(p, text) =>
      if p in w.store.strings then
        w.(store := w.store.(strings := w.store.strings[p := w.store.strings[p].(text := text)]))
      else w
    case CallerDelete(p) => w.(store := Finalise(w.store, p), owner := w.owner - {p})
  }

  // ---------------------------------------------------------------- plain string variables

  /** A variable of a message in home: unset, or a text. */
  datatype Variable = Variable(value: Option<string>, home: Option<ArenaId>)

  /** held are the caller's own strings. */
  datatype Plain = Plain(vars: map<FieldId, Variable>, held: map<Ptr, string>)

  function ValueOf(w: World, f: FieldId): Option<string>
    requires f in w.fields
  {
    var x := w.fields[f];
    if x.kind == Default || x.ptr !in w.store.strings then None else Some(w.store.strings[x.ptr].text)
  }

  function TextOf(w: World, p: Ptr): string {
    if p in w.store.strings then w.store.strings[p].text else ""
  }

  function View(w: World): Plain {
    Plain(map f | f in w.fields :: Variable(ValueOf(w, f), w.fields[f].home),
          map p | p in w.owner && w.owner[p] == Caller :: TextOf(w, p))
  }

  function Assigned(s: Plain, f: FieldId, value: Option<string>): Plain {
    if f in s.vars then s.(vars := s.vars[f := s.vars[f].(value := value)]) else s
  }

  function ValueIn(s: Plain, f: FieldId): Option<string> {
    if f in s.vars then s.vars[f].value else None
  }

  /** The operation on plain variables. receiver is where a released string is handed to the caller. */
  function PlainApply(s: Plain, op: Op, receiver: Ptr): Plain {
    match op
    case NewField(f, home) => s.(vars := s.vars[f := Variable(None, home)])
    case Set(f, text, _) => Assigned(s, f, Some(text))
    case Mutable(f, initial, _) => if ValueIn(s, f) == None then Assigned(s, f, Some(initial)) else s
    case Write(f, text) => Assigned(s, f, Some(text))
    case Release(f, _, _) =>
      (match ValueIn(s, f)
       case None => s
       case Some(text) => Assigned(s, f, None).(held := s.held[receiver := text]))
    case SetAllocated(f, value) =>
      (match value
       case None => Assigned(s, f, None)
       case Some(p) => Assigned(s, f, if p in s.held then Some(s.held[p]) else None).(held := s.held - {p}))
    case ClearTo(f, text) => if ValueIn(s, f) == None then s else Assigned(s, f, Some(text))
    case Swap(f, g) => Assigned(Assigned(s, f, ValueIn(s, g)), g, ValueIn(s, f))
    case Destroy(f) => s.(vars := s.vars - {f})
    case EndArena(a) => s.(vars := map f | f in s.vars && s.vars[f].home != Some(a) :: s.vars[f])
    case CallerNew(p, text) => s.(held := s.held[p := text])
    case CallerWrite(p, text) => s.(held := s.held[p := text])
    case CallerDelete(p) => s.(held := s.held - {p})
  }

  // ---------------------------------------------------------------- the invariant

  /** A field is at the default, owns its heap string, or uses a string that its arena owns. */
  predicate FieldOk(w: World, f: FieldId)
    requires f in w.fields
  {
    var x := w.fields[f];
    match x.kind
    case Default => x.ptr == EMPTY
    case Allocated => x.home == None && x.ptr in w.owner && w.owner[x.ptr] == OfField(f)
    case MutableArena => x.home.Some? && x.ptr in w.owner && w.owner[x.ptr].OfArena? &&
        w.owner[x.ptr].arena == x.home.value
    case FixedSizeArena => false
  }

  predicate OwnerOk(w: World, p: Ptr)
    requires p in w.owner
  {
    && p in w.store.strings && p != EMPTY && p != NULL && Aligned(p)
    && match w.owner[p]
       case Caller => w.store.strings[p].onHeap
       case OfField(f) => w.store.strings[p].onHeap && f in w.fields && w.fields[f].kind == Allocated &&
           w.fields[f].ptr == p
       case OfArena(a, i) =>
         && a in w.store.cleanups && i < |w.store.cleanups[a]|
         && w.store.cleanups[a][i] == if w.store.strings[p].onHeap then Delete(p) else Destructor(p)
  }

  predicate CleanupOk(w: World, a: ArenaId, i: nat)
    requires a in w.store.cleanups && i < |w.store.cleanups[a]|
  {
    w.store.cleanups[a][i].ptr in w.owner && w.owner[w.store.cleanups[a][i].ptr] == OfArena(a, i)
  }

  predicate Uses(w: World, f: FieldId, p: Ptr) {
    f in w.fields && w.fields[f].kind != Default && w.fields[f].ptr == p
  }

  predicate CountOk(w: World, p: Ptr) {
    w.store.created[p] == w.store.finalised[p] + if p in w.owner then 1 else 0
  }

  predicate DefaultOk(w: World) {
    EMPTY in w.store.strings && w.store.strings[EMPTY].text == ""
  }

  ghost predicate Inv(w: World) {
    && DefaultOk(w)
    && w.store.strings.Keys == w.owner.Keys + {EMPTY}
    && (forall f :: f in w.fields ==> FieldOk(w, f))
    && (forall p :: p in w.owner ==> OwnerOk(w, p))
    && (forall a, i :: a in w.store.cleanups && 0 <= i < |w.store.cleanups[a]| ==> CleanupOk(w, a, i))
    && (forall f, g, p :: Uses(w, f, p) && Uses(w, g, p) ==> f == g)
    && (forall p :: CountOk(w, p))
  }

  lemma FieldAt(w: World, f: FieldId)
    requires Inv(w) && f in w.fields
    ensures FieldOk(w, f)
    ensures w.fields[f].kind != Default ==> w.fields[f].ptr in w.owner
  {
    hide OwnerOk, CleanupOk, CountOk, Uses, DefaultOk;
  }

  lemma OwnerAt(w: World, p: Ptr)
    requires Inv(w) && p in w.owner
    ensures OwnerOk(w, p)
  {
    hide FieldOk, CleanupOk, CountOk, Uses, OwnerOk, DefaultOk;
  }

  lemma CleanupAt(w: World, a: ArenaId, i: nat)
    requires Inv(w) && a in w.store.cleanups && i < |w.store.cleanups[a]|
    ensures CleanupOk(w, a, i)
  {
    hide FieldOk, OwnerOk, CleanupOk, CountOk, Uses, DefaultOk;
  }

  lemma CountAt(w: World, p: Ptr)
    requires Inv(w)
    ensures CountOk(w, p) && DefaultOk(w) && w.store.strings.Keys == w.owner.Keys + {EMPTY}
  {
    hide FieldOk, OwnerOk, CleanupOk, CountOk, Uses, DefaultOk;
  }

  lemma UsesAt(w: World, f: FieldId, g: FieldId, p: Ptr)
    requires Inv(w) && Uses(w, f, p) && Uses(w, g, p)
    ensures f == g
  {
    hide FieldOk, OwnerOk, CleanupOk, CountOk, Uses, DefaultOk;
  }

  /** A string that is new or the caller's is not the default, and no field uses it. */
  lemma FreeToUse(w: World, p: Ptr, g: FieldId)
    requires Inv(w) && (FreshPtr(w.store, p) || Held(w, p))
    ensures Aligned(p) && p != EMPTY && p != NULL && !Uses(w, g, p)
  {
    if Held(w, p) { OwnerAt(w, p); }
    if g in w.fields { FieldAt(w, g); }
    CountAt(w, p);
    hide Inv, CountOk, DefaultOk, Aligned;
  }

  // ---------------------------------------------------------------- views, pointwise

  predicate SameField(w: World, w': World, g: FieldId) {
    g in w.fields && g in w'.fields && w'.fields[g].home == w.fields[g].home && ValueOf(w', g) == ValueOf(w, g)
  }

  lemma SameVars(w: World, w': World)
    requires w'.fields.Keys == w.fields.Keys && forall g :: g in w.fields ==> SameField(w, w', g)
    ensures View(w').vars == View(w).vars
  {
    hide ValueOf;
  }

  lemma ChangedVar(w: World, w': World, f: FieldId, value: Option<string>)
    requires w'.fields.Keys == w.fields.Keys && f in w.fields && w'.fields[f].home == w.fields[f].home
    requires ValueOf(w', f) == value && forall g :: g in w.fields && g != f ==> SameField(w, w', g)
    ensures View(w').vars == Assigned(View(w), f, value).vars
  {
    hide ValueOf;
  }

  lemma HeldIs(w: World, held: map<Ptr, string>)
    requires forall q :: Held(w, q) <==> q in held
    requires forall q :: q in held ==> held[q] == TextOf(w, q)
    ensures View(w).held == held
  {
    hide TextOf;
    assert forall q :: q in View(w).held <==> Held(w, q);
  }

  lemma HeldOf(w: World, q: Ptr)
    ensures Held(w, q) <==> q in View(w).held
    ensures Held(w, q) ==> View(w).held[q] == TextOf(w, q)
  {
    hide TextOf, ValueOf;
  }

  // ---------------------------------------------------------------- the elementary changes

  /** Field f, at the default, takes a string that is new or the caller's. */
  function Attach(w: World, f: FieldId, p: Ptr, obj: StringObject): World
    requires f in w.fields
  {
    var home := w.fields[f].home;
    w.(store := Store(w.store.strings[p := obj],
                      match home
                      case None => w.store.cleanups
                      case Some(a) => w.store.cleanups[a := CleanupsOf(w.store, a) +
                          [if obj.onHeap then Delete(p) else Destructor(p)]],
                      if p in w.store.strings then w.store.created else w.store.created + multiset{p},
                      w.store.finalised),
       fields := w.fields[f := Field(if home == None then Allocated else MutableArena, p, home)],
       owner := w.owner[p := NewOwner(w, f)])
  }

  predicate CanAttach(w: World, f: FieldId, p: Ptr, obj: StringObject) {
    && f in w.fields && w.fields[f].kind == Default && (w.fields[f].home == None ==> obj.onHeap)
    && (FreshPtr(w.store, p) || Held(w, p))
  }

  lemma AttachFields(w: World, f: FieldId, p: Ptr, obj: StringObject, g: FieldId)
    requires Inv(w) && CanAttach(w, f, p, obj) && g in w.fields
    ensures FieldOk(Attach(w, f, p, obj), g)
  {
    FieldAt(w, g);
    FreeToUse(w, p, g);
    hide Inv;
  }

  lemma AttachOwner(w: World, f: FieldId, p: Ptr, obj: StringObject)
    requires Inv(w) && CanAttach(w, f, p, obj)
    ensures OwnerOk(Attach(w, f, p, obj), p)
  {
    FreeToUse(w, p, f);
    hide Inv, Uses;
  }

  lemma AttachOwners(w: World, f: FieldId, p: Ptr, obj: StringObject, q: Ptr)
    requires Inv(w) && CanAttach(w, f, p, obj) && q in Attach(w, f, p, obj).owner
    ensures OwnerOk(Attach(w, f, p, obj), q)
  {
    if q == p {
      AttachOwner(w, f, p, obj);
    } else {
      OwnerAt(w, q);
    }
    hide Inv, Aligned;
  }

  lemma AttachCleanups(w: World, f: FieldId, p: Ptr, obj: StringObject, a: ArenaId, i: nat)
    requires Inv(w) && CanAttach(w, f, p, obj)
    requires var c := Attach(w, f, p, obj).store.cleanups; a in c && i < |c[a]|
    ensures CleanupOk(Attach(w, f, p, obj), a, i)
  {
    if a in w.store.cleanups && i < |w.store.cleanups[a]| {
      CleanupAt(w, a, i);
    }
    CountAt(w, p);
    hide Inv;
  }

  lemma AttachUses(w: World, f: FieldId, p: Ptr, obj: StringObject, g: FieldId, h: FieldId, q: Ptr)
    requires Inv(w) && CanAttach(w, f, p, obj)
    requires Uses(Attach(w, f, p, obj), g, q) && Uses(Attach(w, f, p, obj), h, q)
    ensures g == h
  {
    FreeToUse(w, p, g);
    FreeToUse(w, p, h);
    if g != f && h != f {
      UsesAt(w, g, h, q);
    }
    hide Inv;
  }

  lemma AttachCounts(w: World, f: FieldId, p: Ptr, obj: StringObject, q: Ptr)
    requires Inv(w) && CanAttach(w, f, p, obj)
    ensures var w' := Attach(w, f, p, obj);
      CountOk(w', q) && DefaultOk(w') && w'.store.strings.Keys == w'.owner.Keys + {EMPTY}
  {
    FreeToUse(w, p, f);
    CountAt(w, q);
    hide Inv;
  }

  lemma AttachKeepsInv(w: World, f: FieldId, p: Ptr, obj: StringObject)
    requires Inv(w) && CanAttach(w, f, p, obj)
    ensures Inv(Attach(w, f, p, obj))
  {
    hide OwnerOk, CleanupOk, CountOk, Uses, FieldOk, DefaultOk, NewOwner;
    var w' := Attach(w, f, p, obj);
    assert w'.fields.Keys == w.fields.Keys + {f};
    forall q ensures CountOk(w', q) { AttachCounts(w, f, p, obj, q); }
    AttachCounts(w, f, p, obj, p);
    hide Attach;
    forall g | g in w'.fields ensures FieldOk(w', g) { AttachFields(w, f, p, obj, g); }
    forall q | q in w'.owner ensures OwnerOk(w', q) { AttachOwners(w, f, p, obj, q); }
    forall a, i | a in w'.store.cleanups && 0 <= i < |w'.store.cleanups[a]| ensures CleanupOk(w', a, i) {
      AttachCleanups(w, f, p, obj, a, i);
    }
    forall g, h, q | Uses(w', g, q) && Uses(w', h, q) ensures g == h { AttachUses(w, f, p, obj, g, h, q); }
  }

  lemma AttachVars(w: World, f: FieldId, p: Ptr, obj: StringObject)
    requires Inv(w) && CanAttach(w, f, p, obj)
    ensures View(Attach(w, f, p, obj)).vars == Assigned(View(w), f, Some(obj.text)).vars
  {
    var w' := Attach(w, f, p, obj);
    forall g | g in w.fields && g != f ensures SameField(w, w', g) { FreeToUse(w, p, g); }
    hide Inv, CanAttach, View;
    ChangedVar(w, w', f, Some(obj.text));
  }

  lemma AttachView(w: World, f: FieldId, p: Ptr, obj: StringObject)
    requires Inv(w) && CanAttach(w, f, p, obj)
    ensures View(Attach(w, f, p, obj)) == Assigned(View(w), f, Some(obj.text)).(held := View(w).held - {p})
  {
    AttachVars(w, f, p, obj);
    var w' := Attach(w, f, p, obj);
    forall q ensures Held(w', q) <==> q in View(w).held && q != p { HeldOf(w, q); }
    forall q | q in View(w).held && q != p ensures View(w).held[q] == TextOf(w', q) { HeldOf(w, q); }
    hide Inv, CanAttach, View, Attach;
    HeldIs(w', View(w).held - {p});
  }

  /** Field f goes back to the default; a heap string it owned is the caller's now. */
  function Detach(w: World, f: FieldId): World
    requires f in w.fields
  {
    w.(fields := w.fields[f := Field(Default, EMPTY, w.fields[f].home)],
       owner := if w.fields[f].kind == Allocated then w.owner[w.fields[f].ptr := Caller] else w.owner)
  }

  lemma DetachKeepsInv(w: World, f: FieldId)
    requires Inv(w) && f in w.fields
    ensures Inv(Detach(w, f))
  {
    var w' := Detach(w, f);
    FieldAt(w, f);
    assert w'.owner.Keys == w.owner.Keys;
    assert DefaultOk(w') && w'.store.strings.Keys == w'.owner.Keys + {EMPTY};
    hide Inv, DefaultOk;
    forall q ensures CountOk(w', q) { CountAt(w, q); }
    hide CountOk;
    forall g | g in w'.fields ensures FieldOk(w', g) {
      FieldAt(w, g);
      if g != f && Uses(w, g, w.fields[f].ptr) && Uses(w, f, w.fields[f].ptr) { UsesAt(w, f, g, w.fields[f].ptr); }
    }
    forall q | q in w'.owner ensures OwnerOk(w', q) { OwnerAt(w, q); }
    hide OwnerOk, FieldOk;
    forall a, i | a in w'.store.cleanups && 0 <= i < |w'.store.cleanups[a]|
        ensures CleanupOk(w', a, i) { CleanupAt(w, a, i); }
    hide CleanupOk;
    forall g, h, q | Uses(w', g, q) && Uses(w', h, q) ensures g == h { UsesAt(w, g, h, q); }
    assert Inv(w') by { hide Uses, Detach; InvFrom(w'); }
  }

  /** Inv from its parts, with the parts left closed. */
  lemma InvFrom(w: World)
    requires DefaultOk(w) && w.store.strings.Keys == w.owner.Keys + {EMPTY}
    requires forall f :: f in w.fields ==> FieldOk(w, f)
    requires forall p :: p in w.owner ==> OwnerOk(w, p)
    requires forall a, i :: a in w.store.cleanups && 0 <= i < |w.store.cleanups[a]| ==> CleanupOk(w, a, i)
    requires forall f, g, p :: Uses(w, f, p) && Uses(w, g, p) ==> f == g
    requires forall p :: CountOk(w, p)
    ensures Inv(w)
  {
    hide FieldOk, OwnerOk, CleanupOk, Uses, CountOk, DefaultOk;
  }

  lemma DetachView(w: World, f: FieldId)
    requires Inv(w) && f in w.fields
    ensures View(Detach(w, f)).vars == Assigned(View(w), f, None).vars
    ensures View(Detach(w, f)).held ==
            if w.fields[f].kind == Allocated then View(w).held[w.fields[f].ptr := TextOf(w, w.fields[f].ptr)]
                else View(w).held
  {
    var w' := Detach(w, f);
    var p := w.fields[f].ptr;
    FieldAt(w, f);
    hide Inv, View;
    forall g | g in w.fields && g != f ensures SameField(w, w', g) {}
    ChangedVar(w, w', f, None);
    forall q ensures Held(w', q) <==> q in View(w).held || (w.fields[f].kind == Allocated && q == p) { HeldOf(w, q); }
    forall q | q in View(w).held ensures View(w).held[q] == TextOf(w', q) &&
        TextOf(w', p) == TextOf(w, p) { HeldOf(w, q); }
    hide Detach;
    HeldIs(w', if w.fields[f].kind == Allocated then View(w).held[p := TextOf(w, p)] else View(w).held);
  }

  /** The caller deletes a string of its own. */
  function Free(w: World, p: Ptr): World {
    w.(store := Finalise(w.store, p), owner := w.owner - {p})
  }

  lemma FreeKeepsInv(w: World, p: Ptr)
    requires Inv(w) && Held(w, p)
    ensures Inv(Free(w, p))
  {
    var w' := Free(w, p);
    FreeToUse(w, p, 0);
    CountAt(w, p);
    assert DefaultOk(w') && w'.store.strings.Keys == w'.owner.Keys + {EMPTY};
    hide Inv, DefaultOk;
    forall q ensures CountOk(w', q) { CountAt(w, q); }
    hide CountOk;
    forall g | g in w'.fields ensures FieldOk(w', g) { FieldAt(w, g); FreeToUse(w, p, g); }
    forall q | q in w'.owner ensures OwnerOk(w', q) { OwnerAt(w, q); }
    hide OwnerOk, FieldOk;
    forall a, i | a in w'.store.cleanups && 0 <= i < |w'.store.cleanups[a]|
        ensures CleanupOk(w', a, i) { CleanupAt(w, a, i); }
    hide CleanupOk;
    forall g, h, q | Uses(w', g, q) && Uses(w', h, q) ensures g == h { UsesAt(w, g, h, q); }
    assert Inv(w') by { hide Uses, Free; InvFrom(w'); }
  }

  lemma FreeView(w: World, p: Ptr)
    requires Inv(w) && Held(w, p)
    ensures View(Free(w, p)) == View(w).(held := View(w).held - {p})
  {
    var w' := Free(w, p);
    forall g | g in w.fields ensures SameField(w, w', g) { FreeToUse(w, p, g); }
    hide Inv, View;
    SameVars(w, w');
    forall q ensures Held(w', q) <==> q in View(w).held && q != p { HeldOf(w, q); }
    forall q | q in View(w).held && q != p ensures View(w).held[q] == TextOf(w', q) { HeldOf(w, q); }
    hide Free;
    HeldIs(w', View(w).held - {p});
  }

  /** The caller makes a heap string. */
  function NewHeld(w: World, p: Ptr, text: string): World {
    w.(store := Create(w.store, p, text, true), owner := w.owner[p := Caller])
  }

  lemma NewHeldOwnerOk(w: World, p: Ptr, text: string, q: Ptr)
    requires Inv(w) && FreshPtr(w.store, p) && q in NewHeld(w, p, text).owner
    ensures OwnerOk(NewHeld(w, p, text), q)
  {
    FreeToUse(w, p, 0);
    if q != p { OwnerAt(w, q); }
    hide Inv, Aligned;
  }

  lemma NewHeldKeepsInv(w: World, p: Ptr, text: string)
    requires Inv(w) && FreshPtr(w.store, p)
    ensures Inv(NewHeld(w, p, text))
  {
    var w' := NewHeld(w, p, text);
    FreeToUse(w, p, 0);
    CountAt(w, p);
    assert DefaultOk(w') && w'.store.strings.Keys == w'.owner.Keys + {EMPTY};
    hide Inv, DefaultOk, Aligned;
    forall q ensures CountOk(w', q) { CountAt(w, q); }
    hide CountOk;
    forall g | g in w'.fields ensures FieldOk(w', g) { FieldAt(w, g); FreeToUse(w, p, g); }
    forall q | q in w'.owner ensures OwnerOk(w', q) { NewHeldOwnerOk(w, p, text, q); }
    hide OwnerOk, FieldOk;
    forall a, i | a in w'.store.cleanups && 0 <= i < |w'.store.cleanups[a]|
        ensures CleanupOk(w', a, i) { CleanupAt(w, a, i); }
    hide CleanupOk;
    forall g, h, q | Uses(w', g, q) && Uses(w', h, q) ensures g == h { UsesAt(w, g, h, q); }
    assert Inv(w') by { hide Uses, NewHeld; InvFrom(w'); }
  }

  lemma NewHeldView(w: World, p: Ptr, text: string)
    requires Inv(w) && FreshPtr(w.store, p)
    ensures View(NewHeld(w, p, text)) == View(w).(held := View(w).held[p := text])
  {
    var w' := NewHeld(w, p, text);
    forall g | g in w.fields ensures SameField(w, w', g) { FreeToUse(w, p, g); }
    CountAt(w, p);
    hide Inv, View, Aligned;
    SameVars(w, w');
    forall q ensures Held(w', q) <==> q in View(w).held || q == p { HeldOf(w, q); }
    forall q | q in View(w).held && q != p ensures View(w).held[q] == TextOf(w', q) { HeldOf(w, q); }
    hide NewHeld;
    HeldIs(w', View(w).held[p := text]);
  }

  /** Writing to a string that has an owner. */
  function WriteText(w: World, p: Ptr, text: string): World {
    if p in w.store.strings then w.(store :=
        w.store.(strings := w.store.strings[p := w.store.strings[p].(text := text)])) else w
  }

  lemma WriteKeepsInv(w: World, p: Ptr, text: string)
    requires Inv(w) && p in w.owner
    ensures Inv(WriteText(w, p, text))
  {
    var w' := WriteText(w, p, text);
    OwnerAt(w, p);
    CountAt(w, p);
    assert DefaultOk(w') && w'.store.strings.Keys == w'.owner.Keys + {EMPTY};
    hide Inv, DefaultOk, Aligned;
    forall q ensures CountOk(w', q) { CountAt(w, q); }
    hide CountOk;
    forall g | g in w'.fields ensures FieldOk(w', g) { FieldAt(w, g); }
    forall q | q in w'.owner ensures OwnerOk(w', q) { OwnerAt(w, q); }
    hide OwnerOk, FieldOk;
    forall a, i | a in w'.store.cleanups && 0 <= i < |w'.store.cleanups[a]|
        ensures CleanupOk(w', a, i) { CleanupAt(w, a, i); }
    hide CleanupOk;
    forall g, h, q | Uses(w', g, q) && Uses(w', h, q) ensures g == h { UsesAt(w, g, h, q); }
    assert Inv(w') by { hide Uses, WriteText; InvFrom(w'); }
  }

  /** The field that uses the string changes, and no other; the caller's own strings do not. */
  lemma WriteFieldView(w: World, f: FieldId, text: string)
    requires Inv(w) && f in w.fields && w.fields[f].kind != Default
    ensures View(WriteText(w, w.fields[f].ptr, text)) == Assigned(View(w), f, Some(text))
  {
    var p := w.fields[f].ptr;
    var w' := WriteText(w, p, text);
    FieldAt(w, f);
    CountAt(w, p);
    forall g | g in w.fields && g != f ensures SameField(w, w', g) {
      if Uses(w, g, p) { UsesAt(w, f, g, p); }
    }
    hide Inv, View;
    ChangedVar(w, w', f, Some(text));
    forall q ensures Held(w', q) <==> q in View(w).held { HeldOf(w, q); }
    forall q | q in View(w).held ensures View(w).held[q] == TextOf(w', q) { HeldOf(w, q); }
    hide WriteText;
    HeldIs(w', View(w).held);
  }

  lemma WriteHeldView(w: World, p: Ptr, text: string)
    requires Inv(w) && Held(w, p)
    ensures View(WriteText(w, p, text)) == View(w).(held := View(w).held[p := text])
  {
    var w' := WriteText(w, p, text);
    CountAt(w, p);
    forall g | g in w.fields ensures SameField(w, w', g) { FreeToUse(w, p, g); }
    hide Inv, View;
    SameVars(w, w');
    forall q ensures Held(w', q) <==> q in View(w).held || q == p { HeldOf(w, q); }
    forall q | q in View(w).held && q != p ensures View(w).held[q] == TextOf(w', q) { HeldOf(w, q); }
    hide WriteText;
    HeldIs(w', View(w).held[p := text]);
  }

  function Swapped(w: World, f: FieldId, g: FieldId): World
    requires f in w.fields && g in w.fields
  {
    w.(fields := w.fields[f := w.fields[g]][g := w.fields[f]],
       owner := map p | p in w.owner :: SwappedOwner(w.owner[p], f, g))
  }

  lemma SwapFieldOk(w: World, f: FieldId, g: FieldId, h: FieldId)
    requires Inv(w) && f in w.fields && g in w.fields && w.fields[f].home == w.fields[g].home && h in w.fields
    ensures FieldOk(Swapped(w, f, g), h)
  {
    var w' := Swapped(w, f, g);
    var o := if h == f then g else if h == g then f else h;
    FieldAt(w, o);
    hide Inv;
    assert w'.fields[h] == w.fields[o] && w'.owner.Keys == w.owner.Keys;
    assert SwappedOwner(OfField(o), f, g) == OfField(h);
  }

  lemma SwapOwnerOk(w: World, f: FieldId, g: FieldId, q: Ptr)
    requires Inv(w) && f in w.fields && g in w.fields && q in w.owner
    ensures q in Swapped(w, f, g).owner && OwnerOk(Swapped(w, f, g), q)
  {
    OwnerAt(w, q);
    hide Inv, Aligned;
  }

  lemma SwapKeepsInv(w: World, f: FieldId, g: FieldId)
    requires Inv(w) && f in w.fields && g in w.fields && w.fields[f].home == w.fields[g].home
    ensures Inv(Swapped(w, f, g))
  {
    var w' := Swapped(w, f, g);
    CountAt(w, EMPTY);
    assert w'.owner.Keys == w.owner.Keys && w'.fields.Keys == w.fields.Keys && w'.store == w.store;
    assert DefaultOk(w') && w'.store.strings.Keys == w'.owner.Keys + {EMPTY};
    hide Inv, DefaultOk, FieldOk, OwnerOk;
    forall q ensures CountOk(w', q) { CountAt(w, q); }
    hide CountOk;
    forall h, k, q | Uses(w', h, q) && Uses(w', k, q) ensures h == k {
      UsesAt(w, if h == f then g else if h == g then f else h, if k == f then g else if k == g then f else k, q);
    }
    hide Uses;
    forall a, i | a in w'.store.cleanups && 0 <= i < |w'.store.cleanups[a]|
        ensures CleanupOk(w', a, i) { CleanupAt(w, a, i); }
    hide CleanupOk, Swapped;
    forall h | h in w'.fields ensures FieldOk(w', h) { SwapFieldOk(w, f, g, h); }
    forall q | q in w'.owner ensures OwnerOk(w', q) { SwapOwnerOk(w, f, g, q); }
    InvFrom(w');
  }

  lemma SwapView(w: World, f: FieldId, g: FieldId)
    requires f in w.fields && g in w.fields && w.fields[f].home == w.fields[g].home
    ensures View(Swapped(w, f, g)) == Assigned(Assigned(View(w), f, ValueIn(View(w), g)), g, ValueIn(View(w), f))
  {
    var w' := Swapped(w, f, g);
    assert ValueOf(w', f) == ValueOf(w, g) && ValueOf(w', g) == ValueOf(w, f);
    forall h | h in w.fields && h != f && h != g ensures SameField(w, w', h) {}
    assert View(w').vars == Assigned(Assigned(View(w), f, ValueIn(View(w), g)), g, ValueIn(View(w), f)).vars by {
      hide ValueOf;
    }
    forall q ensures Held(w', q) <==> q in View(w).held { HeldOf(w, q); }
    forall q | q in View(w).held ensures View(w).held[q] == TextOf(w', q) { HeldOf(w, q); }
    hide Swapped, View;
    HeldIs(w', View(w).held);
  }

  function Added(w: World, f: FieldId, home: Option<ArenaId>): World {
    w.(fields := w.fields[f := Field(Default, EMPTY, home)])
  }

  function Removed(w: World, f: FieldId): World {
    w.(fields := w.fields - {f})
  }

  lemma AddKeepsInv(w: World, f: FieldId, home: Option<ArenaId>)
    requires Inv(w) && f !in w.fields
    ensures Inv(Added(w, f, home))
  {
    var w' := Added(w, f, home);
    CountAt(w, EMPTY);
    assert DefaultOk(w') && w'.store.strings.Keys == w'.owner.Keys + {EMPTY};
    hide Inv, Aligned, DefaultOk;
    forall q ensures CountOk(w', q) { CountAt(w, q); }
    hide CountOk;
    forall h | h in w'.fields ensures FieldOk(w', h) { if h != f { FieldAt(w, h); } }
    hide FieldOk;
    forall q | q in w'.owner ensures OwnerOk(w', q) { OwnerAt(w, q); }
    hide OwnerOk;
    forall a, i | a in w'.store.cleanups && 0 <= i < |w'.store.cleanups[a]|
        ensures CleanupOk(w', a, i) { CleanupAt(w, a, i); }
    hide CleanupOk;
    forall h, k, q | Uses(w', h, q) && Uses(w', k, q) ensures h == k { UsesAt(w, h, k, q); }
    hide Uses, Added;
    InvFrom(w');
  }

  lemma AddView(w: World, f: FieldId, home: Option<ArenaId>)
    requires f !in w.fields
    ensures View(Added(w, f, home)) == View(w).(vars := View(w).vars[f := Variable(None, home)])
  {
    var w' := Added(w, f, home);
    assert forall g :: g in w.fields ==> SameField(w, w', g);
    assert ValueOf(w', f) == None;
    assert View(w').vars == View(w).vars[f := Variable(None, home)] by { hide ValueOf; }
    SameHeld(w, w');
  }

  lemma SameHeld(w: World, w': World)
    requires w'.owner == w.owner && w'.store == w.store
    ensures View(w').held == View(w).held
  {
    assert forall q :: TextOf(w', q) == TextOf(w, q);
    hide TextOf, ValueOf;
  }

  lemma RemoveKeepsInv(w: World, f: FieldId)
    requires Inv(w) && f in w.fields && w.fields[f].kind == Default
    ensures Inv(Removed(w, f))
  {
    var w' := Removed(w, f);
    CountAt(w, EMPTY);
    assert DefaultOk(w') && w'.store.strings.Keys == w'.owner.Keys + {EMPTY};
    hide Inv, Aligned, DefaultOk;
    forall q ensures CountOk(w', q) { CountAt(w, q); }
    hide CountOk;
    forall h | h in w'.fields ensures FieldOk(w', h) { FieldAt(w, h); }
    hide FieldOk;
    forall q | q in w'.owner ensures OwnerOk(w', q) { OwnerAt(w, q); }
    hide OwnerOk;
    forall a, i | a in w'.store.cleanups && 0 <= i < |w'.store.cleanups[a]|
        ensures CleanupOk(w', a, i) { CleanupAt(w, a, i); }
    hide CleanupOk;
    forall h, k, q | Uses(w', h, q) && Uses(w', k, q) ensures h == k { UsesAt(w, h, k, q); }
    hide Uses, Removed;
    InvFrom(w');
  }

  lemma RemoveView(w: World, f: FieldId)
    ensures View(Removed(w, f)) == View(w).(vars := View(w).vars - {f})
  {
    var w' := Removed(w, f);
    assert forall g :: g in w'.fields ==> ValueOf(w', g) == ValueOf(w, g);
    assert View(w').vars == View(w).vars - {f} by { hide ValueOf; }
    SameHeld(w, w');
  }

  // ---------------------------------------------------------------- the end of an arena

  predicate OwnedBelow(w: World, a: ArenaId, k: nat, p: Ptr) {
    p in w.owner && w.owner[p].OfArena? && w.owner[p].arena == a && w.owner[p].entry < k
  }

  lemma NoPointers(w: World, a: ArenaId, p: Ptr)
    requires a in w.store.cleanups
    ensures multiset(Pointers(w.store.cleanups[a][..0]))[p] == 0 && !OwnedBelow(w, a, 0, p)
  {
  }

  lemma OneMoreOwned(w: World, a: ArenaId, k: nat, p: Ptr)
    requires Inv(w) && a in w.store.cleanups && 0 < k <= |w.store.cleanups[a]|
    ensures OwnedBelow(w, a, k, p) <==> OwnedBelow(w, a, k - 1, p) || w.store.cleanups[a][k - 1].ptr == p
    ensures !(OwnedBelow(w, a, k - 1, p) && w.store.cleanups[a][k - 1].ptr == p)
  {
    CleanupAt(w, a, k - 1);
    if p in w.owner { OwnerAt(w, p); }
    hide Inv, Aligned;
  }

  lemma PointersPush(list: seq<Cleanup>, k: nat, p: Ptr)
    requires 0 < k <= |list|
    ensures multiset(Pointers(list[..k]))[p] == multiset(Pointers(list[..k - 1]))[p] + if list[k - 1].ptr == p
        then 1 else 0
  {
    assert list[..k][..k - 1] == list[..k - 1];
  }

  /** A string is on the cleanup list once if the arena owns it, and not at all otherwise. */
  lemma {:induction false} PointersCount(w: World, a: ArenaId, k: nat, p: Ptr)
    requires Inv(w) && a in w.store.cleanups && k <= |w.store.cleanups[a]|
    ensures multiset(Pointers(w.store.cleanups[a][..k]))[p] == if OwnedBelow(w, a, k, p) then 1 else 0
  {
    hide *;
    if k == 0 {
      NoPointers(w, a, p);
    } else {
      PointersCount(w, a, k - 1, p);
      PointersPush(w.store.cleanups[a], k, p);
      OneMoreOwned(w, a, k, p);
    }
  }

  lemma EndedBy(w: World, a: ArenaId, p: Ptr)
    requires Inv(w)
    ensures var gone := Pointers(CleanupsOf(w.store, a));
      && (p in gone <==> p in w.owner && w.owner[p].OfArena? && w.owner[p].arena == a)
      && multiset(gone)[p] == if p in gone then 1 else 0
  {
    if p in w.owner { OwnerAt(w, p); }
    if a in w.store.cleanups {
      var list := w.store.cleanups[a];
      assert list[..|list|] == list;
      PointersCount(w, a, |list|, p);
      assert p in Pointers(list) <==> p in multiset(Pointers(list));
    }
  }

  lemma EndOwnerOk(w: World, a: ArenaId, q: Ptr)
    requires Inv(w) && q in End(w, a).owner
    ensures OwnerOk(End(w, a), q)
  {
    OwnerAt(w, q);
    EndedBy(w, a, q);
    if w.owner[q].OfField? { HeapFieldStays(w, a, q); }
    hide Inv, Aligned, Pointers;
  }

  lemma EndFieldOk(w: World, a: ArenaId, h: FieldId)
    requires Inv(w) && h in End(w, a).fields
    ensures FieldOk(End(w, a), h)
  {
    FieldAt(w, h);
    EndedBy(w, a, w.fields[h].ptr);
    hide Inv, Pointers;
  }

  lemma EndKeepsInv(w: World, a: ArenaId)
    requires Inv(w)
    ensures Inv(End(w, a))
  {
    var w' := End(w, a);
    CountAt(w, EMPTY);
    EndedBy(w, a, EMPTY);
    if EMPTY in w.owner { OwnerAt(w, EMPTY); }
    hide Inv, Aligned, Pointers, OwnerOk, FieldOk;
    assert DefaultOk(w') && w'.store.strings.Keys == w'.owner.Keys + {EMPTY};
    hide DefaultOk;
    forall q ensures CountOk(w', q) { CountAt(w, q); EndedBy(w, a, q); }
    hide CountOk;
    forall b, i | b in w'.store.cleanups && 0 <= i < |w'.store.cleanups[b]| ensures CleanupOk(w', b, i) {
      CleanupAt(w, b, i);
      EndedBy(w, a, w.store.cleanups[b][i].ptr);
    }
    hide CleanupOk;
    forall h, k, q | Uses(w', h, q) && Uses(w', k, q) ensures h == k { UsesAt(w, h, k, q); }
    hide Uses, End;
    forall h | h in w'.fields ensures FieldOk(w', h) { EndFieldOk(w, a, h); }
    forall q | q in w'.owner ensures OwnerOk(w', q) { EndOwnerOk(w, a, q); }
    InvFrom(w');
  }

  /** A field that owns a heap string is on no arena, so it outlives all of them. */
  lemma HeapFieldStays(w: World, a: ArenaId, q: Ptr)
    requires Inv(w) && q in w.owner && w.owner[q].OfField?
    ensures w.owner[q].field in w.fields && w.fields[w.owner[q].field].home == None
  {
    OwnerAt(w, q);
    FieldAt(w, w.owner[q].field);
  }

  lemma EndValue(w: World, a: ArenaId, g: FieldId)
    requires Inv(w) && g in End(w, a).fields
    ensures ValueOf(End(w, a), g) == ValueOf(w, g)
  {
    FieldAt(w, g);
    EndedBy(w, a, w.fields[g].ptr);
    hide Inv, Pointers;
  }

  lemma EndView(w: World, a: ArenaId)
    requires Inv(w)
    ensures View(End(w, a)) == PlainApply(View(w), EndArena(a), NULL)
  {
    var w' := End(w, a);
    forall g | g in w'.fields ensures ValueOf(w', g) == ValueOf(w, g) { EndValue(w, a, g); }
    forall q | Held(w, q) ensures Held(w', q) && TextOf(w', q) == TextOf(w, q) { EndedBy(w, a, q); }
    hide Inv, Pointers;
    assert View(w').vars == PlainApply(View(w), EndArena(a), NULL).vars by { hide ValueOf; }
    forall q ensures Held(w', q) <==> q in View(w).held { HeldOf(w, q); }
    forall q | q in View(w).held ensures View(w).held[q] == TextOf(w', q) { HeldOf(w, q); }
    hide End, View;
    HeldIs(w', View(w).held);
  }
}
