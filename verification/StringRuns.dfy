/**
 Every run of field operations: each operation is a few elementary changes of ownership, so it keeps the ownership
 invariant and does to the fields what it would do to plain string variables.
 */
module StringRuns {
  import opened Wrappers
  import opened TaggedString
  import opened StringModel
  import opened StringOwnership

  /** The tag of a field can be read back, and its queries answer by its kind. */
  lemma FieldReadsBack(w: World, f: FieldId)
    requires Inv(w) && f in w.fields
    ensures ReadsBack(w.fields[f].kind, w.fields[f].ptr) && w.fields[f].kind != FixedSizeArena
  {
    FieldAt(w, f);
    if w.fields[f].kind != Default { OwnerAt(w, w.fields[f].ptr); }
    assert Aligned(EMPTY);
    hide Inv, Aligned;
    TagRoundTrip(w.fields[f].kind, w.fields[f].ptr);
  }

  lemma DefaultReads()
    ensures TypeOf(DEFAULT_TAGGED) == Default && Get(DEFAULT_TAGGED) == EMPTY
  {
    TagRoundTrip(Default, EMPTY);
  }

  // ---------------------------------------------------------------- operations as elementary changes

  lemma SameFields<K, V>(m: map<K, V>, k: K, v: V)
    requires k in m && m[k] == v
    ensures m[k := v] == m
  {
  }

  /** Assigning through the pointer of a field that is not at the default. */
  lemma AssignIsWrite(w: World, f: FieldId, text: string)
    requires Inv(w) && f in w.fields && w.fields[f].kind != Default
    ensures Put(w, f, Assign(CellOf(w, f), text)) == WriteText(w, w.fields[f].ptr, text)
  {
    FieldReadsBack(w, f);
    hide Inv, TagAs, Get, TypeOf, IsDefault, IsMutable, IsArena;
    SameFields(w.fields, f, w.fields[f]);
  }

  /** A new string for a field at the default. */
  lemma NewIsAttach(w: World, f: FieldId, p: Ptr, text: string)
    requires Inv(w) && f in w.fields && w.fields[f].kind == Default && FreshPtr(w.store, p)
    ensures Put(w, f, NewString(CellOf(w, f), w.fields[f].home, p, text)).(owner := w.owner[p := NewOwner(w, f)]) ==
            Attach(w, f, p, StringObject(text, w.fields[f].home == None))
  {
    TagRoundTrip(Allocated, p);
    TagRoundTrip(MutableArena, p);
    hide Inv, TagAs, Get, TypeOf, IsDefault, IsMutable, IsArena, Aligned, NewOwner;
  }

  lemma SetIs(w: World, op: Op)
    requires Inv(w) && Enabled(w, op) && op.Set?
    ensures Apply(w, op) == if w.fields[op.f].kind == Default
                            then Attach(w, op.f, op.p, StringObject(op.text, w.fields[op.f].home == None))
                            else WriteText(w, w.fields[op.f].ptr, op.text)
  {
    FieldReadsBack(w, op.f);
    hide TagAs, Get, TypeOf, IsDefault, IsMutable, IsArena, Inv, Attach, WriteText, NewString, Assign, NewOwner;
    if w.fields[op.f].kind == Default {
      NewIsAttach(w, op.f, op.p, op.text);
    } else {
      AssignIsWrite(w, op.f, op.text);
    }
  }

  lemma MutableIs(w: World, op: Op)
    requires Inv(w) && Enabled(w, op) && op.Mutable?
    ensures Apply(w, op) == if w.fields[op.f].kind == Default
                            then Attach(w, op.f, op.p, StringObject(op.initial, w.fields[op.f].home == None)) else w
  {
    FieldReadsBack(w, op.f);
    hide TagAs, Get, TypeOf, IsDefault, IsMutable, IsArena, Inv, Attach, WriteText, NewString, Assign, NewOwner;
    if w.fields[op.f].kind == Default {
      NewIsAttach(w, op.f, op.p, op.initial);
    } else {
      SameFields(w.fields, op.f, w.fields[op.f]);
    }
  }

  lemma ClearIs(w: World, op: Op)
    requires Inv(w) && Enabled(w, op) && op.ClearTo?
    ensures Apply(w, op) == if w.fields[op.f].kind == Default then w else WriteText(w, w.fields[op.f].ptr, op.text)
  {
    FieldReadsBack(w, op.f);
    hide TagAs, Get, TypeOf, IsDefault, IsMutable, IsArena, Inv, WriteText, Assign;
    if w.fields[op.f].kind == Default {
      SameFields(w.fields, op.f, w.fields[op.f]);
    } else {
      AssignIsWrite(w, op.f, op.text);
    }
  }

  /** Release hands over a heap string, or copies out of a string the arena keeps. */
  lemma ReleaseIs(w: World, op: Op)
    requires Inv(w) && Enabled(w, op) && op.Release?
    ensures var x := w.fields[op.f];
      Apply(w, op) ==
      if x.kind == Default then w
      else if x.kind == Allocated then Detach(w, op.f)
      else NewHeld(WriteText(Detach(w, op.f), x.ptr, op.leftover), op.p, TextOf(w, x.ptr))
  {
    FieldReadsBack(w, op.f);
    FieldAt(w, op.f);
    CountAt(w, op.p);
    DefaultReads();
    hide TagAs, Get, TypeOf, IsDefault, IsMutable, IsArena, Inv, CountOk, DefaultOk;
    if w.fields[op.f].kind == Default {
      SameFields(w.fields, op.f, w.fields[op.f]);
    }
  }

  /** What a field owned is the caller's for a moment, and deleted. */
  function Dropped(w: World, f: FieldId): World
    requires f in w.fields
  {
    if w.fields[f].kind == Allocated then Free(Detach(w, f), w.fields[f].ptr) else Detach(w, f)
  }

  lemma DropKeepsInv(w: World, f: FieldId)
    requires Inv(w) && f in w.fields
    ensures Inv(Dropped(w, f))
  {
    DetachKeepsInv(w, f);
    FieldAt(w, f);
    if w.fields[f].kind == Allocated {
      assert Held(Detach(w, f), w.fields[f].ptr);
      hide Inv;
      FreeKeepsInv(Detach(w, f), w.fields[f].ptr);
    }
  }

  lemma AddThenRemove<K, V>(m: map<K, V>, k: K, v: V)
    requires k !in m
    ensures m[k := v] - {k} == m
  {
  }

  lemma DropView(w: World, f: FieldId)
    requires Inv(w) && f in w.fields
    ensures View(Dropped(w, f)) == Assigned(View(w), f, None)
  {
    DetachView(w, f);
    FieldAt(w, f);
    if w.fields[f].kind == Allocated {
      var p, w1 := w.fields[f].ptr, Detach(w, f);
      assert Held(w1, p) && !Held(w, p);
      HeldOf(w, p);
      DetachKeepsInv(w, f);
      FreeView(w1, p);
      hide Inv, View, Detach, Free;
      AddThenRemove(View(w).held, p, TextOf(w, p));
    }
  }

  /** Dropping leaves the caller's own strings alone, and no trace of the one dropped. */
  lemma DropKeepsHeld(w: World, f: FieldId, p: Ptr)
    requires Inv(w) && f in w.fields && Held(w, p)
    ensures Held(Dropped(w, f), p) && p in w.store.strings && TextOf(Dropped(w, f), p) == TextOf(w, p)
    ensures w.store.strings[p].onHeap && Aligned(p)
  {
    OwnerAt(w, p);
    FieldAt(w, f);
    hide Inv, Aligned;
  }

  lemma DestroyIsFinalise(w: World, f: FieldId)
    requires Inv(w) && f in w.fields
    ensures StringModel.Destroy(CellOf(w, f)) == if w.fields[f].kind == Allocated
        then Finalise(w.store, w.fields[f].ptr) else w.store
  {
    FieldReadsBack(w, f);
    GetIfAllocatedExactly(TagAs(w.fields[f].kind, w.fields[f].ptr));
    hide Inv, TagAs, Get, TypeOf, IsDefault, IsMutable, IsArena, GetIfAllocated, Aligned;
  }

  lemma DropIs(w: World, f: FieldId)
    requires Inv(w) && f in w.fields
    ensures Dropped(w, f).fields == w.fields[f := Field(Default, EMPTY, w.fields[f].home)]
    ensures Dropped(w, f).owner == OwnersWithout(w, f)
    ensures Dropped(w, f).store == StringModel.Destroy(CellOf(w, f))
  {
    DestroyIsFinalise(w, f);
    FieldAt(w, f);
    hide Inv, StringModel.Destroy, CellOf;
    if w.fields[f].kind == Allocated {
      assert w.owner[w.fields[f].ptr := Caller] - {w.fields[f].ptr} == w.owner - {w.fields[f].ptr};
    }
  }

  /** Taking over a string of the caller's. */
  lemma InitIsAttach(w: World, f: FieldId, p: Ptr)
    requires Held(w, p) && p in w.store.strings && w.store.strings[p].onHeap && Aligned(p)
    requires f in w.fields && w.fields[f].kind == Default
    ensures Put(w, f, InitAllocated(w.store, p, w.fields[f].home)).(owner := w.owner[p := NewOwner(w, f)]) ==
            Attach(w, f, p, w.store.strings[p])
  {
    TagRoundTrip(Allocated, p);
    TagRoundTrip(MutableArena, p);
    hide TagAs, Get, TypeOf, IsDefault, IsMutable, IsArena, Aligned, NewOwner;
    SameFields(w.store.strings, p, w.store.strings[p]);
  }

  lemma SetAllocatedIs(w: World, op: Op)
    requires Inv(w) && Enabled(w, op) && op.SetAllocated?
    ensures op.value.Some? ==> op.value.value in Dropped(w, op.f).store.strings
    ensures Apply(w, op) ==
      match op.value
      case None => Dropped(w, op.f)
      case Some(p) => Attach(Dropped(w, op.f), op.f, p, Dropped(w, op.f).store.strings[p])
  {
    if op.value.Some? {
      SetToGivenIs(w, op, op.value.value);
    } else {
      DropIs(w, op.f);
      DefaultReads();
    }
    hide Inv, TagAs, Get, TypeOf, StringModel.Destroy, Dropped, OwnersWithout, Attach;
  }

  lemma SetToGivenIs(w: World, op: Op, p: Ptr)
    requires Inv(w) && Enabled(w, op) && op.SetAllocated? && op.value == Some(p)
    ensures p in Dropped(w, op.f).store.strings
    ensures Apply(w, op) == Attach(Dropped(w, op.f), op.f, p, Dropped(w, op.f).store.strings[p])
  {
    var w1 := Dropped(w, op.f);
    DropIs(w, op.f);
    DropKeepsHeld(w, op.f, p);
    DropKeepsInv(w, op.f);
    OwnerAt(w1, p);
    SameOwner(w, op.f);
    hide Inv, TagAs, Get, TypeOf, Aligned, StringModel.Destroy, Dropped, OwnersWithout, InitAllocated, Attach, NewOwner;
    InitIsAttach(w1, op.f, p);
    var c := InitAllocated(w1.store, p, w.fields[op.f].home);
    assert w1.fields[op.f := Field(TypeOf(c.tagged), Get(c.tagged), w.fields[op.f].home)] ==
           w.fields[op.f := Field(TypeOf(c.tagged), Get(c.tagged), w.fields[op.f].home)];
  }

  /** Deleting a string leaves the cleanup lists as they are. */
  lemma SameOwner(w: World, f: FieldId)
    requires f in w.fields
    ensures f in Dropped(w, f).fields && NewOwner(Dropped(w, f), f) == NewOwner(w, f)
  {
  }

  lemma DestroyIs(w: World, op: Op)
    requires Inv(w) && Enabled(w, op) && op.Destroy?
    ensures Apply(w, op) == Removed(Dropped(w, op.f), op.f)
  {
    DropIs(w, op.f);
    hide Inv, StringModel.Destroy, Dropped, OwnersWithout;
    assert w.fields[op.f := Field(Default, EMPTY, w.fields[op.f].home)] - {op.f} == w.fields - {op.f};
  }

  // ---------------------------------------------------------------- one step

  /** Where the caller finds a released string: a heap string is handed over, an arena's is copied to the new one. */
  function Receiver(w: World, op: Op): Ptr {
    if !op.Release? then NULL
    else if op.f in w.fields && w.fields[op.f].kind == Allocated then w.fields[op.f].ptr
    else op.p
  }

  lemma ValueAt(w: World, f: FieldId)
    requires Inv(w) && f in w.fields
    ensures ValueIn(View(w), f) == ValueOf(w, f)
    ensures ValueOf(w, f) == if w.fields[f].kind == Default then None else Some(TextOf(w, w.fields[f].ptr))
  {
    FieldAt(w, f);
    if w.fields[f].kind != Default { OwnerAt(w, w.fields[f].ptr); }
    hide Inv;
  }

  lemma ReleaseStep(w: World, op: Op)
    requires Inv(w) && Enabled(w, op) && op.Release?
    ensures Inv(Apply(w, op)) && View(Apply(w, op)) == PlainApply(View(w), op, Receiver(w, op))
  {
    var x := w.fields[op.f];
    ReleaseIs(w, op);
    FieldAt(w, op.f);
    hide Inv, View, Apply, PlainApply, Detach, WriteText, NewHeld, TextOf, Receiver, Assigned;
    PlainRelease(w, op);
    if x.kind == Allocated {
      DetachKeepsInv(w, op.f);
      DetachView(w, op.f);
    } else if x.kind != Default {
      ArenaReleaseStep(w, op);
    }
  }

  /** What Release does to plain variables, by the kind of the field. */
  lemma PlainRelease(w: World, op: Op)
    requires Inv(w) && Enabled(w, op) && op.Release?
    ensures var x := w.fields[op.f];
            PlainApply(View(w), op, Receiver(w, op)) ==
            if x.kind == Default then View(w)
            else Assigned(View(w), op.f, None).(held :=
              View(w).held[if x.kind == Allocated then x.ptr else op.p := TextOf(w, x.ptr)])
  {
    ValueAt(w, op.f);
    FieldAt(w, op.f);
    assert op.f in View(w).vars;
    hide Inv, View, TextOf, ValueOf;
  }

  /** The string stays with the arena, the caller gets a copy. */
  lemma ArenaReleaseStep(w: World, op: Op)
    requires Inv(w) && Enabled(w, op) && op.Release? && w.fields[op.f].kind == MutableArena
    ensures var q := w.fields[op.f].ptr;
      var w' := NewHeld(WriteText(Detach(w, op.f), q, op.leftover), op.p, TextOf(w, q));
      Inv(w') && View(w') == Assigned(View(w), op.f, None).(held := View(w).held[op.p := TextOf(w, q)])
  {
    var f, q := op.f, w.fields[op.f].ptr;
    var w1 := Detach(w, f);
    var w2 := WriteText(w1, q, op.leftover);
    FieldAt(w, f);
    CountAt(w, q);
    DetachKeepsInv(w, f);
    DetachView(w, f);
    assert w2.store.strings.Keys == w.store.strings.Keys;
    hide Inv, View, Aligned;
    WriteKeepsInv(w1, q, op.leftover);
    UnusedWriteView(w, f, op.leftover);
    NewHeldKeepsInv(w2, op.p, TextOf(w, q));
    NewHeldView(w2, op.p, TextOf(w, q));
  }

  /** Nobody can see what is left in a string the arena keeps. */
  lemma UnusedWriteView(w: World, f: FieldId, text: string)
    requires Inv(w) && f in w.fields && w.fields[f].kind == MutableArena
    ensures View(WriteText(Detach(w, f), w.fields[f].ptr, text)) == View(Detach(w, f))
  {
    var w1, q := Detach(w, f), w.fields[f].ptr;
    var w2 := WriteText(w1, q, text);
    FieldAt(w, f);
    forall g | g in w1.fields ensures SameField(w1, w2, g) {
      if g != f && Uses(w, g, q) { assert Uses(w, f, q); UsesAt(w, f, g, q); }
    }
    hide Inv, View;
    SameVars(w1, w2);
    forall p ensures Held(w2, p) <==> p in View(w1).held { HeldOf(w1, p); }
    forall p | p in View(w1).held ensures View(w1).held[p] == TextOf(w2, p) { HeldOf(w1, p); }
    hide WriteText, Detach;
    HeldIs(w2, View(w1).held);
  }

  lemma AssignTwice(s: Plain, f: FieldId, a: Option<string>, b: Option<string>)
    ensures Assigned(Assigned(s, f, a), f, b) == Assigned(s, f, b)
  {
    if f in s.vars {
      assert s.vars[f := s.vars[f].(value := a)][f := s.vars[f].(value := b)] == s.vars[f := s.vars[f].(value := b)];
    }
  }

  lemma SetAllocatedStep(w: World, op: Op)
    requires Inv(w) && Enabled(w, op) && op.SetAllocated?
    ensures Inv(Apply(w, op)) && View(Apply(w, op)) == PlainApply(View(w), op, Receiver(w, op))
  {
    var w1 := Dropped(w, op.f);
    SetAllocatedIs(w, op);
    DropKeepsInv(w, op.f);
    DropView(w, op.f);
    if op.value.Some? {
      var p := op.value.value;
      DropKeepsHeld(w, op.f, p);
      DropIs(w, op.f);
      HeldOf(w, p);
      hide Inv, View, Apply, Dropped, Aligned, Assigned;
      AttachKeepsInv(w1, op.f, p, w1.store.strings[p]);
      AttachView(w1, op.f, p, w1.store.strings[p]);
      AssignTwice(View(w), op.f, None, Some(View(w).held[p]));
    }
  }

  lemma DestroyStep(w: World, op: Op)
    requires Inv(w) && Enabled(w, op) && op.Destroy?
    ensures Inv(Apply(w, op)) && View(Apply(w, op)) == PlainApply(View(w), op, Receiver(w, op))
  {
    DestroyIs(w, op);
    assert op.f in w.fields;
    hide Inv, View, Apply, Enabled, Dropped, Removed, PlainApply;
    RemovingKeepsInv(w, op.f);
    RemovingView(w, op.f);
    PlainDestroy(w, op);
  }

  lemma PlainDestroy(w: World, op: Op)
    requires op.Destroy?
    ensures PlainApply(View(w), op, Receiver(w, op)) == View(w).(vars := View(w).vars - {op.f})
  {
    hide View, Receiver;
  }

  lemma RemovingKeepsInv(w: World, f: FieldId)
    requires Inv(w) && f in w.fields
    ensures Inv(Removed(Dropped(w, f), f))
  {
    DropKeepsInv(w, f);
    DropIs(w, f);
    hide Inv, Dropped, Removed, StringModel.Destroy, CellOf, OwnersWithout;
    RemoveKeepsInv(Dropped(w, f), f);
  }

  lemma RemovingView(w: World, f: FieldId)
    requires Inv(w) && f in w.fields
    ensures View(Removed(Dropped(w, f), f)) == View(w).(vars := View(w).vars - {f})
  {
    DropView(w, f);
    RemoveView(Dropped(w, f), f);
    hide Inv, View, Dropped, Removed;
    assert Assigned(View(w), f, None).vars - {f} == View(w).vars - {f};
  }

  /** Set, Mutable, Write and ClearTo give the field a new string or write to the one it has. */
  lemma WritingStep(w: World, op: Op)
    requires Inv(w) && Enabled(w, op) && (op.Set? || op.Mutable? || op.Write? || op.ClearTo?)
    ensures Inv(Apply(w, op)) && View(Apply(w, op)) == PlainApply(View(w), op, Receiver(w, op))
  {
    var f := op.f;
    ValueAt(w, f);
    FieldAt(w, f);
    if op.Set? { SetIs(w, op); } else if op.Mutable? { MutableIs(w, op); }
    else if op.ClearTo? { ClearIs(w, op); }
    else { AssignIsWrite(w, f, op.text); assert Apply(w, op) == WriteText(w, w.fields[f].ptr, op.text); }
    hide Inv, View, Apply, ValueOf, TextOf, Aligned;
    if w.fields[f].kind == Default {
      if op.Set? || op.Mutable? {
        var obj := StringObject(if op.Set? then op.text else op.initial, w.fields[f].home == None);
        AttachKeepsInv(w, f, op.p, obj);
        AttachView(w, f, op.p, obj);
        FreshIsNotHeld(w, op.p);
      }
    } else if !op.Mutable? {
      WriteKeepsInv(w, w.fields[f].ptr, op.text);
      WriteFieldView(w, f, op.text);
    }
  }

  lemma FreshIsNotHeld(w: World, p: Ptr)
    requires Inv(w) && FreshPtr(w.store, p)
    ensures View(w).held - {p} == View(w).held
  {
    HeldOf(w, p);
    CountAt(w, p);
    hide Inv, View;
  }

  lemma StepRefines(w: World, op: Op)
    requires Inv(w) && Enabled(w, op)
    ensures Inv(Apply(w, op)) && View(Apply(w, op)) == PlainApply(View(w), op, Receiver(w, op))
  {
    hide Inv, View, Aligned;
    match op {
      case NewField(f, home) => AddKeepsInv(w, f, home); AddView(w, f, home);
      case Swap(f, g) => SwapKeepsInv(w, f, g); SwapView(w, f, g);
      case EndArena(a) => EndKeepsInv(w, a); EndView(w, a);
      case CallerNew(p, text) => NewHeldKeepsInv(w, p, text); NewHeldView(w, p, text);
      case CallerWrite(p, text) => WriteKeepsInv(w, p, text); WriteHeldView(w, p, text);
      case CallerDelete(p) => FreeKeepsInv(w, p); FreeView(w, p);
      case Release(_, _, _) => ReleaseStep(w, op);
      case SetAllocated(_, _) => SetAllocatedStep(w, op);
      case Destroy(_) => DestroyStep(w, op);
      case _ => WritingStep(w, op);
    }
  }

  // ---------------------------------------------------------------- every run

  function Run(w: World, ops: seq<Op>): Option<World>
    decreases |ops|
  {
    if ops == [] then Some(w)
    else if Enabled(w, ops[0]) then Run(Apply(w, ops[0]), ops[1..])
    else None
  }

  function Receivers(w: World, ops: seq<Op>): seq<Ptr>
    decreases |ops|
  {
    if ops == [] || !Enabled(w, ops[0]) then [] else [Receiver(w, ops[0])] + Receivers(Apply(w, ops[0]), ops[1..])
  }

  function PlainRun(s: Plain, ops: seq<Op>, receivers: seq<Ptr>): Plain
    decreases |ops|
  {
    if ops == [] || receivers == [] then s else PlainRun(PlainApply(s, ops[0], receivers[0]), ops[1..], receivers[1..])
  }

  lemma {:induction false} RunRefines(w: World, ops: seq<Op>)
    requires Inv(w) && Run(w, ops).Some?
    ensures Inv(Run(w, ops).value) && View(Run(w, ops).value) == PlainRun(View(w), ops, Receivers(w, ops))
    decreases |ops|
  {
    if ops != [] {
      hide Inv, View, Enabled, Apply, PlainApply;
      StepRefines(w, ops[0]);
      RunRefines(Apply(w, ops[0]), ops[1..]);
      assert Receivers(w, ops)[1..] == Receivers(Apply(w, ops[0]), ops[1..]);
    }
  }

  /** In every run fields behave as plain string variables, and the caller's strings as its own. */
  lemma FieldsArePlainVariables(ops: seq<Op>)
    requires Run(START, ops).Some?
    ensures View(Run(START, ops).value) == PlainRun(Plain(map[], map[]), ops, Receivers(START, ops))
    ensures Inv(Run(START, ops).value)
  {
    assert Inv(START);
    assert View(START) == Plain(map[], map[]);
    hide Inv, View;
    RunRefines(START, ops);
  }

  /** A field will delete p, or an arena will destroy or delete it, as its i-th cleanup. */
  predicate Finalises(w: World, p: Ptr, o: Owner) {
    match o
    case Caller => Held(w, p)
    case OfField(f) => f in w.fields && w.fields[f].kind == Allocated && w.fields[f].ptr == p
    case OfArena(a, i) => a in w.store.cleanups && i < |w.store.cleanups[a]| && w.store.cleanups[a][i].ptr == p
  }

  /** In every run each live string but the default has exactly one owner, which finalises it the right way, and the
      shared default string belongs to nobody and is still empty. */
  lemma ExactlyOneOwner(ops: seq<Op>, p: Ptr, o: Owner)
    requires Run(START, ops).Some?
    ensures var w := Run(START, ops).value;
      && (p in w.store.strings && p != EMPTY <==> p in w.owner)
      && (Finalises(w, p, o) <==> p in w.owner && w.owner[p] == o)
      && (Finalises(w, p, o) && o.OfArena? ==>
        (w.store.cleanups[o.arena][o.entry].Delete? <==> w.store.strings[p].onHeap))
      && (Finalises(w, p, o) && !o.OfArena? ==> w.store.strings[p].onHeap)
      && EMPTY in w.store.strings && w.store.strings[EMPTY].text == ""
  {
    FieldsArePlainVariables(ops);
    var w := Run(START, ops).value;
    CountAt(w, p);
    CountAt(w, EMPTY);
    if p in w.owner { OwnerAt(w, p); }
    if EMPTY in w.owner { OwnerAt(w, EMPTY); }
    if Finalises(w, p, o) {
      if o.OfField? { FieldAt(w, o.field); } else if o.OfArena? { CleanupAt(w, o.arena, o.entry); }
    }
    hide Inv, Run, Aligned, View;
  }

  /** In every run each string made is finalised at most once, and all of them once nobody is left to own any. */
  lemma FinalisedExactlyOnce(ops: seq<Op>, p: Ptr)
    requires Run(START, ops).Some?
    ensures var w := Run(START, ops).value;
      && w.store.created[p] == w.store.finalised[p] + (if p in w.store.strings && p != EMPTY then 1 else 0)
      && (w.fields == map[] && w.store.cleanups == map[] && !Held(w, p) ==> w.store.created[p] == w.store.finalised[p])
  {
    FieldsArePlainVariables(ops);
    var w := Run(START, ops).value;
    CountAt(w, p);
    if p in w.owner { OwnerAt(w, p); }
    hide Inv, Run, Aligned, View;
  }
}
