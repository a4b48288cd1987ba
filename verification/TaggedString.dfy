/**
 TaggedStringPtr: a pointer to a string whose two low bits say who owns the string.
 */
module TaggedString {
  import opened Wrappers

  /** The address of a string object; 0 is null. */
  datatype Ptr = Ptr(addr: bv64)

  const NULL := Ptr(0)

  /** TaggedStringPtr::Type. */
  datatype Type = Default | Allocated | MutableArena | FixedSizeArena

  function Bits(t: Type): bv64 {
    match t
    case Default => 0
    case Allocated => 2
    case MutableArena => 3
    case FixedSizeArena => 1
  }

  predicate Aligned(p: Ptr) {
    p.addr & 3 == 0
  }

  function TagAs(t: Type, p: Ptr): bv64 {
    p.addr | Bits(t)
  }

  predicate IsMutable(x: bv64) {
    x & 2 != 0
  }

  predicate IsDefault(x: bv64) {
    x & 3 == Bits(Default)
  }

  predicate IsArena(x: bv64) {
    x & 1 != 0
  }

  function Get(x: bv64): Ptr {
    Ptr(x & !3)
  }

  /** NULL is None. */
  function GetIfAllocated(x: bv64): Option<Ptr> {
    var flipped := x ^ Bits(Allocated);
    if flipped & 3 != 0 then None else Some(Ptr(flipped))
  }

  function TypeOf(x: bv64): Type {
    if x & 3 == 0 then Default else if x & 3 == 1 then FixedSizeArena else if x & 3 == 2 then Allocated
        else MutableArena
  }

  /** The pointer and the type can be read back, and every query answers by the type. */
  predicate ReadsBack(t: Type, p: Ptr) {
    var x := TagAs(t, p);
    && Get(x) == p && TypeOf(x) == t
    && (IsDefault(x) <==> t == Default)
    && (IsMutable(x) <==> t == Allocated || t == MutableArena)
    && (IsArena(x) <==> t == MutableArena || t == FixedSizeArena)
  }

  lemma MaskAlone(p: bv64)
    requires p & 3 == 0
    ensures (p | 0) & !3 == p && (p | 0) & 3 == 0 && (p | 0) & 2 == 0 && (p | 0) & 1 == 0
  {
  }

  lemma MaskFixed(p: bv64)
    requires p & 3 == 0
    ensures (p | 1) & !3 == p && (p | 1) & 3 == 1 && (p | 1) & 2 == 0 && (p | 1) & 1 == 1
  {
  }

  lemma MaskAllocated(p: bv64)
    requires p & 3 == 0
    ensures (p | 2) & !3 == p && (p | 2) & 3 == 2 && (p | 2) & 2 == 2 && (p | 2) & 1 == 0
  {
  }

  lemma MaskArena(p: bv64)
    requires p & 3 == 0
    ensures (p | 3) & !3 == p && (p | 3) & 3 == 3 && (p | 3) & 2 == 2 && (p | 3) & 1 == 1
  {
  }

  lemma DefaultGets(p: Ptr)
    requires Aligned(p)
    ensures Get(TagAs(Default, p)) == p
  {
    MaskAlone(p.addr);
  }

  lemma DefaultAnswers(p: Ptr)
    requires Aligned(p)
    ensures var x := TagAs(Default, p); TypeOf(x) == Default && IsDefault(x) && !IsMutable(x) && !IsArena(x)
  {
    MaskAlone(p.addr);
  }

  lemma DefaultReadsBack(p: Ptr)
    requires Aligned(p)
    ensures ReadsBack(Default, p)
  {
    hide Get, TypeOf, IsDefault, IsMutable, IsArena, TagAs, Aligned;
    DefaultGets(p);
    DefaultAnswers(p);
  }

  lemma FixedSizeArenaReadsBack(p: Ptr)
    requires Aligned(p)
    ensures ReadsBack(FixedSizeArena, p)
  {
    MaskFixed(p.addr);
  }

  lemma AllocatedReadsBack(p: Ptr)
    requires Aligned(p)
    ensures ReadsBack(Allocated, p)
  {
    MaskAllocated(p.addr);
  }

  lemma MutableArenaReadsBack(p: Ptr)
    requires Aligned(p)
    ensures ReadsBack(MutableArena, p)
  {
    MaskArena(p.addr);
  }

  /** Tagging an aligned pointer loses nothing. */
  lemma TagRoundTrip(t: Type, p: Ptr)
    requires Aligned(p)
    ensures ReadsBack(t, p)
  {
    hide ReadsBack, Aligned;
    match t {
      case Default => DefaultReadsBack(p);
      case FixedSizeArena => FixedSizeArenaReadsBack(p);
      case Allocated => AllocatedReadsBack(p);
      case MutableArena => MutableArenaReadsBack(p);
    }
  }

  /** The exclusive or answers the pointer exactly for heap strings, and null for all others: nothing else is ever
      deleted. */
  lemma GetIfAllocatedExactly(x: bv64)
    ensures GetIfAllocated(x) == if TypeOf(x) == Allocated then Some(Get(x)) else None
    ensures x == TagAs(TypeOf(x), Get(x)) && Aligned(Get(x))
  {
  }

  lemma QueriesByType(x: bv64)
    ensures IsDefault(x) <==> TypeOf(x) == Default
    ensures IsMutable(x) <==> TypeOf(x) == Allocated || TypeOf(x) == MutableArena
    ensures IsArena(x) <==> TypeOf(x) == MutableArena || TypeOf(x) == FixedSizeArena
  {
  }
}
