/**
 The free lists of returned arrays: size classes, the table that lives inside a returned array, and why links written
 into free memory are safe from everything else. TryAllocateFromCachedBlock and ReturnArrayMemory keep the invariant.
 */
module ArrayCache {
  import opened ArenaArithmetic
  import opened SerialModel
  import opened BumpSafety

  // ---------------------------------------------------------------- size classes

  /** A request is served from a class only if it needs at most what every block of the class has. */
  lemma RequestFitsClass(n: nat)
    requires n >= 16
    ensures n <= Pow2(RequestClass(n) + 4)
  {
    Log2AtLeast16(n - 1);
    Log2Bounds(n - 1);
  }

  /** A returned array has at least the bytes its class promises. */
  lemma ReturnedFillsClass(size: nat)
    requires size >= 16
    ensures Pow2(ReturnClass(size) + 4) <= size
  {
    Log2AtLeast16(size);
    Log2Bounds(size);
  }

  /** When the table does not have the class of a returned array, the array has room for a strictly longer table,
      which then has that class, and 64 entries are always enough. */
  lemma TableGrows(size: nat, tableLen: nat)
    requires 16 <= size < SIZE_RANGE && ReturnClass(size) >= tableLen
    ensures tableLen < CappedEntries(size) <= 64
    ensures ReturnClass(size) < CappedEntries(size)
    ensures Slot(0, Entries(size)) <= size
  {
    var c := ReturnClass(size);
    ReturnedFillsClass(size);
    assert Pow2(c + 4) == 16 * Pow2(c) by {
      assert Pow2(c + 4) == 2 * Pow2(c + 3) && Pow2(c + 3) == 2 * Pow2(c + 2) && Pow2(c + 2) == 2 * Pow2(c + 1);
    }
    Pow2Exceeds(c);
    SizeBelowPow64();
    Log2Below(size, 64);
  }

  lemma SizeBelowPow64()
    ensures Pow2(64) == SIZE_RANGE
  {
    SmallPowers();
    Square(4, 16);
    Square(8, 0x100);
    Square(16, 0x1_0000);
    Square(32, 0x1_0000_0000);
  }

  lemma Square(k: nat, p: nat)
    requires Pow2(k) == p
    ensures Pow2(2 * k) == p * p
  {
    Pow2Sum(k, k);
  }

  lemma {:induction false} Pow2Sum(a: nat, b: nat)
    ensures Pow2(a + b) == Pow2(a) * Pow2(b)
  {
    if a > 0 {
      Pow2Sum(a - 1, b);
      assert Pow2(a + b) == 2 * Pow2(a - 1 + b);
    }
  }

  // ---------------------------------------------------------------- where the words of the lists are

  lemma TableWords(a: Arena, i: nat)
    requires Inv(a) && i < |a.l.free|
    ensures var t := a.s.tableAddr;
            && t in a.l.areas && a.l.areas[t].kind.Table?
            && t <= Slot(t, i) && Slot(t, i) + POINTER_SIZE <= a.l.areas[t].hi
  {
  }

  /** A word of one area is not the first word of another. */
  lemma WordsApart(s: Serial, areas: map<Address, Area>, x: Address, w: Address, y: Address)
    requires AreasOk(s, areas) && x in areas && y in areas && x != y && x <= w < areas[x].hi
    ensures w != y
  {
  }

  /** A class other than the changed one stays in order, provided its own words and areas are left alone. */
  lemma ClassFrame(t: Address, mem: Memory, l: Ledger, t': Address, mem': Memory, l': Ledger, i: nat)
    requires i < |l.free| && i < |l'.free| && l'.free[i] == l.free[i]
    requires ClassOk(t, mem, l, i)
    requires Load(mem', Slot(t', i)) == Load(mem, Slot(t, i))
    requires forall x :: x in l.free[i] ==> Load(mem', x) == Load(mem, x)
    requires forall x :: x in l.free[i] ==> x in l'.areas && l'.areas[x] == l.areas[x]
    ensures ClassOk(t', mem', l', i)
  {
    ChainFrame(mem, mem', Load(mem, Slot(t, i)), l.free[i]);
  }

  // ---------------------------------------------------------------- taking a block from its list

  /** The head word of a list is the first block of the list, or null if the list is empty. */
  lemma HeadOfList(a: Arena, c: nat)
    requires Inv(a) && c < |a.l.free|
    ensures var h := Load(a.s.mem, Slot(a.s.tableAddr, c));
            && (a.l.free[c] == [] <==> h == 0)
            && (a.l.free[c] != [] ==>
                  h == a.l.free[c][0] && h in a.l.areas && a.l.areas[h].kind == Free(c) &&
                      h + Pow2(c + 4) <= a.l.areas[h].hi)
  {
    assert ClassOk(a.s.tableAddr, a.s.mem, a.l, c);
  }

  lemma PopKeepsAreas(a: Arena, n: nat)
    requires Inv(a) && n >= 16 && RequestClass(n) < |a.l.free| && a.l.free[RequestClass(n)] != []
    ensures AreasOk(Pop(a, n).s, Pop(a, n).l.areas)
  {
    var p := Load(a.s.mem, Slot(a.s.tableAddr, RequestClass(n)));
    HeadOfList(a, RequestClass(n));
    RequestFitsClass(n);
    hide CacheOk, BlocksOk, CleanupOk, SpaceOk, RequestClass, Pow2, AreasOk;
    ShrinkKeepsAreas(a.s, Pop(a, n).s, a.l.areas, p, n, Live);
  }

  /** An area can change its kind and lose bytes at its end. */
  lemma ShrinkKeepsAreas(s: Serial, s': Serial, areas: map<Address, Area>, p: Address, n: nat, kind: Kind)
    requires s'.blocks == s.blocks && s'.ptr == s.ptr && s'.limit == s.limit
    requires AreasOk(s, areas) && p in areas && 0 < n && p + n <= areas[p].hi
    ensures AreasOk(s', areas[p := Area(p + n, kind)])
  {
    var areas' := areas[p := Area(p + n, kind)];
    forall x | x in areas' ensures ClearOfBlocks(s', x, areas'[x].hi) {
      forall i | 0 <= i < |s'.blocks| ensures Clear(s', i, x, areas'[x].hi) {
        assert Clear(s, i, x, areas[x].hi);
      }
    }
  }

  lemma PopKeepsOtherClass(a: Arena, n: nat, i: nat)
    requires Inv(a) && n >= 16 && RequestClass(n) < |a.l.free| && a.l.free[RequestClass(n)] != []
    requires i < |a.l.free| && i != RequestClass(n)
    ensures ClassOk(a.s.tableAddr, Pop(a, n).s.mem, Pop(a, n).l, i)
  {
    var a', c, t := Pop(a, n), RequestClass(n), a.s.tableAddr;
    HeadOfList(a, c);
    TableWords(a, c);
    assert ClassOk(t, a.s.mem, a.l, i);
    forall x | x in a.l.free[i] ensures Load(a'.s.mem, x) == Load(a.s.mem, x) {
      WordsApart(a.s, a.l.areas, t, Slot(t, c), x);
    }
    ClassFrame(t, a.s.mem, a.l, t, a'.s.mem, a'.l, i);
  }

  lemma PopKeepsOwnClass(a: Arena, n: nat)
    requires Inv(a) && n >= 16 && RequestClass(n) < |a.l.free| && a.l.free[RequestClass(n)] != []
    ensures ClassOk(a.s.tableAddr, Pop(a, n).s.mem, Pop(a, n).l, RequestClass(n))
  {
    var a', c, t := Pop(a, n), RequestClass(n), a.s.tableAddr;
    var list := a.l.free[c];
    HeadOfList(a, c);
    TableWords(a, c);
    assert ClassOk(t, a.s.mem, a.l, c);
    forall x | x in list[1..] ensures x in list && x != list[0] && Load(a'.s.mem, x) == Load(a.s.mem, x) {
      WordsApart(a.s, a.l.areas, t, Slot(t, c), x);
    }
    ChainFrame(a.s.mem, a'.s.mem, Load(a.s.mem, list[0]), list[1..]);
  }

  lemma PopKeepsCache(a: Arena, n: nat)
    requires Inv(a) && n >= 16 && RequestClass(n) < |a.l.free| && a.l.free[RequestClass(n)] != []
    ensures CacheOk(a.s.tableAddr, a.s.tableLen, Pop(a, n).s.mem, Pop(a, n).l)
  {
    var a', c, t := Pop(a, n), RequestClass(n), a.s.tableAddr;
    HeadOfList(a, c);
    TableWords(a, c);
    forall i | 0 <= i < |a'.l.free| ensures ClassOk(t, a'.s.mem, a'.l, i) {
      if i == c { PopKeepsOwnClass(a, n); } else { PopKeepsOtherClass(a, n, i); }
    }
    PopKeepsTable(a, n);
  }

  lemma PopKeepsTable(a: Arena, n: nat)
    requires Inv(a) && n >= 16 && RequestClass(n) < |a.l.free| && a.l.free[RequestClass(n)] != []
    ensures TableOk(a.s.tableAddr, a.s.tableLen, Pop(a, n).l)
  {
    var list := a.l.free[RequestClass(n)];
    HeadOfList(a, RequestClass(n));
    assert forall x :: x in list ==> x == list[0] || x in list[1..];
  }

  /** Serving a request from its free list keeps the invariant, and the block is at least as long as the request. */
  lemma PopKeepsInv(a: Arena, n: nat)
    requires Inv(a) && CacheHit(a.s, n)
    ensures RequestClass(n) < |a.l.free| && a.l.free[RequestClass(n)] != []
    ensures var p := a.l.free[RequestClass(n)][0];
            && p == Load(a.s.mem, Slot(a.s.tableAddr, RequestClass(n)))
            && p in a.l.areas && p + n <= a.l.areas[p].hi
            && p in Pop(a, n).l.areas && Pop(a, n).l.areas[p] == Area(p + n, Live)
    ensures Inv(Pop(a, n))
  {
    var c, t := RequestClass(n), a.s.tableAddr;
    HeadOfList(a, c);
    RequestFitsClass(n);
    TableWords(a, c);
    PopKeepsAreas(a, n);
    PopKeepsCache(a, n);
    SameShape(a.s, Pop(a, n).s, map[]);
    assert InSomeArea(a.l.areas, Slot(t, c));
    AreaWritesKeepCleanups(a.s, a.l, Pop(a, n).s.mem);
  }

  // ---------------------------------------------------------------- putting an array on its list

  lemma PushKeepsOtherClass(a: Arena, p: Address, size: nat, i: nat)
    requires Inv(a) && MayReturn(a, p, size) && ReturnClass(size) < |a.l.free|
    requires i < |a.l.free| && i != ReturnClass(size)
    ensures ClassOk(a.s.tableAddr, Push(a, p, size).s.mem, Push(a, p, size).l, i)
  {
    var a', c, t := Push(a, p, size), ReturnClass(size), a.s.tableAddr;
    TableWords(a, c);
    TableWords(a, i);
    assert ClassOk(t, a.s.mem, a.l, i);
    WordsApart(a.s, a.l.areas, t, Slot(t, i), p);
    forall x | x in a.l.free[i] ensures Load(a'.s.mem, x) == Load(a.s.mem, x) {
      WordsApart(a.s, a.l.areas, t, Slot(t, c), x);
    }
    ClassFrame(t, a.s.mem, a.l, t, a'.s.mem, a'.l, i);
  }

  lemma PushKeepsOwnClass(a: Arena, p: Address, size: nat)
    requires Inv(a) && MayReturn(a, p, size) && ReturnClass(size) < |a.l.free|
    ensures ClassOk(a.s.tableAddr, Push(a, p, size).s.mem, Push(a, p, size).l, ReturnClass(size))
  {
    var a', c, t := Push(a, p, size), ReturnClass(size), a.s.tableAddr;
    var list := a.l.free[c];
    TableWords(a, c);
    ReturnedFillsClass(size);
    assert ClassOk(t, a.s.mem, a.l, c);
    WordsApart(a.s, a.l.areas, t, Slot(t, c), p);
    forall x | x in list ensures x != p && Load(a'.s.mem, x) == Load(a.s.mem, x) {
      WordsApart(a.s, a.l.areas, t, Slot(t, c), x);
    }
    ChainFrame(a.s.mem, a'.s.mem, Load(a.s.mem, Slot(t, c)), list);
    assert a'.l.free[c][1..] == list;
  }

  lemma PushKeepsTable(a: Arena, p: Address, size: nat)
    requires Inv(a) && MayReturn(a, p, size) && ReturnClass(size) < |a.l.free|
    ensures TableOk(a.s.tableAddr, a.s.tableLen, Push(a, p, size).l)
  {
  }

  lemma PushKeepsInv(a: Arena, p: Address, size: nat)
    requires Inv(a) && MayReturn(a, p, size) && ReturnClass(size) < |a.l.free|
    ensures Inv(Push(a, p, size))
  {
    var a', c, t := Push(a, p, size), ReturnClass(size), a.s.tableAddr;
    TableWords(a, c);
    ShrinkKeepsAreas(a.s, a'.s, a.l.areas, p, size, Free(c));
    SameShape(a.s, a'.s, map[]);
    PushKeepsTable(a, p, size);
    forall i | 0 <= i < |a'.l.free| ensures ClassOk(t, a'.s.mem, a'.l, i) {
      if i == c { PushKeepsOwnClass(a, p, size); } else { PushKeepsOtherClass(a, p, size, i); }
    }
    assert InSomeArea(a.l.areas, Slot(t, c)) && InSomeArea(a.l.areas, p);
    AreaWritesKeepCleanups(a.s, a.l, a'.s.mem);
  }

  // ---------------------------------------------------------------- growing the table

  lemma {:induction false} CopyWordsLoads(mem: Memory, src: Address, dst: Address, n: nat)
    requires Slot(src, n) <= dst || Slot(dst, n) <= src
    ensures forall i :: 0 <= i < n ==> Load(CopyWords(mem, src, dst, n), Slot(dst, i)) == Load(mem, Slot(src, i))
    ensures forall w: Address :: w < dst || Slot(dst, n) <= w ==> Load(CopyWords(mem, src, dst, n), w) == Load(mem, w)
  {
    if n > 0 {
      CopyWordsLoads(mem, src, dst, n - 1);
    }
  }

  lemma {:induction false} ClearWordsLoads(mem: Memory, dst: Address, lo: nat, hi: nat)
    requires lo <= hi
    ensures forall i :: lo <= i < hi ==> Load(ClearWords(mem, dst, lo, hi), Slot(dst, i)) == 0
    ensures forall w: Address :: w < Slot(dst, lo) || Slot(dst, hi) <= w ==>
        Load(ClearWords(mem, dst, lo, hi), w) == Load(mem, w)
    decreases hi - lo
  {
    if lo < hi {
      ClearWordsLoads(mem, dst, lo, hi - 1);
    }
  }

  predicate Outgrows(a: Arena, p: Address, size: nat) {
    MayReturn(a, p, size) && size < SIZE_RANGE && ReturnClass(size) >= a.s.tableLen
  }

  /** The new table holds the old heads, then nulls; nothing outside the returned array changes. */
  lemma GrowLoads(a: Arena, p: Address, size: nat)
    requires Inv(a) && Outgrows(a, p, size)
    ensures a.s.tableLen < CappedEntries(size) <= Entries(size)
    ensures var mem' := Grow(a, p, size).s.mem;
            && (forall i :: 0 <= i < a.s.tableLen ==> Load(mem', Slot(p, i)) == Load(a.s.mem, Slot(a.s.tableAddr, i)))
            && (forall i :: a.s.tableLen <= i < Entries(size) ==> Load(mem', Slot(p, i)) == 0)
            && (forall w: Address :: w < p || p + size <= w ==> Load(mem', w) == Load(a.s.mem, w))
  {
    TableGrows(size, a.s.tableLen);
    var n := a.s.tableLen;
    if n > 0 {
      TableWords(a, n - 1);
      assert a.s.tableAddr != p;
    }
    CopyWordsLoads(a.s.mem, a.s.tableAddr, p, n);
    ClearWordsLoads(CopyWords(a.s.mem, a.s.tableAddr, p, n), p, n, Entries(size));
  }

  lemma FewerAreas(s: Serial, areas: map<Address, Area>, p: Address)
    requires AreasOk(s, areas)
    ensures AreasOk(s, areas - {p})
  {
  }

  lemma GrowKeepsAreas(a: Arena, p: Address, size: nat)
    requires Inv(a) && Outgrows(a, p, size) && a.s.tableLen < CappedEntries(size) <= Entries(size)
    ensures AreasOk(Grow(a, p, size).s, Grow(a, p, size).l.areas)
  {
    assert a.s.tableAddr != p;
    FewerAreas(a.s, a.l.areas, a.s.tableAddr);
    ShrinkKeepsAreas(a.s, Grow(a, p, size).s, a.l.areas - {a.s.tableAddr}, p, size, Table);
  }

  lemma GrowKeepsClass(a: Arena, p: Address, size: nat, i: nat)
    requires Inv(a) && Outgrows(a, p, size) && a.s.tableLen < CappedEntries(size) <= Entries(size)
    requires i < CappedEntries(size)
    ensures ClassOk(p, Grow(a, p, size).s.mem, Grow(a, p, size).l, i)
  {
    GrowLoads(a, p, size);
    var a' := Grow(a, p, size);
    if i < a.s.tableLen {
      assert ClassOk(a.s.tableAddr, a.s.mem, a.l, i);
      forall x | x in a.l.free[i] ensures Load(a'.s.mem, x) == Load(a.s.mem, x) {
        assert x != p;
      }
      ClassFrame(a.s.tableAddr, a.s.mem, a.l, p, a'.s.mem, a'.l, i);
    }
  }

  lemma GrowKeepsTable(a: Arena, p: Address, size: nat)
    requires Inv(a) && Outgrows(a, p, size) && a.s.tableLen < CappedEntries(size) <= Entries(size)
    ensures TableOk(p, CappedEntries(size), Grow(a, p, size).l)
  {
  }

  lemma GrowKeepsCleanups(a: Arena, p: Address, size: nat)
    requires Inv(a) && Outgrows(a, p, size) && a.s.tableLen < CappedEntries(size) <= Entries(size)
    ensures CleanupOk(a.s.(mem := Grow(a, p, size).s.mem), a.l)
  {
    GrowLoads(a, p, size);
    var mem' := Grow(a, p, size).s.mem;
    forall w: Address | Load(a.s.mem, w) != Load(mem', w) ensures InSomeArea(a.l.areas, w) {
      assert p <= w < a.l.areas[p].hi;
    }
    AreaWritesKeepCleanups(a.s, a.l, mem');
  }

  lemma GrowKeepsInv(a: Arena, p: Address, size: nat)
    requires Inv(a) && Outgrows(a, p, size)
    ensures a.s.tableLen < CappedEntries(size) <= Entries(size)
    ensures Inv(Grow(a, p, size))
  {
    TableGrows(size, a.s.tableLen);
    var a' := Grow(a, p, size);
    GrowKeepsAreas(a, p, size);
    SameShape(a.s, a'.s, map[]);
    GrowKeepsTable(a, p, size);
    forall i | 0 <= i < |a'.l.free| ensures ClassOk(p, a'.s.mem, a'.l, i) {
      GrowKeepsClass(a, p, size, i);
    }
    GrowKeepsCleanups(a, p, size);
  }

  // ---------------------------------------------------------------- what callers do

  /** A store into live memory disturbs no list, no table and no cleanup node. */
  lemma StoreKeepsInv(a: Arena, lo: Address, w: Address, v: nat)
    requires Inv(a) && MayStore(a, lo, w)
    ensures Inv(Store(a, w, v))
  {
    var a' := Store(a, w, v);
    SameShape(a.s, a'.s, a.l.areas);
    forall x, u | x in a.l.areas && !a.l.areas[x].kind.Live? && x <= u < a.l.areas[x].hi
      ensures Load(a.s.mem, u) == Load(a'.s.mem, u)
    {
      assert x != lo;
    }
    CacheFrame(a.s.tableAddr, a.s.tableLen, a.s.mem, a'.s.mem, a.l, a.l.areas);
    assert a.l.(areas := a.l.areas) == a.l;
    assert InSomeArea(a.l.areas, w);
    AreaWritesKeepCleanups(a.s, a.l, a'.s.mem);
  }

  lemma AdoptKeepsInv(a: Arena, lo: Address, hi: Address)
    requires Inv(a) && MayAdopt(a, lo, hi)
    ensures Inv(Adopt(a, lo, hi))
  {
    AreaJoins(a.s, a.l.areas, lo, Area(hi, Live));
    CacheFrame(a.s.tableAddr, a.s.tableLen, a.s.mem, a.s.mem, a.l, Adopt(a, lo, hi).l.areas);
  }

  lemma YieldKeepsInv(a: Arena, lo: Address)
    requires Inv(a) && MayYield(a, lo)
    ensures Inv(Yield(a, lo))
  {
    CacheFrame(a.s.tableAddr, a.s.tableLen, a.s.mem, a.s.mem, a.l, Yield(a, lo).l.areas);
  }
}
