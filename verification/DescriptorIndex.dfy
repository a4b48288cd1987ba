/**
 The symbol index of SimpleDescriptorDatabase: an ordered map of symbol names in which no name is a sub-symbol of
 another, searched by taking the last key that is not above the name looked for.
 */
module DescriptorIndex {
  import opened Wrappers

  /** What AddFile stores for a symbol: the file it comes from. */
  type FileId = nat

  /** An entry of by_symbol_, which is kept in ascending order of names. */
  datatype Symbol = Symbol(name: string, value: FileId)

  /** The order of std::string. */
  predicate Less(a: string, b: string) {
    if b == "" then false
    else if a == "" then true
    else if a[0] != b[0] then a[0] < b[0]
    else Less(a[1..], b[1..])
  }

  predicate ValidChar(c: char) {
    c == '.' || c == '_' || '0' <= c <= '9' || 'A' <= c <= 'Z' || 'a' <= c <= 'z'
  }

  predicate ValidateSymbolName(name: string) {
    forall i :: 0 <= i < |name| ==> ValidChar(name[i])
  }

  /** parent is the name itself or a name it is nested in. */
  predicate IsSubSymbol(parent: string, name: string) {
    parent == name || (|parent| < |name| && parent == name[..|parent|] && name[|parent|] == '.')
  }

  // ---------------------------------------------------------------- the order

  lemma {:induction false} LessIrreflexive(a: string)
    ensures !Less(a, a)
  {
    if a != "" { LessIrreflexive(a[1..]); }
  }

  lemma {:induction false} LessTransitive(a: string, b: string, c: string)
    requires Less(a, b) && Less(b, c)
    ensures Less(a, c)
  {
    if a != "" && a[0] == b[0] && b[0] == c[0] { LessTransitive(a[1..], b[1..], c[1..]); }
  }

  lemma {:induction false} LessTotal(a: string, b: string)
    ensures Less(a, b) || Less(b, a) || a == b
  {
    if a != "" && b != "" && a[0] == b[0] {
      LessTotal(a[1..], b[1..]);
      assert a == [a[0]] + a[1..] && b == [b[0]] + b[1..];
    }
  }

  lemma LessAsymmetric(a: string, b: string)
    requires Less(a, b)
    ensures !Less(b, a) && a != b
  {
    if Less(b, a) { LessTransitive(a, b, a); }
    LessIrreflexive(a);
  }

  /** A parent sorts before what is nested in it. */
  lemma {:induction false} ParentIsLess(parent: string, name: string)
    requires IsSubSymbol(parent, name) && parent != name
    ensures Less(parent, name)
    decreases |parent|
  {
    if parent != "" {
      assert parent[0] == name[0] && parent[1..] == name[1..][..|parent| - 1];
      ParentIsLess(parent[1..], name[1..]);
    }
  }

  /** Whatever valid name sorts between a parent and a name nested in it is nested in that parent too: no valid
      character sorts before the period. */
  lemma {:induction false} BetweenIsNested(parent: string, x: string, name: string)
    requires IsSubSymbol(parent, name) && ValidateSymbolName(x)
    requires !Less(x, parent) && !Less(name, x)
    ensures IsSubSymbol(parent, x)
    decreases |parent|
  {
    if parent == name {
      LessTotal(x, parent);
    } else if parent == "" {
      assert x != "" ==> ValidChar(x[0]);
    } else {
      assert parent[0] == name[0] && parent[1..] == name[1..][..|parent| - 1];
      assert x != "" && x[0] == parent[0];
      assert forall i :: 0 <= i < |x[1..]| ==> x[1..][i] == x[i + 1];
      BetweenIsNested(parent[1..], x[1..], name[1..]);
      assert x == [x[0]] + x[1..] && parent == [parent[0]] + parent[1..];
      if parent[1..] != x[1..] {
        assert x[..|parent|] == [x[0]] + x[1..][..|parent| - 1];
      }
    }
  }

  // ---------------------------------------------------------------- the index

  predicate Sorted(s: seq<Symbol>) {
    forall i, j :: 0 <= i < j < |s| ==> Less(s[i].name, s[j].name)
  }

  predicate AllValid(s: seq<Symbol>) {
    forall i :: 0 <= i < |s| ==> ValidateSymbolName(s[i].name)
  }

  /** The map invariant: no symbol is nested in another. */
  predicate NoneNested(s: seq<Symbol>) {
    forall i, j :: 0 <= i < |s| && 0 <= j < |s| && i != j ==> !IsSubSymbol(s[i].name, s[j].name)
  }

  /** The index of the first key above name. */
  function UpperBound(s: seq<Symbol>, name: string): (k: nat)
    ensures k <= |s|
    ensures k < |s| ==> Less(name, s[k].name)
    ensures k > 0 ==> !Less(name, s[k - 1].name)
  {
    if s == [] || Less(name, s[0].name) then 0 else 1 + UpperBound(s[1..], name)
  }

  /** The last key not above name; the first key if all are above; the end of an empty map. */
  function FindLastLessOrEqual(s: seq<Symbol>, name: string): (k: nat)
    ensures k <= |s|
  {
    var k := UpperBound(s, name);
    if k != 0 then k - 1 else k
  }

  /** Keys before the upper bound are not above name, keys from it on are. */
  lemma UpperBoundSplits(s: seq<Symbol>, name: string, j: nat)
    requires Sorted(s) && j < |s|
    ensures j < UpperBound(s, name) <==> !Less(name, s[j].name)
  {
    var k := UpperBound(s, name);
    hide UpperBound, Less;
    if j < k {
      if j + 1 < k && Less(name, s[j].name) { LessTransitive(name, s[j].name, s[k - 1].name); }
    } else if k < j {
      LessTransitive(name, s[k].name, s[j].name);
    }
  }

  predicate Matches(s: seq<Symbol>, j: int, name: string) {
    0 <= j < |s| && IsSubSymbol(s[j].name, name)
  }

  ghost predicate HasMatch(s: seq<Symbol>, name: string) {
    exists j :: Matches(s, j, name)
  }

  predicate Found(s: seq<Symbol>, name: string) {
    Matches(s, FindLastLessOrEqual(s, name), name)
  }

  /** A symbol that name is nested in is not above name, and any key between them would be nested in it. */
  lemma MatchIsLast(s: seq<Symbol>, name: string, j: int)
    requires Sorted(s) && AllValid(s) && Matches(s, j, name)
    ensures j <= FindLastLessOrEqual(s, name) < |s|
    ensures IsSubSymbol(s[j].name, s[FindLastLessOrEqual(s, name)].name)
  {
    if s[j].name != name { ParentIsLess(s[j].name, name); }
    if Less(name, s[j].name) { LessAsymmetric(name, s[j].name); }
    UpperBoundSplits(s, name, j);
    var k := FindLastLessOrEqual(s, name);
    if j < k {
      if Less(s[k].name, s[j].name) { LessAsymmetric(s[k].name, s[j].name); }
      BetweenIsNested(s[j].name, s[k].name, name);
    }
  }

  /** While the invariant holds, one look at the last key not above a name finds the symbol it is nested in, exactly
      when there is one, and there is at most one. name need not be a valid name. */
  lemma LookupFindsTheMatch(s: seq<Symbol>, name: string)
    requires Sorted(s) && AllValid(s) && NoneNested(s)
    ensures Found(s, name) <==> HasMatch(s, name)
    ensures forall j :: Matches(s, j, name) ==> j == FindLastLessOrEqual(s, name)
  {
    forall j | Matches(s, j, name) ensures j == FindLastLessOrEqual(s, name) {
      MatchIsLast(s, name, j);
    }
  }

  lemma {:induction false} LongerIsGreater(a: string, c: char)
    ensures Less(a, a + [c])
  {
    if a != "" {
      assert (a + [c])[1..] == a[1..] + [c];
      LongerIsGreater(a[1..], c);
    }
  }

  /** A parent of name/ is a parent of name, and not name itself. */
  lemma ParentOfLonger(parent: string, name: string)
    requires IsSubSymbol(parent, name + "/") && parent != name + "/"
    ensures IsSubSymbol(parent, name) && parent != name
  {
    assert (name + "/")[|name|] == '/';
    assert |parent| < |name| ==> (name + "/")[..|parent|] == name[..|parent|];
  }

  /** The invariant is also needed: if a symbol is nested in another, some name is looked up wrongly. */
  lemma NestedBreaksLookup(s: seq<Symbol>, i: nat, j: nat)
    requires Sorted(s) && AllValid(s) && i < |s| && j < |s| && i != j && IsSubSymbol(s[i].name, s[j].name)
    ensures HasMatch(s, s[j].name + "/") && !Found(s, s[j].name + "/")
  {
    var name := s[j].name + "/";
    assert name[|s[j].name|] == '/';
    assert s[i].name != s[j].name by {
      if i < j { LessAsymmetric(s[i].name, s[j].name); } else { LessAsymmetric(s[j].name, s[i].name); }
    }
    assert name[..|s[i].name|] == s[j].name[..|s[i].name|];
    assert Matches(s, i, name);
    var k := FindLastLessOrEqual(s, name);
    if Found(s, name) {
      assert s[k].name != name by { assert !ValidChar('/'); }
      ParentOfLonger(s[k].name, s[j].name);
      ParentIsLess(s[k].name, s[j].name);
      LongerIsGreater(s[j].name, '/');
      LessAsymmetric(s[j].name, name);
      UpperBoundSplits(s, name, j);
      LessAsymmetric(s[k].name, s[j].name);
    }
  }

  /** Lookup by the last key is right for all names exactly when no symbol is nested in another. */
  lemma LookupIsRightExactly(s: seq<Symbol>)
    requires Sorted(s) && AllValid(s)
    ensures (forall name :: Found(s, name) <==> HasMatch(s, name)) <==> NoneNested(s)
  {
    if NoneNested(s) {
      forall name ensures Found(s, name) <==> HasMatch(s, name) { LookupFindsTheMatch(s, name); }
    } else {
      var i, j :| 0 <= i < |s| && 0 <= j < |s| && i != j && IsSubSymbol(s[i].name, s[j].name);
      NestedBreaksLookup(s, i, j);
    }
  }

  // ---------------------------------------------------------------- adding a symbol

  function Inserted(s: seq<Symbol>, symbol: Symbol): seq<Symbol> {
    var u := UpperBound(s, symbol.name);
    s[..u] + [symbol] + s[u..]
  }

  /** Neither the last key not above the name nor the key after it is found to conflict. */
  predicate Accepts(s: seq<Symbol>, name: string) {
    && ValidateSymbolName(name)
    && (s == [] || (!Found(s, name) && !NextIsNested(s, name)))
  }

  predicate NextIsNested(s: seq<Symbol>, name: string) {
    var k := FindLastLessOrEqual(s, name) + 1;
    k < |s| && IsSubSymbol(name, s[k].name)
  }

  class Index {
    var bySymbol: seq<Symbol>

    constructor ()
      ensures bySymbol == []
    {
      bySymbol := [];
    }

    method AddSymbol(name: string, value: FileId) returns (added: bool)
      modifies this
      ensures added == Accepts(old(bySymbol), name)
      ensures bySymbol == if added then Inserted(old(bySymbol), Symbol(name, value)) else old(bySymbol)
    {
      if !ValidateSymbolName(name) {
        return false;
      }
      var iter := FindLastLessOrEqual(bySymbol, name);
      var u := UpperBound(bySymbol, name);
      if iter == |bySymbol| {
        bySymbol := bySymbol[..u] + [Symbol(name, value)] + bySymbol[u..];
        return true;
      }
      if IsSubSymbol(bySymbol[iter].name, name) {
        return false;
      }
      iter := iter + 1;
      if iter != |bySymbol| && IsSubSymbol(name, bySymbol[iter].name) {
        return false;
      }
      bySymbol := bySymbol[..u] + [Symbol(name, value)] + bySymbol[u..];
      return true;
    }

    /** The file of the last key not above name, if name is nested in it. While the map invariant holds that is the file
        of the one symbol name is nested in, and there is none exactly if there is no such symbol. */
    method FindSymbol(name: string) returns (file: Option<FileId>)
      ensures file == if Found(bySymbol, name) then Some(bySymbol[FindLastLessOrEqual(bySymbol, name)].value) else None
      ensures Sorted(bySymbol) && AllValid(bySymbol) && NoneNested(bySymbol) ==>
                && (file == None <==> !HasMatch(bySymbol, name))
                && (forall j :: Matches(bySymbol, j, name) ==> file == Some(bySymbol[j].value))
    {
      if Sorted(bySymbol) && AllValid(bySymbol) && NoneNested(bySymbol) { LookupFindsTheMatch(bySymbol, name); }
      var iter := FindLastLessOrEqual(bySymbol, name);
      if iter != |bySymbol| && IsSubSymbol(bySymbol[iter].name, name) {
        return Some(bySymbol[iter].value);
      }
      return None;
    }
  }

  predicate HasNested(s: seq<Symbol>, name: string) {
    exists j :: 0 <= j < |s| && IsSubSymbol(name, s[j].name)
  }

  /** What is nested in name lies above name, and so does all between: the first key above name is nested if any key
      is. */
  lemma FirstAboveIsNested(s: seq<Symbol>, name: string)
    requires Sorted(s) && AllValid(s) && ValidateSymbolName(name) && !HasMatch(s, name)
    ensures HasNested(s, name) <==> UpperBound(s, name) < |s| && IsSubSymbol(name, s[UpperBound(s, name)].name)
  {
    var u := UpperBound(s, name);
    if HasNested(s, name) {
      var j :| 0 <= j < |s| && IsSubSymbol(name, s[j].name);
      assert !Matches(s, j, name);
      ParentIsLess(name, s[j].name);
      UpperBoundSplits(s, name, j);
      if u < j { LessAsymmetric(s[u].name, s[j].name); }
      LessAsymmetric(name, s[u].name);
      LessIrreflexive(s[j].name);
      BetweenIsNested(name, s[u].name, s[j].name);
    }
  }

  /** Exactly the conflicts AddSymbol overlooks. With a new name below all keys, the search starts at the first key, and
      the step to the next one leaves that key unchecked. */
  predicate Overlooked(s: seq<Symbol>, name: string) {
    && s != [] && Less(name, s[0].name) && IsSubSymbol(name, s[0].name)
    && (|s| == 1 || !IsSubSymbol(name, s[1].name))
  }

  lemma AcceptsExactly(s: seq<Symbol>, name: string)
    requires Sorted(s) && AllValid(s) && NoneNested(s)
    ensures Accepts(s, name) <==>
              && ValidateSymbolName(name)
              && !HasMatch(s, name)
              && (!HasNested(s, name) || Overlooked(s, name))
  {
    LookupFindsTheMatch(s, name);
    if s != [] && ValidateSymbolName(name) && !HasMatch(s, name) {
      FirstAboveIsNested(s, name);
      UpperBoundSplits(s, name, 0);
    }
  }

  /** A key is the last key not above itself, so it is found, and never accepted again, nested keys or not. */
  lemma KeyIsFound(s: seq<Symbol>, i: nat)
    requires Sorted(s) && i < |s|
    ensures Found(s, s[i].name)
  {
    LessIrreflexive(s[i].name);
    UpperBoundSplits(s, s[i].name, i);
    assert FindLastLessOrEqual(s, s[i].name) == i;
  }

  lemma AcceptedIsNew(s: seq<Symbol>, name: string, i: nat)
    requires Sorted(s) && Accepts(s, name) && i < |s|
    ensures s[i].name != name
  {
    KeyIsFound(s, i);
  }

  lemma InsertedIsSorted(s: seq<Symbol>, symbol: Symbol)
    requires Sorted(s) && forall i :: 0 <= i < |s| ==> s[i].name != symbol.name
    ensures Sorted(Inserted(s, symbol))
  {
    var u, t := UpperBound(s, symbol.name), Inserted(s, symbol);
    forall i, j | 0 <= i < j < |t| ensures Less(t[i].name, t[j].name) {
      if j == u {
        UpperBoundSplits(s, symbol.name, i);
        LessTotal(s[i].name, symbol.name);
      } else if i == u {
        UpperBoundSplits(s, symbol.name, j - 1);
      }
    }
  }

  /** An accepted symbol keeps the keys sorted and valid, and breaks the invariant exactly when the conflict was
      overlooked. */
  lemma AddSymbolKeepsInvariantExactly(s: seq<Symbol>, symbol: Symbol)
    requires Sorted(s) && AllValid(s) && NoneNested(s) && Accepts(s, symbol.name)
    ensures Sorted(Inserted(s, symbol)) && AllValid(Inserted(s, symbol))
    ensures NoneNested(Inserted(s, symbol)) <==> !Overlooked(s, symbol.name)
  {
    var u, t := UpperBound(s, symbol.name), Inserted(s, symbol);
    AcceptsExactly(s, symbol.name);
    forall i | 0 <= i < |s| ensures s[i].name != symbol.name { AcceptedIsNew(s, symbol.name, i); }
    InsertedIsSorted(s, symbol);
    assert AllValid(t);
    hide Sorted, AllValid, ValidateSymbolName;
    if Overlooked(s, symbol.name) {
      UpperBoundSplits(s, symbol.name, 0);
      assert t[0] == symbol && t[1] == s[0];
    } else {
      hide Accepts, Overlooked;
      InsertedNotNested(s, symbol);
    }
  }

  lemma InsertedNotNested(s: seq<Symbol>, symbol: Symbol)
    requires NoneNested(s) && !HasMatch(s, symbol.name) && !HasNested(s, symbol.name)
    ensures NoneNested(Inserted(s, symbol))
  {
    var u, t := UpperBound(s, symbol.name), Inserted(s, symbol);
    hide UpperBound, IsSubSymbol;
    forall i, j | 0 <= i < |t| && 0 <= j < |t| && i != j ensures !IsSubSymbol(t[i].name, t[j].name) {
      if i == u {
        assert t[j] == s[if j < u then j else j - 1];
      } else if j == u {
        assert t[i] == s[if i < u then i else i - 1];
        assert !Matches(s, if i < u then i else i - 1, symbol.name);
      } else {
        assert t[i] == s[if i < u then i else i - 1] && t[j] == s[if j < u then j else j - 1];
      }
    }
  }

  /** The index that a sequence of AddSymbol calls builds. */
  function AddAll(s: seq<Symbol>, symbols: seq<Symbol>): seq<Symbol>
    decreases |symbols|
  {
    if symbols == [] then s
    else AddAll(if Accepts(s, symbols[0].name) then Inserted(s, symbols[0]) else s, symbols[1..])
  }

  predicate NeverOverlooks(s: seq<Symbol>, symbols: seq<Symbol>)
    decreases |symbols|
  {
    symbols != [] ==>
      && !(Accepts(s, symbols[0].name) && Overlooked(s, symbols[0].name))
      && NeverOverlooks(if Accepts(s, symbols[0].name) then Inserted(s, symbols[0]) else s, symbols[1..])
  }

  lemma InsertedKeepsOrder(s: seq<Symbol>, symbol: Symbol)
    requires Sorted(s) && AllValid(s) && Accepts(s, symbol.name)
    ensures Sorted(Inserted(s, symbol)) && AllValid(Inserted(s, symbol))
  {
    forall i | 0 <= i < |s| ensures s[i].name != symbol.name { AcceptedIsNew(s, symbol.name, i); }
    InsertedIsSorted(s, symbol);
    hide Sorted, Accepts;
    assert ValidateSymbolName(symbol.name) by { AcceptedIsValid(s, symbol.name); }
  }

  lemma AcceptedIsValid(s: seq<Symbol>, name: string)
    requires Accepts(s, name)
    ensures ValidateSymbolName(name)
  {
  }

  /** Nested keys stay nested. */
  lemma InsertedKeepsNested(s: seq<Symbol>, symbol: Symbol)
    requires !NoneNested(s)
    ensures !NoneNested(Inserted(s, symbol))
  {
    var i, j :| 0 <= i < |s| && 0 <= j < |s| && i != j && IsSubSymbol(s[i].name, s[j].name);
    var u, t := UpperBound(s, symbol.name), Inserted(s, symbol);
    var i', j' := if i < u then i else i + 1, if j < u then j else j + 1;
    assert t[i'] == s[i] && t[j'] == s[j];
  }

  lemma {:induction false} AddAllKeepsNested(s: seq<Symbol>, symbols: seq<Symbol>)
    requires Sorted(s) && AllValid(s) && !NoneNested(s)
    ensures Sorted(AddAll(s, symbols)) && AllValid(AddAll(s, symbols)) && !NoneNested(AddAll(s, symbols))
    decreases |symbols|
  {
    if symbols != [] {
      if Accepts(s, symbols[0].name) {
        InsertedKeepsOrder(s, symbols[0]);
        InsertedKeepsNested(s, symbols[0]);
      }
      hide Sorted, AllValid, NoneNested, Accepts, Inserted;
      AddAllKeepsNested(if Accepts(s, symbols[0].name) then Inserted(s, symbols[0]) else s, symbols[1..]);
    }
  }

  lemma {:induction false} AddAllKeepsInvariantExactly(s: seq<Symbol>, symbols: seq<Symbol>)
    requires Sorted(s) && AllValid(s) && NoneNested(s)
    ensures Sorted(AddAll(s, symbols)) && AllValid(AddAll(s, symbols))
    ensures NoneNested(AddAll(s, symbols)) <==> NeverOverlooks(s, symbols)
    decreases |symbols|
  {
    if symbols != [] {
      var next := if Accepts(s, symbols[0].name) then Inserted(s, symbols[0]) else s;
      if Accepts(s, symbols[0].name) { AddSymbolKeepsInvariantExactly(s, symbols[0]); }
      hide Sorted, AllValid, NoneNested, Accepts, Inserted, Overlooked;
      if Accepts(s, symbols[0].name) && Overlooked(s, symbols[0].name) {
        AddAllKeepsNested(next, symbols[1..]);
      } else {
        AddAllKeepsInvariantExactly(next, symbols[1..]);
      }
    }
  }

  /** Whatever symbols are offered in whatever order, lookup in the index built is right for all names if and only if no
      conflict was overlooked on the way. */
  lemma BuiltIndexIsRightExactly(symbols: seq<Symbol>)
    ensures var t := AddAll([], symbols);
            (forall name :: Found(t, name) <==> HasMatch(t, name)) <==> NeverOverlooks([], symbols)
  {
    AddAllKeepsInvariantExactly([], symbols);
    hide AddAll, NeverOverlooks, Sorted, AllValid, NoneNested, Found, HasMatch;
    LookupIsRightExactly(AddAll([], symbols));
  }

  lemma BarIsBelowBaz()
    ensures Less("foo.bar", "foo.baz")
  {
    assert Less("r", "z") && Less("ar", "az") && Less("bar", "baz") && Less(".bar", ".baz");
    assert "o.bar"[1..] == ".bar" && "o.baz"[1..] == ".baz" && Less("o.bar", "o.baz");
    assert "oo.bar"[1..] == "o.bar" && "oo.baz"[1..] == "o.baz" && Less("oo.bar", "oo.baz");
    assert "foo.bar"[1..] == "oo.bar" && "foo.baz"[1..] == "oo.baz" && Less("foo.bar", "foo.baz");
  }

  lemma UpperBoundOfTwo(s: seq<Symbol>, name: string)
    requires |s| == 2 && !Less(name, s[0].name) && !Less(name, s[1].name)
    ensures UpperBound(s, name) == 2
  {
    hide Less;
    assert s[1..] == [s[1]] && s[1..][1..] == [];
  }

  lemma FooIsAccepted()
    ensures var s := [Symbol("foo.bar", 1)];
      Accepts(s, "foo") && Overlooked(s, "foo") &&
          Inserted(s, Symbol("foo", 2)) == [Symbol("foo", 2), Symbol("foo.bar", 1)]
  {
    ParentIsLess("foo", "foo.bar");
    hide Less;
    assert UpperBound([Symbol("foo.bar", 1)], "foo") == 0;
  }

  lemma FooBazIsLost()
    ensures var t := [Symbol("foo", 2), Symbol("foo.bar", 1)]; HasMatch(t, "foo.baz") && !Found(t, "foo.baz")
  {
    var t := [Symbol("foo", 2), Symbol("foo.bar", 1)];
    ParentIsLess("foo", "foo.baz");
    BarIsBelowBaz();
    hide Less;
    LessAsymmetric("foo", "foo.baz");
    LessAsymmetric("foo.bar", "foo.baz");
    UpperBoundOfTwo(t, "foo.baz");
    hide UpperBound;
    assert Matches(t, 0, "foo.baz");
    assert "foo.baz"[6] == 'z' && "foo.bar"[6] == 'r';
  }

  /** Such an index: "foo" is accepted after "foo.bar", and then "foo.baz" is no longer found. */
  lemma OverlookedConflict()
    ensures var s := [Symbol("foo.bar", 1)];
      && Accepts(s, "foo") && Overlooked(s, "foo")
      && var t := Inserted(s, Symbol("foo", 2));
      HasMatch(t, "foo.baz") && !Found(t, "foo.baz")
  {
    hide *;
    FooIsAccepted();
    FooBazIsLost();
  }
}
