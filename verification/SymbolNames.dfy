/**
 Which names the symbol index takes, in terms of the grammar of protobuf names: every full name is taken if nothing
 conflicts with it, and no character is let through that does not occur in full names.
 */
module SymbolNames {
  import opened DescriptorIndex

  predicate Letter(c: char) {
    'a' <= c <= 'z' || 'A' <= c <= 'Z' || c == '_'
  }

  predicate Digit(c: char) {
    '0' <= c <= '9'
  }

  /** A letter or underscore, then letters, underscores and digits. */
  predicate Identifier(part: string) {
    part != "" && Letter(part[0]) && forall i :: 0 <= i < |part| ==> Letter(part[i]) || Digit(part[i])
  }

  predicate Identifiers(parts: seq<string>) {
    parts != [] && forall part :: part in parts ==> Identifier(part)
  }

  function Joined(parts: seq<string>): string
    requires parts != []
  {
    if |parts| == 1 then parts[0] else parts[0] + "." + Joined(parts[1..])
  }

  /** Identifiers joined by periods. */
  ghost predicate FullName(name: string) {
    exists parts :: Identifiers(parts) && name == Joined(parts)
  }

  lemma {:induction false} JoinedIsValid(parts: seq<string>)
    requires Identifiers(parts)
    ensures ValidateSymbolName(Joined(parts))
    decreases |parts|
  {
    assert parts[0] in parts && Identifier(parts[0]);
    if |parts| > 1 {
      assert forall part :: part in parts[1..] ==> part in parts;
      JoinedIsValid(parts[1..]);
    }
  }

  lemma FullNameIsValid(name: string)
    requires FullName(name)
    ensures ValidateSymbolName(name)
  {
    var parts :| Identifiers(parts) && name == Joined(parts);
    JoinedIsValid(parts);
  }

  /** A full name is accepted by an empty index, and by any index that keeps the invariant unless it is nested in a key
      or a key is nested in it. */
  lemma FullNameIsAccepted(s: seq<Symbol>, name: string)
    requires Sorted(s) && AllValid(s) && NoneNested(s) && FullName(name)
    requires !HasMatch(s, name) && !HasNested(s, name)
    ensures Accepts(s, name)
  {
    FullNameIsValid(name);
    AcceptsExactly(s, name);
  }

  lemma FullNameStartsIndex(name: string)
    requires FullName(name)
    ensures Accepts([], name)
  {
    FullNameIsValid(name);
  }

  /** The character occurs in some full name. */
  ghost predicate InNames(c: char) {
    exists name :: FullName(name) && c in name
  }

  lemma CharOfName(c: char, parts: seq<string>)
    requires Identifiers(parts) && c in Joined(parts)
    ensures InNames(c)
  {
    assert FullName(Joined(parts));
  }

  lemma ValidCharInNames(c: char)
    requires ValidChar(c)
    ensures InNames(c)
  {
    if Letter(c) {
      assert Identifier([c]);
      CharOfName(c, [[c]]);
    } else if Digit(c) {
      assert Identifier(['a', c]);
      CharOfName(c, [['a', c]]);
    } else {
      assert Identifier("a");
      assert Joined(["a", "a"]) == "a" + "." + Joined(["a", "a"][1..]);
      assert "." == [c] && (Joined(["a", "a"]))[1] == c;
      CharOfName(c, ["a", "a"]);
    }
  }

  /** The names an empty index accepts are exactly those made of characters that occur in full names: names the grammar
      does not allow, such as one that starts with a digit, among them. */
  lemma AcceptedNamesExactly(name: string)
    ensures Accepts([], name) <==> forall i :: 0 <= i < |name| ==> InNames(name[i])
  {
    forall i | 0 <= i < |name| ensures InNames(name[i]) <==> ValidChar(name[i]) {
      if ValidChar(name[i]) {
        ValidCharInNames(name[i]);
      }
      if InNames(name[i]) {
        var other :| FullName(other) && name[i] in other;
        FullNameIsValid(other);
      }
    }
  }
}
