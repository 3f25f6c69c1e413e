/** Qualified names: parts with a separator between them. */
module JoinedParts {

  function Joined<T>(parts: seq<seq<T>>, separator: T): seq<T>
    requires parts != []
  {
    if |parts| == 1 then parts[0] else parts[0] + [separator] + Joined(parts[1..], separator)
  }

  ghost predicate MadeOf<T>(parts: seq<seq<T>>, good: T -> bool) {
    parts != [] && forall p, c | p in parts && c in p :: good(c)
  }

  // Parts of good characters, joined by the separator.
  ghost predicate IsJoin<T(!new)>(s: seq<T>, separator: T, good: T -> bool) {
    exists parts :: MadeOf(parts, good) && Joined(parts, separator) == s
  }

  lemma {:induction false} JoinedElements<T(!new)>(parts: seq<seq<T>>, separator: T, good: T -> bool)
    requires MadeOf(parts, good)
    ensures forall c :: c in Joined(parts, separator) ==> good(c) || c == separator
  {
    assert parts[0] in parts;
    if |parts| > 1 {
      assert forall p | p in parts[1..] :: p in parts;
      JoinedElements(parts[1..], separator, good);
    }
  }

  lemma {:induction false} Split<T(!new)>(s: seq<T>, separator: T, good: T -> bool) returns (parts: seq<seq<T>>)
    requires forall c | c in s :: good(c) || c == separator
    ensures MadeOf(parts, good) && Joined(parts, separator) == s
  {
    if s == [] {
      parts := [[]];
    } else {
      assert s[0] in s && forall c | c in s[1..] :: c in s;
      var rest := Split(s[1..], separator, good);
      if good(s[0]) {
        parts := [[s[0]] + rest[0]] + rest[1..];
        assert parts[1..] == rest[1..] && s == [s[0]] + s[1..];
        assert rest[0] in rest && forall p | p in rest[1..] :: p in rest;
      } else {
        parts := [[]] + rest;
        assert parts[1..] == rest && s == [separator] + s[1..];
      }
    }
  }

  // A string is such a join exactly if each of its characters is good or the separator.
  lemma IsJoinExactly<T(!new)>(s: seq<T>, separator: T, good: T -> bool)
    ensures IsJoin(s, separator, good) <==> forall i :: 0 <= i < |s| ==> good(s[i]) || s[i] == separator
  {
    if forall i :: 0 <= i < |s| ==> good(s[i]) || s[i] == separator {
      var parts := Split(s, separator, good);
    }
    if IsJoin(s, separator, good) {
      var parts :| MadeOf(parts, good) && Joined(parts, separator) == s;
      JoinedElements(parts, separator, good);
      assert forall i :: 0 <= i < |s| ==> s[i] in s;
    }
  }

  lemma JoinedStart<T>(parts: seq<seq<T>>, separator: T)
    requires parts != [] && parts[0] != []
    ensures Joined(parts, separator) != [] && Joined(parts, separator)[0] == parts[0][0]
  {
  }
}
