/**
  The few string operations the colour map and the weather tests rely on:
  `string.Split(char)`, `string.ToLower()` (ASCII letters only) and
  `string.Contains(string)`.
 */
module Text {

  /** The number of occurrences of `c` in `s`. */
  function Occurrences(s: string, c: char): nat {
    multiset(s)[c]
  }

  /**
    `s.Split(sep)`: the maximal separator-free pieces between separators, in
    order; always one more piece than there are separators.
   */
  function Split(s: string, sep: char): (fields: seq<string>)
    ensures |fields| > 0
    decreases |s|
  {
    if |s| == 0 then [""]
    else
      var rest := Split(s[1..], sep);
      if s[0] == sep then [""] + rest
      else [[s[0]] + rest[0]] + rest[1..]
  }

  /** `string.Join(sep, fields)`, the inverse of `Split`. */
  function Join(fields: seq<string>, sep: char): (s: string)
    requires |fields| > 0
    decreases |fields|
  {
    if |fields| == 1 then fields[0] else fields[0] + [sep] + Join(fields[1..], sep)
  }

  /** Joining the fields of a split gives back the original string. */
  lemma {:induction false} SplitJoin(s: string, sep: char)
    ensures Join(Split(s, sep), sep) == s
    decreases |s|
  {
    if |s| > 0 {
      var rest := Split(s[1..], sep);
      SplitJoin(s[1..], sep);
      if s[0] == sep {
        JoinEmptyFirst(rest, sep);
      } else {
        JoinExtendFirst(s[0], rest, sep);
      }
      assert s == [s[0]] + s[1..];
    }
  }

  /** An empty first field contributes only its separator. */
  lemma JoinEmptyFirst(rest: seq<string>, sep: char)
    requires |rest| > 0
    ensures Join([""] + rest, sep) == [sep] + Join(rest, sep)
  {
    assert ([""] + rest)[1..] == rest;
  }

  /** Prefixing a character to the first field prefixes it to the joined text. */
  lemma JoinExtendFirst(c: char, rest: seq<string>, sep: char)
    requires |rest| > 0
    ensures Join([[c] + rest[0]] + rest[1..], sep) == [c] + Join(rest, sep)
  {
    var fields := [[c] + rest[0]] + rest[1..];
    if |rest| > 1 {
      assert fields[1..] == rest[1..];
      assert Join(fields, sep) == ([c] + rest[0]) + [sep] + Join(rest[1..], sep);
      assert [c] + Join(rest, sep) == [c] + (rest[0] + [sep] + Join(rest[1..], sep));
    }
  }

  /** A split has one more field than there are separators. */
  lemma {:induction false} SplitCount(s: string, sep: char)
    ensures |Split(s, sep)| == Occurrences(s, sep) + 1
    decreases |s|
  {
    if |s| > 0 {
      SplitCount(s[1..], sep);
      assert s == [s[0]] + s[1..];
      assert multiset(s) == multiset([s[0]]) + multiset(s[1..]);
    }
  }

  /** A separator-free prefix becomes (the start of) the first field. */
  lemma {:induction false} SplitFreePrefix(a: string, b: string, sep: char)
    requires sep !in a
    ensures Split(a + b, sep) == [a + Split(b, sep)[0]] + Split(b, sep)[1..]
    decreases |a|
  {
    var tail := Split(b, sep);
    if |a| > 0 {
      assert (a + b)[1..] == a[1..] + b;
      SplitFreePrefix(a[1..], b, sep);
      assert a == [a[0]] + a[1..];
      assert [a[0]] + (a[1..] + tail[0]) == a + tail[0];
    } else {
      assert a + b == b;
      assert a + tail[0] == tail[0];
      assert [tail[0]] + tail[1..] == tail;
    }
  }

  /** A separator-free field followed by a separator is split off whole. */
  lemma SplitField(a: string, b: string, sep: char)
    requires sep !in a
    ensures Split(a + [sep] + b, sep) == [a] + Split(b, sep)
  {
    assert a + [sep] + b == a + ([sep] + b);
    SplitFreePrefix(a, [sep] + b, sep);
    assert ([sep] + b)[1..] == b;
    var tail := Split([sep] + b, sep);
    assert tail == [""] + Split(b, sep);
    assert a + tail[0] == a;
  }

  /** A separator-free string is a single field. */
  lemma SplitWhole(a: string, sep: char)
    requires sep !in a
    ensures Split(a, sep) == [a]
  {
    assert a + "" == a;
    SplitFreePrefix(a, "", sep);
  }

  /** `char.ToLowerInvariant` restricted to ASCII: 'A'..'Z' map to 'a'..'z'. */
  function LowerChar(c: char): (l: char)
    ensures 'A' <= c <= 'Z' ==> 'a' <= l <= 'z'
    ensures !('A' <= c <= 'Z') ==> l == c
  {
    if 'A' <= c <= 'Z' then (c as int - 'A' as int + 'a' as int) as char else c
  }

  function Lower(s: string): (l: string)
    ensures |l| == |s|
    ensures forall i :: 0 <= i < |s| ==> l[i] == LowerChar(s[i])
  {
    seq(|s|, i requires 0 <= i < |s| => LowerChar(s[i]))
  }

  /** `s.Contains(sub)`: `sub` occurs as a contiguous piece of `s`. */
  predicate Contains(s: string, sub: string)
    decreases |s|
  {
    sub <= s || (|s| > 0 && Contains(s[1..], sub))
  }

  /** `sub` starts at position `i` of `s`. */
  predicate OccursAt(s: string, sub: string, i: int) {
    0 <= i <= |s| - |sub| && s[i..i + |sub|] == sub
  }

  /** `Contains` holds exactly when some position of `s` starts a copy of `sub`. */
  lemma {:induction false} ContainsAt(s: string, sub: string)
    ensures Contains(s, sub) <==> exists i :: OccursAt(s, sub, i)
    decreases |s|
  {
    if sub <= s {
      assert OccursAt(s, sub, 0);
    } else if |s| > 0 {
      ContainsAt(s[1..], sub);
      if Contains(s[1..], sub) {
        var i :| OccursAt(s[1..], sub, i);
        assert OccursAt(s, sub, i + 1);
      }
      if exists i :: OccursAt(s, sub, i) {
        var i :| OccursAt(s, sub, i);
        assert i != 0;
        assert OccursAt(s[1..], sub, i - 1);
      }
    }
  }

  /** A non-empty piece can only occur in `s` if its first character does. */
  lemma {:induction false} ContainsFirstChar(s: string, sub: string)
    requires |sub| > 0 && Contains(s, sub)
    ensures sub[0] in s
    decreases |s|
  {
    if !(sub <= s) {
      ContainsFirstChar(s[1..], sub);
      assert s == [s[0]] + s[1..];
    }
  }
}
