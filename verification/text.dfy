/**
 The string primitives the user table uses: lower-casing, substring search,
 email comparison, and the avatar initials built from
 `name.split(" ").map(n => n[0]).join("")`.
 */
module Text {
  import Seqs

  /** Lower-cases an ASCII upper-case letter and leaves every other character alone. */
  function LowerChar(c: char): char
  {
    if 'A' <= c <= 'Z' then (c as int + 32) as char else c
  }

  /** `s.toLowerCase()`, restricted to the ASCII letters. */
  function Lower(s: string): string
  {
    seq(|s|, i requires 0 <= i < |s| => LowerChar(s[i]))
  }

  predicate IsPrefix(p: string, s: string)
  {
    |p| <= |s| && s[..|p|] == p
  }

  /** `s.includes(t)`: `t` starts at some position of `s`. */
  predicate Includes(s: string, t: string)
    decreases |s|
  {
    IsPrefix(t, s) || (|s| > 0 && Includes(s[1..], t))
  }

  /** `Includes` agrees with the positional definition of a substring. */
  lemma {:induction false} IncludesAtPosition(s: string, t: string)
    ensures Includes(s, t) <==> exists i :: 0 <= i <= |s| && IsPrefix(t, s[i..])
  {
    if |s| > 0 {
      IncludesAtPosition(s[1..], t);
      if Includes(s, t) && !IsPrefix(t, s) {
        var i :| 0 <= i <= |s[1..]| && IsPrefix(t, s[1..][i..]);
        assert s[1..][i..] == s[i + 1..];
      }
      if exists i :: 0 <= i <= |s| && IsPrefix(t, s[i..]) {
        var i :| 0 <= i <= |s| && IsPrefix(t, s[i..]);
        if i > 0 {
          assert s[1..][i - 1..] == s[i..];
        }
      }
    }
    assert s[0..] == s;
  }

  /** Three-way comparison of strings by code point, the model of
      `a.localeCompare(b)`: negative, zero or positive. */
  function Compare(a: string, b: string): (r: int)
    ensures -1 <= r <= 1
    ensures r == 0 <==> a == b
  {
    if |a| == 0 && |b| == 0 then 0
    else if |a| == 0 then -1
    else if |b| == 0 then 1
    else if a[0] < b[0] then -1
    else if a[0] > b[0] then 1
    else
      assert a == [a[0]] + a[1..] && b == [b[0]] + b[1..];
      Compare(a[1..], b[1..])
  }

  /** Swapping the operands negates the comparison. */
  lemma {:induction false} CompareAntisymmetric(a: string, b: string)
    ensures Compare(a, b) == -Compare(b, a)
  {
    if |a| > 0 && |b| > 0 && a[0] == b[0] {
      CompareAntisymmetric(a[1..], b[1..]);
    }
  }

  /** "Not after" is transitive. */
  lemma {:induction false} CompareTransitive(a: string, b: string, c: string)
    requires Compare(a, b) <= 0 && Compare(b, c) <= 0
    ensures Compare(a, c) <= 0
  {
    if |a| > 0 && |b| > 0 && |c| > 0 && a[0] == b[0] == c[0] {
      CompareTransitive(a[1..], b[1..], c[1..]);
    }
  }

  /** `parts.join(" ")`. */
  function JoinSpaces(parts: seq<string>): string
  {
    if |parts| == 0 then ""
    else if |parts| == 1 then parts[0]
    else parts[0] + " " + JoinSpaces(parts[1..])
  }

  predicate SpaceFree(s: string)
  {
    ' ' !in s
  }

  /** `s.split(" ")`: the maximal space-free pieces between single spaces;
      there is always at least one piece, and a double space yields an empty one. */
  function Split(s: string): (parts: seq<string>)
    ensures |parts| >= 1
    ensures forall i :: 0 <= i < |parts| ==> SpaceFree(parts[i])
  {
    if |s| == 0 then [""]
    else
      var rest := Split(s[1..]);
      if s[0] == ' ' then [""] + rest
      else [[s[0]] + rest[0]] + rest[1..]
  }

  /** Joining the pieces of a split gives back the string. */
  lemma {:induction false} JoinSplit(s: string)
    ensures JoinSpaces(Split(s)) == s
  {
    if |s| > 0 {
      var rest := Split(s[1..]);
      JoinSplit(s[1..]);
      if s[0] == ' ' {
        assert Split(s) == [""] + rest;
        assert (([""] + rest)[1..]) == rest;
        assert s == " " + s[1..];
      } else {
        var parts := [[s[0]] + rest[0]] + rest[1..];
        assert Split(s) == parts;
        if |rest| == 1 {
          assert s == [s[0]] + rest[0];
        } else {
          assert parts[1..] == rest[1..];
          assert JoinSpaces(rest) == rest[0] + " " + JoinSpaces(rest[1..]);
          assert s == [s[0]] + (rest[0] + " " + JoinSpaces(rest[1..]));
        }
      }
    }
  }

  /** A space-free string splits into itself. */
  lemma {:induction false} SplitSpaceFree(s: string)
    requires SpaceFree(s)
    ensures Split(s) == [s]
  {
    if |s| > 0 {
      assert s[0] in s;
      assert forall c :: c in s[1..] ==> c in s;
      SplitSpaceFree(s[1..]);
      assert s == [s[0]] + s[1..];
    }
  }

  /** A space-free head followed by a space splits off as the first piece. */
  lemma {:induction false} SplitAfterHead(a: string, rest: string)
    requires SpaceFree(a)
    ensures Split(a + " " + rest) == [a] + Split(rest)
  {
    var s := a + " " + rest;
    if |a| == 0 {
      assert s == " " + rest && s[1..] == rest;
    } else {
      assert a[0] in a;
      assert forall c :: c in a[1..] ==> c in a;
      SplitAfterHead(a[1..], rest);
      assert s[1..] == a[1..] + " " + rest;
      assert [a[0]] + a[1..] == a;
    }
  }

  /** Splitting a join of space-free pieces gives back the pieces. */
  lemma {:induction false} SplitJoin(parts: seq<string>)
    requires |parts| >= 1
    requires forall i :: 0 <= i < |parts| ==> SpaceFree(parts[i])
    ensures Split(JoinSpaces(parts)) == parts
  {
    if |parts| == 1 {
      SplitSpaceFree(parts[0]);
    } else {
      SplitJoin(parts[1..]);
      SplitAfterHead(parts[0], JoinSpaces(parts[1..]));
      assert parts == [parts[0]] + parts[1..];
    }
  }

  predicate NonEmpty(p: string)
  {
    |p| > 0
  }

  /** The first character of every non-empty piece; `n[0]` of an empty piece
      is `undefined`, which `join("")` renders as nothing. */
  function Heads(parts: seq<string>): string
  {
    if |parts| == 0 then ""
    else (if |parts[0]| > 0 then [parts[0][0]] else []) + Heads(parts[1..])
  }

  /** `Heads` holds one character per non-empty piece: its first one. */
  lemma {:induction false} HeadsOfNonEmpty(parts: seq<string>)
    ensures |Heads(parts)| == |Seqs.Filter(parts, NonEmpty)|
    ensures forall i :: 0 <= i < |Heads(parts)| ==>
              NonEmpty(Seqs.Filter(parts, NonEmpty)[i])
              && Heads(parts)[i] == Seqs.Filter(parts, NonEmpty)[i][0]
    ensures (forall i :: 0 <= i < |parts| ==> SpaceFree(parts[i])) ==> SpaceFree(Heads(parts))
  {
    if |parts| > 0 {
      HeadsOfNonEmpty(parts[1..]);
      var rest := Seqs.Filter(parts[1..], NonEmpty);
      if NonEmpty(parts[0]) {
        assert Seqs.Filter(parts, NonEmpty) == [parts[0]] + rest;
        assert Heads(parts) == [parts[0][0]] + Heads(parts[1..]);
        assert parts[0][0] in parts[0];
      } else {
        assert Seqs.Filter(parts, NonEmpty) == rest;
        assert Heads(parts) == Heads(parts[1..]);
      }
    }
  }

  /** The non-empty space-separated parts of a name. */
  function Words(name: string): seq<string>
  {
    Seqs.Filter(Split(name), NonEmpty)
  }

  /** The avatar initials of a name: the first character of each of its words. */
  function Initials(name: string): (r: string)
    ensures SpaceFree(r)
    ensures |r| == |Words(name)|
    ensures forall i :: 0 <= i < |r| ==> NonEmpty(Words(name)[i]) && r[i] == Words(name)[i][0]
  {
    HeadsOfNonEmpty(Split(name));
    Heads(Split(name))
  }

  /** An independent description of the initials: every non-space character
      that begins the name or follows a space. `atStart` says whether the
      previous character was a space (or there was none). */
  function WordStarts(s: string, atStart: bool): string
  {
    if |s| == 0 then ""
    else (if s[0] != ' ' && atStart then [s[0]] else []) + WordStarts(s[1..], s[0] == ' ')
  }

  lemma {:induction false} HeadsAppend(a: seq<string>, b: seq<string>)
    ensures Heads(a + b) == Heads(a) + Heads(b)
  {
    if |a| > 0 {
      HeadsAppend(a[1..], b);
      assert (a + b)[0] == a[0];
      assert (a + b)[1..] == a[1..] + b;
    } else {
      assert a + b == b;
    }
  }

  lemma {:induction false} WordStartsSplit(s: string)
    ensures WordStarts(s, true) == Heads(Split(s))
    ensures WordStarts(s, false) == Heads(Split(s)[1..])
  {
    if |s| > 0 {
      var rest := Split(s[1..]);
      WordStartsSplit(s[1..]);
      if s[0] == ' ' {
        assert Split(s) == [""] + rest;
        HeadsAppend([""], rest);
        assert ([""] + rest)[1..] == rest;
      } else {
        var parts := [[s[0]] + rest[0]] + rest[1..];
        assert Split(s) == parts;
        HeadsAppend([[s[0]] + rest[0]], rest[1..]);
        assert parts[1..] == rest[1..];
      }
    }
  }

  /** The initials are exactly the characters that start a word of the name. */
  lemma InitialsAreWordStarts(name: string)
    ensures Initials(name) == WordStarts(name, true)
  {
    WordStartsSplit(name);
  }
}
