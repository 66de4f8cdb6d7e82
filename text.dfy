/**
 * The Python string operations the recorder builds paths and commands with:
 * `str.replace`, `str.split`, `str.join` and `str.strip`.
 */
module Text {

  /**
   * `s.replace(pat, rep)` for a non-empty `pat`: occurrences are found from
   * left to right and never overlap.
   */
  function Replace(s: string, pat: string, rep: string): (r: string)
    requires pat != []
    ensures |rep| >= |pat| ==> |r| >= |s|
    ensures |rep| <= |pat| ==> |r| <= |s|
    decreases |s|
  {
    if |s| < |pat| then s
    else if s[..|pat|] == pat then rep + Replace(s[|pat|..], pat, rep)
    else [s[0]] + Replace(s[1..], pat, rep)
  }

  /** `s.split(sep)` for a non-empty `sep`. */
  function Split(s: string, sep: string): (parts: seq<string>)
    requires sep != []
    ensures |parts| >= 1
  {
    SplitFrom(s, sep, [])
  }

  /** Split the rest `s` of a string whose current, unfinished piece is `cur`. */
  function SplitFrom(s: string, sep: string, cur: string): (parts: seq<string>)
    requires sep != []
    ensures |parts| >= 1
    decreases |s|
  {
    if |s| < |sep| then [cur + s]
    else if s[..|sep|] == sep then [cur] + SplitFrom(s[|sep|..], sep, [])
    else SplitFrom(s[1..], sep, cur + [s[0]])
  }

  /** `sep.join(parts)`. */
  function Join(parts: seq<string>, sep: string): (r: string)
    ensures parts == [] ==> r == []
    ensures |parts| == 1 ==> r == parts[0]
    ensures |parts| >= 2 ==> |r| >= |parts[0]| + |sep|
  {
    if |parts| == 0 then []
    else if |parts| == 1 then parts[0]
    else parts[0] + sep + Join(parts[1..], sep)
  }

  /** The joined string starts with the first piece and ends with the last. */
  lemma {:induction false} JoinEnds(parts: seq<string>, sep: string)
    requires parts != []
    ensures parts[0] <= Join(parts, sep)
    ensures |parts[|parts| - 1]| <= |Join(parts, sep)|
    ensures Join(parts, sep)[|Join(parts, sep)| - |parts[|parts| - 1]|..] == parts[|parts| - 1]
    decreases |parts|
  {
    if |parts| >= 2 {
      var last := parts[|parts| - 1];
      var rest := Join(parts[1..], sep);
      var r := Join(parts, sep);
      JoinEnds(parts[1..], sep);
      assert parts[1..][|parts| - 2] == last;
      assert r == (parts[0] + sep) + rest;
      assert r[|r| - |last|..] == rest[|rest| - |last|..];
    }
  }

  /** `pat` occurs in `s` starting at index `i`. */
  predicate OccursAt(s: string, pat: string, i: nat) {
    i + |pat| <= |s| && s[i..i + |pat|] == pat
  }

  /** `pat in s`. */
  predicate Contains(s: string, pat: string) {
    exists i: nat | i <= |s| :: OccursAt(s, pat, i)
  }

  lemma ContainsTail(s: string, pat: string)
    requires s != [] && Contains(s[1..], pat)
    ensures Contains(s, pat)
  {
    var i: nat :| i <= |s[1..]| && OccursAt(s[1..], pat, i);
    assert i + |pat| <= |s| - 1;
    assert s[i + 1..i + 1 + |pat|] == s[1..][i..i + |pat|];
    assert OccursAt(s, pat, i + 1);
  }

  lemma {:induction false} SplitFromJoin(s: string, sep: string, cur: string, rep: string)
    requires sep != []
    ensures Join(SplitFrom(s, sep, cur), rep) == cur + Replace(s, sep, rep)
    decreases |s|
  {
    if |s| < |sep| {
    } else if s[..|sep|] == sep {
      SplitFromJoin(s[|sep|..], sep, [], rep);
      SplitAtSeparator(s, sep, cur, rep);
    } else {
      SplitFromJoin(s[1..], sep, cur + [s[0]], rep);
      SplitPastChar(s, sep, cur, rep);
    }
  }

  /** The step of `SplitFromJoin` at an occurrence of the separator. */
  lemma SplitAtSeparator(s: string, sep: string, cur: string, rep: string)
    requires sep != [] && |s| >= |sep| && s[..|sep|] == sep
    requires Join(SplitFrom(s[|sep|..], sep, []), rep) == [] + Replace(s[|sep|..], sep, rep)
    ensures Join(SplitFrom(s, sep, cur), rep) == cur + Replace(s, sep, rep)
  {
    var rest := SplitFrom(s[|sep|..], sep, []);
    assert SplitFrom(s, sep, cur) == [cur] + rest;
    assert ([cur] + rest)[1..] == rest;
    assert Join([cur] + rest, rep) == cur + rep + Join(rest, rep);
    assert Replace(s, sep, rep) == rep + Replace(s[|sep|..], sep, rep);
    assert cur + rep + Replace(s[|sep|..], sep, rep) == cur + (rep + Replace(s[|sep|..], sep, rep));
  }

  /** The step of `SplitFromJoin` past a character that does not start the separator. */
  lemma SplitPastChar(s: string, sep: string, cur: string, rep: string)
    requires sep != [] && |s| >= |sep| && s[..|sep|] != sep
    requires Join(SplitFrom(s[1..], sep, cur + [s[0]]), rep) == cur + [s[0]] + Replace(s[1..], sep, rep)
    ensures Join(SplitFrom(s, sep, cur), rep) == cur + Replace(s, sep, rep)
  {
    assert Replace(s, sep, rep) == [s[0]] + Replace(s[1..], sep, rep);
    assert cur + [s[0]] + Replace(s[1..], sep, rep) == cur + ([s[0]] + Replace(s[1..], sep, rep));
  }

  /** Replacing is splitting at the pattern and joining with the replacement. */
  lemma ReplaceIsJoinOfSplit(s: string, pat: string, rep: string)
    requires pat != []
    ensures Replace(s, pat, rep) == Join(Split(s, pat), rep)
  {
    SplitFromJoin(s, pat, [], rep);
  }

  lemma {:induction false} ReplaceWithItself(s: string, pat: string)
    requires pat != []
    ensures Replace(s, pat, pat) == s
    decreases |s|
  {
    if |s| < |pat| {
    } else if s[..|pat|] == pat {
      ReplaceWithItself(s[|pat|..], pat);
      assert s == s[..|pat|] + s[|pat|..];
    } else {
      ReplaceWithItself(s[1..], pat);
      assert s == [s[0]] + s[1..];
    }
  }

  /** Joining the pieces of a split with the separator gives the string back. */
  lemma JoinSplit(s: string, sep: string)
    requires sep != []
    ensures Join(Split(s, sep), sep) == s
  {
    ReplaceIsJoinOfSplit(s, sep, sep);
    ReplaceWithItself(s, sep);
  }

  /** A string without the pattern is left as it is. */
  lemma {:induction false} ReplaceAbsent(s: string, pat: string, rep: string)
    requires pat != [] && !Contains(s, pat)
    ensures Replace(s, pat, rep) == s
    decreases |s|
  {
    if |s| >= |pat| {
      assert !OccursAt(s, pat, 0);
      if Contains(s[1..], pat) {
        ContainsTail(s, pat);
      }
      ReplaceAbsent(s[1..], pat, rep);
      assert s == [s[0]] + s[1..];
    }
  }

  /**
   * Splitting the rest `s` when no occurrence of `sep` in `cur + s` starts
   * inside the unfinished piece `cur`: no piece contains `sep`.
   */
  lemma {:induction false} SplitFromPiecesFree(s: string, sep: string, cur: string)
    requires sep != []
    requires forall p: nat :: p < |cur| ==> !OccursAt(cur + s, sep, p)
    ensures forall piece :: piece in SplitFrom(s, sep, cur) ==> !Contains(piece, sep)
    decreases |s|
  {
    if |s| < |sep| {
      forall p: nat | p <= |cur + s|
        ensures !OccursAt(cur + s, sep, p)
      {
      }
    } else if s[..|sep|] == sep {
      forall p: nat | p <= |cur|
        ensures !OccursAt(cur, sep, p)
      {
        if p + |sep| <= |cur| {
          assert (cur + s)[p..p + |sep|] == cur[p..p + |sep|];
          assert !OccursAt(cur + s, sep, p);
        }
      }
      SplitFromPiecesFree(s[|sep|..], sep, []);
    } else {
      var next := cur + [s[0]];
      assert next + s[1..] == cur + s;
      assert !OccursAt(cur + s, sep, |cur|) by {
        assert (cur + s)[|cur|..] == s;
        assert (cur + s)[|cur|..|cur| + |sep|] == s[..|sep|];
      }
      SplitFromPiecesFree(s[1..], sep, next);
    }
  }

  /** No piece of a split contains the separator, whatever its length. */
  lemma SplitPiecesFree(s: string, sep: string)
    requires sep != []
    ensures forall piece :: piece in Split(s, sep) ==> !Contains(piece, sep)
  {
    SplitFromPiecesFree(s, sep, []);
  }

  /** Splitting at one character leaves that character in none of the pieces. */
  lemma SplitOnCharPiecesFree(s: string, c: char)
    ensures forall piece :: piece in Split(s, [c]) ==> c !in piece
  {
    SplitPiecesFree(s, [c]);
    forall piece | piece in Split(s, [c])
      ensures c !in piece
    {
      forall k | 0 <= k < |piece|
        ensures piece[k] != c
      {
        assert !OccursAt(piece, [c], k);
      }
    }
  }

  /** The characters `str.isspace` accepts, which `str.strip()` removes. */
  predicate IsSpace(c: char) {
    var v := c as int;
    || 0x09 <= v <= 0x0D
    || 0x1C <= v <= 0x20
    || v == 0x85 || v == 0xA0 || v == 0x1680
    || 0x2000 <= v <= 0x200A
    || v == 0x2028 || v == 0x2029 || v == 0x202F || v == 0x205F || v == 0x3000
  }

  /** Number of leading whitespace characters. */
  function LeadingSpaces(s: string): (n: nat)
    ensures n <= |s|
    ensures forall k :: 0 <= k < n ==> IsSpace(s[k])
    ensures n < |s| ==> !IsSpace(s[n])
  {
    if s == [] || !IsSpace(s[0]) then 0 else 1 + LeadingSpaces(s[1..])
  }

  /** Length of `s` once its trailing whitespace is removed. */
  function WithoutTrailingSpaces(s: string): (n: nat)
    ensures n <= |s|
    ensures forall k :: n <= k < |s| ==> IsSpace(s[k])
    ensures n > 0 ==> !IsSpace(s[n - 1])
  {
    if s == [] || !IsSpace(s[|s| - 1]) then |s| else WithoutTrailingSpaces(s[..|s| - 1])
  }

  /** `r` is `s[i..i + |r|]` and everything of `s` around it is whitespace. */
  predicate StrippedAt(s: string, r: string, i: nat) {
    && i + |r| <= |s|
    && r == s[i..i + |r|]
    && (forall k :: 0 <= k < i ==> IsSpace(s[k]))
    && (forall k :: i + |r| <= k < |s| ==> IsSpace(s[k]))
  }

  /**
   * `s.strip()`: the slice of `s` left after removing whitespace at both ends.
   * Everything removed is whitespace, and the result neither starts nor ends with it.
   */
  function Strip(s: string): (r: string)
    ensures r == [] || (!IsSpace(r[0]) && !IsSpace(r[|r| - 1]))
    ensures exists i: nat :: StrippedAt(s, r, i)
  {
    var i := LeadingSpaces(s);
    var j := if i == |s| then i else WithoutTrailingSpaces(s);
    assert StrippedAt(s, s[i..j], i);
    s[i..j]
  }
}
