/** The operations of Python's `str` that the bot's retrieval and routing
    logic depends on: `strip`, `lower`, substring `in`, `startswith`,
    `split(sep)[0]`, `len(split())`, prefix slices, `join` and the ordering
    `<=` on strings. */
module Text {

  /** Python's `str.isspace` for one character: the characters that
      `strip()` removes and `split()` splits on. */
  predicate IsSpace(c: char)
  {
    || c == ' '
    || ('\t' <= c <= '\r')
    || ('\U{1C}' <= c <= '\U{1F}')
    || c == '\U{85}' || c == '\U{A0}' || c == '\U{1680}'
    || ('\U{2000}' <= c <= '\U{200A}')
    || c == '\U{2028}' || c == '\U{2029}' || c == '\U{202F}' || c == '\U{205F}'
    || c == '\U{3000}'
  }

  /** The number of whitespace characters at the start of `s`. */
  function LeadingSpaces(s: string): (n: nat)
    ensures n <= |s|
    ensures forall k :: 0 <= k < n ==> IsSpace(s[k])
    ensures n < |s| ==> !IsSpace(s[n])
  {
    if s != [] && IsSpace(s[0]) then
      var n := 1 + LeadingSpaces(s[1..]);
      assert forall k :: 1 <= k < n ==> s[k] == s[1..][k - 1];
      n
    else 0
  }

  /** `r` stands at offset `i` of `s` and everything of `s` around it is
      whitespace. */
  ghost predicate SurroundedBySpace(s: string, r: string, i: int)
  {
    && 0 <= i <= |s| - |r| && r == s[i..i + |r|]
    && (forall k :: 0 <= k < i ==> IsSpace(s[k]))
    && (forall k :: i + |r| <= k < |s| ==> IsSpace(s[k]))
  }

  /** Python's `s.strip()`: `s` with its leading and trailing whitespace
      removed, one character at a time. */
  function Strip(s: string): (r: string)
    ensures |r| <= |s|
  {
    if s != [] && IsSpace(s[0]) then Strip(s[1..])
    else if s != [] && IsSpace(s[|s| - 1]) then Strip(s[..|s| - 1])
    else s
  }

  /** What stripping leaves: the contiguous part of `s` after its leading
      whitespace, with whitespace only after it, neither starting nor ending
      with whitespace, and empty exactly when `s` is all whitespace. */
  lemma StripTrims(s: string)
    ensures SurroundedBySpace(s, Strip(s), LeadingSpaces(s))
    ensures Strip(s) != [] ==> !IsSpace(Strip(s)[0]) && !IsSpace(Strip(s)[|Strip(s)| - 1])
    ensures Strip(s) == [] <==> forall k :: 0 <= k < |s| ==> IsSpace(s[k])
  {
    StripSurrounded(s);
    StripEnds(s);
    var r := Strip(s);
    if r != [] {
      assert r[0] == s[LeadingSpaces(s)];
    }
  }

  lemma {:induction false} StripSurrounded(s: string)
    ensures SurroundedBySpace(s, Strip(s), LeadingSpaces(s))
    decreases |s|
  {
    if s != [] && IsSpace(s[0]) {
      StripSurrounded(s[1..]);
      SurroundedShift(s, Strip(s), LeadingSpaces(s[1..]));
    } else if s != [] && IsSpace(s[|s| - 1]) {
      var init := s[..|s| - 1];
      StripSurrounded(init);
      assert LeadingSpaces(init) == 0 by {
        assert init[0] == s[0];
      }
      SurroundedExtend(s, Strip(s));
    }
  }

  lemma {:induction false} StripEnds(s: string)
    ensures Strip(s) != [] ==> !IsSpace(Strip(s)[0]) && !IsSpace(Strip(s)[|Strip(s)| - 1])
    decreases |s|
  {
    if s != [] && IsSpace(s[0]) {
      StripEnds(s[1..]);
    } else if s != [] && IsSpace(s[|s| - 1]) {
      StripEnds(s[..|s| - 1]);
    }
  }

  /** One more whitespace character in front moves the stripped part by one. */
  lemma SurroundedShift(s: string, r: string, i: int)
    requires s != [] && IsSpace(s[0]) && SurroundedBySpace(s[1..], r, i)
    ensures SurroundedBySpace(s, r, i + 1)
  {
    assert r == s[1..][i..i + |r|] == s[i + 1..i + 1 + |r|];
    assert forall k :: 1 <= k < |s| ==> s[k] == s[1..][k - 1];
  }

  /** One more whitespace character at the end leaves a prefix in place. */
  lemma SurroundedExtend(s: string, r: string)
    requires s != [] && IsSpace(s[|s| - 1]) && SurroundedBySpace(s[..|s| - 1], r, 0)
    ensures SurroundedBySpace(s, r, 0)
  {
    assert r == s[..|s| - 1][..|r|] == s[..|r|];
    assert forall k :: 0 <= k < |s| - 1 ==> s[k] == s[..|s| - 1][k];
  }

  /** Python's `str.lower` on one character, for the Latin (ASCII and
      Latin-1) and Cyrillic capitals; every other character is left as it is. */
  function LowerChar(c: char): char
  {
    if 'A' <= c <= 'Z' || ('\U{C0}' <= c <= '\U{DE}' && c != '\U{D7}') || ('\U{410}' <= c <= '\U{42F}')
    then (c as int + 32) as char
    else if '\U{400}' <= c <= '\U{40F}' then (c as int + 80) as char
    else c
  }

  /** Python's `s.lower()`, character by character. */
  function Lower(s: string): (r: string)
    ensures |r| == |s|
    ensures forall i :: 0 <= i < |s| ==> r[i] == LowerChar(s[i])
  {
    if s == [] then [] else [LowerChar(s[0])] + Lower(s[1..])
  }

  /** Lower-casing twice is lower-casing once. */
  lemma LowerIdempotent(s: string)
    ensures Lower(Lower(s)) == Lower(s)
  {
  }

  /** `w` occurs in `s` starting at offset `i`. */
  predicate OccursAt(s: string, w: string, i: int)
  {
    0 <= i <= |s| - |w| && s[i..i + |w|] == w
  }

  /** An occurrence in the tail of `s` is an occurrence in `s`, one further on. */
  lemma OccursAtTail(s: string, w: string, i: int)
    requires s != [] && 0 <= i
    ensures OccursAt(s[1..], w, i) <==> OccursAt(s, w, i + 1)
  {
    if 0 <= i <= |s| - 1 - |w| {
      assert s[1..][i..i + |w|] == s[i + 1..i + 1 + |w|];
    }
  }

  /** Python's `w in s` for strings: `w` occurs in `s` as a contiguous part. */
  function Contains(s: string, w: string): (b: bool)
    ensures b <==> exists i :: OccursAt(s, w, i)
    decreases |s|
  {
    if |w| > |s| then false
    else if s[..|w|] == w then assert OccursAt(s, w, 0); true
    else
      var rest := Contains(s[1..], w);
      assert (exists i :: OccursAt(s, w, i)) <==> (exists i :: OccursAt(s[1..], w, i)) by {
        forall i | OccursAt(s, w, i) ensures OccursAt(s[1..], w, i - 1) { OccursAtTail(s, w, i - 1); }
        forall i | OccursAt(s[1..], w, i) ensures OccursAt(s, w, i + 1) { OccursAtTail(s, w, i); }
      }
      rest
  }

  /** A contiguous part of a string in which `w` does not occur has no
      occurrence of `w` either. */
  lemma NotContainedInSlice(s: string, w: string, a: int, b: int)
    requires 0 <= a <= b <= |s| && !Contains(s, w)
    ensures !Contains(s[a..b], w)
  {
    forall i | OccursAt(s[a..b], w, i)
      ensures OccursAt(s, w, a + i)
    {
      forall k | 0 <= k < |w| ensures s[a + i..a + i + |w|][k] == w[k] {
        assert s[a..b][i..i + |w|][k] == w[k];
      }
    }
  }

  /** Stripping a string in which `w` does not occur leaves one in which it
      does not occur either. */
  lemma StripKeepsAbsent(s: string, w: string)
    requires !Contains(s, w)
    ensures !Contains(Strip(s), w)
  {
    StripTrims(s);
    var i := LeadingSpaces(s);
    NotContainedInSlice(s, w, i, i + |Strip(s)|);
  }

  /** Python's `any(w in s for w in words)`: some word of the list occurs in `s`. */
  function ContainsAny(s: string, words: seq<string>): (b: bool)
    ensures b <==> exists i :: 0 <= i < |words| && Contains(s, words[i])
  {
    if words == [] then false
    else
      var rest := ContainsAny(s, words[1..]);
      assert forall i :: 1 <= i < |words| ==> words[i] == words[1..][i - 1];
      Contains(s, words[0]) || rest
  }

  /** Python's `s.startswith(p)`. */
  predicate StartsWith(s: string, p: string)
  {
    |p| <= |s| && s[..|p|] == p
  }

  /** Python's `s[:k]`: a negative `k` drops `-k` elements from the end. */
  function SlicePrefix<T>(s: seq<T>, k: int): (r: seq<T>)
    ensures |r| <= |s| && r == s[..|r|]
    ensures 0 <= k ==> |r| == if k < |s| then k else |s|
    ensures k < 0 ==> |r| == if |s| + k < 0 then 0 else |s| + k
  {
    if 0 <= k then (if k < |s| then s[..k] else s)
    else if |s| + k < 0 then []
    else s[..|s| + k]
  }

  /** Python's `s.split(sep)[0]`: the part of `s` before the first
      occurrence of `sep`, or all of `s` when there is none. */
  function BeforeFirst(s: string, sep: string): (r: string)
    requires sep != []
    ensures |r| <= |s| && r == s[..|r|]
    ensures forall i :: 0 <= i < |r| ==> !OccursAt(s, sep, i)
    ensures |r| < |s| ==> OccursAt(s, sep, |r|)
    decreases |s|
  {
    if |s| < |sep| then s
    else if s[..|sep|] == sep then []
    else
      var rest := BeforeFirst(s[1..], sep);
      assert forall j :: 1 <= j <= |rest| ==> !OccursAt(s, sep, j) by {
        forall j | 1 <= j <= |rest| ensures !OccursAt(s, sep, j) { OccursAtTail(s, sep, j - 1); }
      }
      OccursAtTail(s, sep, |rest|);
      [s[0]] + rest
  }

  /** The part before the first separator holds no separator. */
  lemma BeforeFirstAbsent(s: string, sep: string)
    requires sep != []
    ensures !Contains(BeforeFirst(s, sep), sep)
  {
    var r := BeforeFirst(s, sep);
    forall i | OccursAt(r, sep, i)
      ensures false
    {
      assert s[i..i + |sep|] == r[i..i + |sep|];
      assert OccursAt(s, sep, i);
    }
  }

  /** A join whose first part starts with `p` starts with `p`. */
  lemma {:induction false} JoinStartsWith(parts: seq<string>, sep: string, p: string)
    requires parts != [] && StartsWith(parts[0], p)
    ensures StartsWith(Join(parts, sep), p)
  {
    if |parts| > 1 {
      assert Join(parts, sep) == parts[0] + (sep + Join(parts[1..], sep));
      assert (parts[0] + (sep + Join(parts[1..], sep)))[..|p|] == parts[0][..|p|];
    }
  }

  /** `s` without its first run of non-whitespace characters. */
  function DropWord(s: string): (r: string)
    ensures |r| <= |s|
    ensures s != [] && !IsSpace(s[0]) ==> |r| < |s|
    ensures r != [] ==> IsSpace(r[0])
  {
    if s != [] && !IsSpace(s[0]) then DropWord(s[1..]) else s
  }

  /** Python's `len(s.split())`: the number of maximal runs of
      non-whitespace characters in `s`. */
  function WordCount(s: string): (n: nat)
    ensures n <= |s|
    ensures n == 0 <==> forall k :: 0 <= k < |s| ==> IsSpace(s[k])
    decreases |s|
  {
    if s == [] then 0
    else if IsSpace(s[0]) then WordCount(s[1..])
    else 1 + WordCount(DropWord(s))
  }

  /** Python's `sep.join(parts)`. */
  function Join(parts: seq<string>, sep: string): string
  {
    if parts == [] then []
    else if |parts| == 1 then parts[0]
    else parts[0] + sep + Join(parts[1..], sep)
  }

  /** Python's `a <= b` on strings: lexicographic comparison by code point. */
  predicate LexLeq(a: string, b: string)
  {
    a == [] || (b != [] && (a[0] < b[0] || (a[0] == b[0] && LexLeq(a[1..], b[1..]))))
  }

  /** Any two strings are comparable. */
  lemma {:induction false} LexLeqTotal(a: string, b: string)
    ensures LexLeq(a, b) || LexLeq(b, a)
  {
    if a != [] && b != [] && a[0] == b[0] {
      LexLeqTotal(a[1..], b[1..]);
    }
  }

  /** The order is transitive. */
  lemma {:induction false} LexLeqTransitive(a: string, b: string, c: string)
    requires LexLeq(a, b) && LexLeq(b, c)
    ensures LexLeq(a, c)
  {
    if a != [] && b != [] && c != [] && a[0] == b[0] == c[0] {
      LexLeqTransitive(a[1..], b[1..], c[1..]);
    }
  }

  /** Two strings each at most the other are equal. */
  lemma {:induction false} LexLeqAntisymmetric(a: string, b: string)
    requires LexLeq(a, b) && LexLeq(b, a)
    ensures a == b
  {
    if a != [] && b != [] {
      LexLeqAntisymmetric(a[1..], b[1..]);
      assert a == [a[0]] + a[1..] && b == [b[0]] + b[1..];
    }
  }
}
