/**
 * The Python string operations the LAS reader relies on: `c in s`, `s.find(c)`,
 * slicing with Python's index rules, `s.strip()`, `s.split()` and `s.upper()`.
 * Whitespace is Python's `str.isspace()` set; upper-casing covers ASCII letters only.
 */
module PyStr {

  /** The characters `str.split()` and `str.strip()` treat as whitespace. */
  const WhiteSpace: set<char> := {
    9 as char, 10 as char, 11 as char, 12 as char, 13 as char, 28 as char, 29 as char, 30 as char,
    31 as char, 32 as char, 0x85 as char, 0xA0 as char, 0x1680 as char, 0x2000 as char,
    0x2001 as char, 0x2002 as char, 0x2003 as char, 0x2004 as char, 0x2005 as char, 0x2006 as char,
    0x2007 as char, 0x2008 as char, 0x2009 as char, 0x200A as char, 0x2028 as char, 0x2029 as char,
    0x202F as char, 0x205F as char, 0x3000 as char}

  predicate IsSpace(c: char) {
    c in WhiteSpace
  }

  predicate AllSpace(s: string) {
    forall k :: 0 <= k < |s| ==> IsSpace(s[k])
  }

  predicate NoSpace(s: string) {
    forall k :: 0 <= k < |s| ==> !IsSpace(s[k])
  }

  function UpperChar(c: char): char {
    if 'a' <= c <= 'z' then (c as int - 32) as char else c
  }

  /** `s.upper()`, restricted to ASCII letters. */
  function Upper(s: string): (r: string)
    ensures |r| == |s|
  {
    seq(|s|, i requires 0 <= i < |s| => UpperChar(s[i]))
  }

  lemma UpperAppend(a: string, b: string)
    ensures Upper(a + b) == Upper(a) + Upper(b)
  {
    assert forall k :: 0 <= k < |a + b| ==> Upper(a + b)[k] == (Upper(a) + Upper(b))[k];
  }

  /** `s.find(c)`: the index of the first occurrence of `c`, or -1 when there is none. */
  function Find(s: string, c: char): (r: int)
    ensures -1 <= r < |s|
  {
    if |s| == 0 then -1
    else if s[0] == c then 0
    else
      var k := Find(s[1..], c);
      if k == -1 then -1 else k + 1
  }

  /** `find` gives the first occurrence, and -1 exactly when there is none. */
  lemma {:induction false} FindFirst(s: string, c: char)
    ensures Find(s, c) == -1 <==> c !in s
    ensures Find(s, c) >= 0 ==> s[Find(s, c)] == c && c !in s[..Find(s, c)]
  {
    if |s| > 0 && s[0] != c {
      FindFirst(s[1..], c);
      var k := Find(s[1..], c);
      assert c in s <==> c in s[1..] by {
        assert s == [s[0]] + s[1..];
      }
      if k >= 0 {
        assert s[..k + 1] == [s[0]] + s[1..][..k];
      }
    }
  }

  ghost predicate OccursAt(s: string, pat: string, i: int) {
    0 <= i && i + |pat| <= |s| && s[i..i + |pat|] == pat
  }

  /** `pat in s`: substring containment. */
  function Contains(s: string, pat: string): bool
    decreases |s|
  {
    if pat <= s then true
    else if |s| == 0 then false
    else Contains(s[1..], pat)
  }

  /** `pat in s` holds exactly when `pat` occurs at some position of `s`. */
  lemma {:induction false} ContainsOccurs(s: string, pat: string)
    ensures Contains(s, pat) <==> exists i :: OccursAt(s, pat, i)
    decreases |s|
  {
    if pat <= s {
      assert OccursAt(s, pat, 0);
    } else if |s| > 0 {
      ContainsOccurs(s[1..], pat);
      assert forall i :: OccursAt(s[1..], pat, i) ==> OccursAt(s, pat, i + 1);
      assert forall i :: OccursAt(s, pat, i) ==> i > 0 && OccursAt(s[1..], pat, i - 1);
    }
  }

  /** Python's reading of a slice bound against a sequence of length `n`. */
  function SliceBound(i: int, n: nat): (k: nat)
    ensures k <= n
    ensures 0 <= i <= n ==> k == i
    ensures i < 0 && 0 <= i + n ==> k == i + n
    ensures i + n < 0 ==> k == 0
    ensures i > n ==> k == n
  {
    if i < 0 then (if i + n < 0 then 0 else i + n)
    else if i > n then n
    else i
  }

  /** `s[i:j]` with Python's rules: negative bounds count from the end, an empty range gives "". */
  function Slice(s: string, i: int, j: int): (r: string)
    ensures |r| <= |s|
  {
    var lo := SliceBound(i, |s|);
    var hi := SliceBound(j, |s|);
    if lo < hi then s[lo..hi] else []
  }

  /** The number of whitespace characters `s` starts with. */
  function LeadingSpace(s: string): (k: nat)
    ensures k <= |s|
  {
    if |s| > 0 && IsSpace(s[0]) then 1 + LeadingSpace(s[1..]) else 0
  }

  /** The number of whitespace characters `s` ends with. */
  function TrailingSpace(s: string): (k: nat)
    ensures k <= |s|
  {
    if |s| > 0 && IsSpace(s[|s| - 1]) then 1 + TrailingSpace(s[..|s| - 1]) else 0
  }

  lemma {:induction false} LeadingSpaceMaximal(s: string)
    ensures AllSpace(s[..LeadingSpace(s)])
    ensures LeadingSpace(s) < |s| ==> !IsSpace(s[LeadingSpace(s)])
  {
    if |s| > 0 && IsSpace(s[0]) {
      LeadingSpaceMaximal(s[1..]);
      var k := LeadingSpace(s[1..]);
      assert s[..k + 1] == [s[0]] + s[1..][..k];
    }
  }

  lemma {:induction false} TrailingSpaceMaximal(s: string)
    ensures AllSpace(s[|s| - TrailingSpace(s)..])
    ensures TrailingSpace(s) < |s| ==> !IsSpace(s[|s| - 1 - TrailingSpace(s)])
  {
    if |s| > 0 && IsSpace(s[|s| - 1]) {
      var p := s[..|s| - 1];
      TrailingSpaceMaximal(p);
      var k := TrailingSpace(p);
      assert s[|s| - (k + 1)..] == p[|p| - k..] + [s[|s| - 1]];
    }
  }

  /** `s.strip()`. */
  function Strip(s: string): (r: string)
    ensures |r| <= |s|
  {
    var a := LeadingSpace(s);
    s[a..|s| - TrailingSpace(s[a..])]
  }

  /** `s` is whitespace, then `s.strip()`, then whitespace; the result neither starts nor ends with whitespace. */
  lemma StripParts(s: string)
    ensures var a, r := LeadingSpace(s), Strip(s);
      && a + |r| <= |s|
      && r == s[a..a + |r|]
      && AllSpace(s[..a]) && AllSpace(s[a + |r|..])
      && (r == [] || (!IsSpace(r[0]) && !IsSpace(r[|r| - 1])))
  {
    StripSlice(s);
    StripFront(s);
    StripBack(s);
    StripEnds(s);
  }

  /** What `strip` keeps is one slice of its argument. */
  lemma StripSlice(s: string)
    ensures var a, r := LeadingSpace(s), Strip(s);
      a + |r| <= |s| && r == s[a..a + |r|]
  {
  }

  /** What `strip` removes in front is whitespace. */
  lemma StripFront(s: string)
    ensures AllSpace(s[..LeadingSpace(s)])
  {
    LeadingSpaceMaximal(s);
  }

  /** What `strip` removes at the back is whitespace. */
  lemma StripBack(s: string)
    ensures var a := LeadingSpace(s);
      a + |Strip(s)| <= |s| && AllSpace(s[a + |Strip(s)|..])
  {
    var t := s[LeadingSpace(s)..];
    TrailingSpaceMaximal(t);
    assert s[|s| - TrailingSpace(t)..] == t[|t| - TrailingSpace(t)..];
  }

  /** What `strip` keeps starts and ends with a non-space character. */
  lemma StripEnds(s: string)
    ensures var r := Strip(s); r == [] || (!IsSpace(r[0]) && !IsSpace(r[|r| - 1]))
  {
    var a := LeadingSpace(s);
    var t := s[a..];
    var e := |s| - TrailingSpace(t);
    LeadingSpaceMaximal(s);
    TrailingSpaceMaximal(t);
    if a < e {
      SuffixIndex(s, a, 0);
      SuffixIndex(s, a, |t| - 1 - TrailingSpace(t));
    }
  }

  lemma SuffixIndex(s: string, a: nat, k: nat)
    requires a + k < |s|
    ensures s[a..][k] == s[a + k]
  {
  }

  /** The longest prefix of `s` that holds no whitespace. */
  function Word(s: string): (w: string)
    ensures |w| <= |s|
    ensures |s| > 0 && !IsSpace(s[0]) ==> |w| > 0
  {
    if |s| == 0 || IsSpace(s[0]) then [] else [s[0]] + Word(s[1..])
  }

  lemma {:induction false} WordIsPrefix(s: string)
    ensures Word(s) == s[..|Word(s)|] && NoSpace(Word(s))
    ensures |Word(s)| < |s| ==> IsSpace(s[|Word(s)|])
  {
    if |s| > 0 && !IsSpace(s[0]) {
      WordIsPrefix(s[1..]);
    }
  }

  /** `s.split()`: the maximal runs of non-whitespace characters, in order. */
  function Tokens(s: string): seq<string>
    decreases |s|
  {
    if s == [] then []
    else if IsSpace(s[0]) then Tokens(s[1..])
    else
      var w := Word(s);
      [w] + Tokens(s[|w|..])
  }

  /** Every token is non-empty and holds no whitespace. */
  lemma {:induction false} TokensAreWords(s: string)
    ensures forall k :: 0 <= k < |Tokens(s)| ==> |Tokens(s)[k]| > 0 && NoSpace(Tokens(s)[k])
    decreases |s|
  {
    if s == [] {
    } else if IsSpace(s[0]) {
      TokensAreWords(s[1..]);
    } else {
      WordIsPrefix(s);
      TokensAreWords(s[|Word(s)|..]);
    }
  }

  /** Splitting on whitespace finds no token exactly when the text is all whitespace. */
  lemma {:induction false} TokensEmptyIff(s: string)
    ensures Tokens(s) == [] <==> AllSpace(s)
    decreases |s|
  {
    if s != [] && IsSpace(s[0]) {
      TokensEmptyIff(s[1..]);
      assert AllSpace(s) <==> AllSpace(s[1..]) by {
        if AllSpace(s[1..]) {
          assert forall k :: 1 <= k < |s| ==> s[k] == s[1..][k - 1];
        }
      }
    }
  }

  lemma {:induction false} WordAppend(a: string, b: string)
    requires (|a| > 0 && IsSpace(a[|a| - 1])) || b == [] || IsSpace(b[0])
    ensures Word(a + b) == Word(a)
    decreases |a|
  {
    if a == [] {
      assert a + b == b;
    } else if IsSpace(a[0]) {
      assert (a + b)[0] == a[0];
    } else {
      assert (a + b)[0] == a[0];
      DropAppend(a, b, 1);
      WordAppend(a[1..], b);
    }
  }

  lemma DropAppend(a: string, b: string, k: nat)
    requires k <= |a|
    ensures (a + b)[k..] == a[k..] + b
  {
  }

  /** Text joined at a whitespace boundary splits into the tokens of each part. */
  lemma {:induction false} TokensAppend(a: string, b: string)
    requires a == [] || IsSpace(a[|a| - 1]) || b == [] || IsSpace(b[0])
    ensures Tokens(a + b) == Tokens(a) + Tokens(b)
    decreases |a|
  {
    if a == [] {
      assert a + b == b;
    } else if IsSpace(a[0]) {
      assert (a + b)[0] == a[0];
      DropAppend(a, b, 1);
      TokensAppend(a[1..], b);
    } else {
      assert (a + b)[0] == a[0];
      WordAppend(a, b);
      var w := Word(a);
      var rest := a[|w|..];
      DropAppend(a, b, |w|);
      if rest == [] {
        WordIsPrefix(a);
        assert a == w;
      } else {
        assert rest[|rest| - 1] == a[|a| - 1];
      }
      TokensAppend(rest, b);
      AppendAssoc([w], Tokens(rest), Tokens(b));
    }
  }

  lemma {:induction false} WordOfWord(w: string)
    requires NoSpace(w)
    ensures Word(w) == w
  {
    if w != [] {
      WordOfWord(w[1..]);
    }
  }

  /** A non-empty run without whitespace is its own single token. */
  lemma TokensOfWord(w: string)
    requires |w| > 0 && NoSpace(w)
    ensures Tokens(w) == [w]
  {
    WordOfWord(w);
    assert w[|w|..] == [];
  }

  /** Whitespace around a stripped text adds no tokens. */
  lemma TokensOfPadded(lead: string, r: string, trail: string)
    requires AllSpace(lead) && AllSpace(trail)
    ensures Tokens(lead + r + trail) == Tokens(r)
  {
    assert lead + r + trail == lead + (r + trail);
    assert lead != [] ==> IsSpace(lead[|lead| - 1]);
    assert trail != [] ==> IsSpace(trail[0]);
    TokensAppend(lead, r + trail);
    TokensAppend(r, trail);
    TokensEmptyIff(lead);
    TokensEmptyIff(trail);
  }

  /** Stripping never changes the tokens. */
  lemma TokensOfStrip(s: string)
    ensures Tokens(Strip(s)) == Tokens(s)
  {
    var r := Strip(s);
    var a := LeadingSpace(s);
    StripParts(s);
    var lead, trail := s[..a], s[a + |r|..];
    assert s == lead + r + trail;
    TokensOfPadded(lead, r, trail);
  }

  /** A word followed by a blank starts the token list. */
  lemma TokensJoin(w: string, rest: string)
    requires |w| > 0 && NoSpace(w)
    ensures Tokens(w + " " + rest) == [w] + Tokens(rest)
  {
    assert w + " " + rest == w + (" " + rest);
    TokensAppend(w, " " + rest);
    TokensOfWord(w);
    assert (" " + rest)[1..] == rest;
  }

  /** Text that neither starts nor ends with whitespace is its own strip. */
  lemma StripOfStripped(s: string)
    requires s == [] || (!IsSpace(s[0]) && !IsSpace(s[|s| - 1]))
    ensures Strip(s) == s
  {
  }

  lemma AppendAssoc<T>(x: seq<T>, y: seq<T>, z: seq<T>)
    ensures x + (y + z) == (x + y) + z
  {
  }
}
