/** The pieces of Python's string and path semantics that the SIGTAP decoders and the
    q9/q10 scripts rely on: slicing with clamping, str.strip(), str.replace(old, ''),
    str.endswith() and pathlib's PurePath.stem. Also the exceptions the scripts can raise. */
module PyStr {

  /** The Python exceptions the modelled code raises, with the offending key or name. */
  datatype PyError =
    | KeyError(key: string)
    | UnboundLocalError(variable: string)
    | TypeError(message: string)
    | ValueError(message: string)
    | AttributeError(message: string)

  /** A value that may be absent (Python's None). */
  datatype Option<+T> = None | Some(value: T)

  /** A call either returns a value or raises a Python exception. */
  datatype Result<+T> = Ok(value: T) | Err(error: PyError)

  // ---------------------------------------------------------------------------
  // Comprehensions: [f(x) for x in xs]
  // ---------------------------------------------------------------------------

  /** The list comprehension [f(x) for x in xs]. */
  function Map<A, B>(f: A -> B, xs: seq<A>): (ys: seq<B>)
    ensures |ys| == |xs|
  {
    if xs == [] then []
    else Map(f, xs[..|xs| - 1]) + [f(xs[|xs| - 1])]
  }

  /** The i-th element of the comprehension is f applied to the i-th element. */
  lemma {:induction false} MapAt<A, B>(f: A -> B, xs: seq<A>)
    ensures forall i :: 0 <= i < |xs| ==> Map(f, xs)[i] == f(xs[i])
    decreases |xs|
  {
    if xs != [] {
      MapAt(f, xs[..|xs| - 1]);
    }
  }

  // ---------------------------------------------------------------------------
  // Slicing: s[start:stop] with step 1
  // ---------------------------------------------------------------------------

  /** Python's adjustment of one slice bound against a sequence of length n:
      a negative bound counts from the end, then the bound is clamped to [0, n]. */
  function ClampBound(i: int, n: nat): (r: nat)
    ensures r <= n
    ensures 0 <= i <= n ==> r == i
    ensures i > n ==> r == n
    ensures i < 0 && 0 <= i + n ==> r == i + n
    ensures i + n < 0 ==> r == 0
  {
    if i < 0 then (if i + n < 0 then 0 else i + n)
    else if i > n then n
    else i
  }

  /** s[start:stop]. Never fails: out-of-range bounds are clamped, and a slice whose
      adjusted start is not before its adjusted stop is empty. */
  function Slice(s: string, start: int, stop: int): (r: string)
    ensures |r| <= |s|
    // within bounds the slice is exact
    ensures 0 <= start <= stop <= |s| ==> r == s[start..stop]
    // a stop past the end is clamped: the slice is a suffix, possibly empty
    ensures 0 <= start <= |s| <= stop ==> r == s[start..]
    // a start at or past the end gives the empty string rather than an error
    ensures 0 <= |s| <= start ==> r == []
    // a reversed range is empty
    ensures 0 <= stop <= start ==> r == []
    // a negative start counts from the end
    ensures start < 0 && 0 <= |s| + start && |s| <= stop ==> r == s[|s| + start..]
  {
    var lo := ClampBound(start, |s|);
    var hi := ClampBound(stop, |s|);
    if lo < hi then s[lo..hi] else []
  }

  // ---------------------------------------------------------------------------
  // Whitespace and str.strip()
  // ---------------------------------------------------------------------------

  /** str.isspace() for one character: the characters Python treats as whitespace
      (Unicode White_Space, plus the four ASCII separators 0x1C-0x1F). */
  predicate IsSpace(c: char)
  {
    c == ' ' || ('\t' <= c <= '\r') || ('\U{1C}' <= c <= '\U{1F}') ||
    c == '\U{85}' || c == '\U{A0}' || c == '\U{1680}' || ('\U{2000}' <= c <= '\U{200A}') ||
    c == '\U{2028}' || c == '\U{2029}' || c == '\U{202F}' || c == '\U{205F}' || c == '\U{3000}'
  }

  predicate AllSpace(s: string)
  {
    forall i :: 0 <= i < |s| ==> IsSpace(s[i])
  }

  /** Neither end of s is whitespace. */
  predicate IsStripped(s: string)
  {
    s != [] ==> !IsSpace(s[0]) && !IsSpace(s[|s| - 1])
  }

  /** Scanning forward from i: the first position that is not whitespace, or |s|. */
  function SkipSpace(s: string, i: nat): (k: nat)
    requires i <= |s|
    ensures i <= k <= |s|
    ensures k < |s| ==> !IsSpace(s[k])
    decreases |s| - i
  {
    if i < |s| && IsSpace(s[i]) then SkipSpace(s, i + 1) else i
  }

  /** Scanning backward from j down to lo: the end of the last non-whitespace
      character, or lo. */
  function TrimSpace(s: string, lo: nat, j: nat): (k: nat)
    requires lo <= j <= |s|
    ensures lo <= k <= j
    ensures lo < k ==> !IsSpace(s[k - 1])
    decreases j
  {
    if lo < j && IsSpace(s[j - 1]) then TrimSpace(s, lo, j - 1) else j
  }

  /** Where the text kept by str.strip() begins. */
  function StripStart(s: string): (lo: nat)
    ensures lo <= |s|
  {
    SkipSpace(s, 0)
  }

  /** Where the text kept by str.strip() ends. */
  function StripEnd(s: string): (hi: nat)
    ensures StripStart(s) <= hi <= |s|
  {
    TrimSpace(s, StripStart(s), |s|)
  }

  /** str.strip(): leading and trailing whitespace removed. */
  function Strip(s: string): (r: string)
    ensures |r| <= |s|
  {
    s[StripStart(s)..StripEnd(s)]
  }

  lemma {:induction false} SkipSpaceSkipsOnlySpace(s: string, i: nat)
    requires i <= |s|
    ensures AllSpace(s[i..SkipSpace(s, i)])
    decreases |s| - i
  {
    if i < |s| && IsSpace(s[i]) {
      SkipSpaceSkipsOnlySpace(s, i + 1);
      assert s[i..SkipSpace(s, i)] == [s[i]] + s[i + 1..SkipSpace(s, i)];
    }
  }

  lemma {:induction false} TrimSpaceTrimsOnlySpace(s: string, lo: nat, j: nat)
    requires lo <= j <= |s|
    ensures AllSpace(s[TrimSpace(s, lo, j)..j])
    decreases j
  {
    if lo < j && IsSpace(s[j - 1]) {
      TrimSpaceTrimsOnlySpace(s, lo, j - 1);
      assert s[TrimSpace(s, lo, j)..j] == s[TrimSpace(s, lo, j)..j - 1] + [s[j - 1]];
    }
  }

  /** The result of str.strip() is a middle part of s that neither starts nor ends
      with whitespace, and only whitespace is cut away on either side. */
  lemma StripShape(s: string)
    ensures Strip(s) == s[StripStart(s)..StripEnd(s)]
    ensures IsStripped(Strip(s))
    ensures AllSpace(s[..StripStart(s)]) && AllSpace(s[StripEnd(s)..])
  {
    SkipSpaceSkipsOnlySpace(s, 0);
    TrimSpaceTrimsOnlySpace(s, StripStart(s), |s|);
  }

  /** Text that neither starts nor ends with whitespace is left as it is. */
  lemma StripOfStripped(s: string)
    requires IsStripped(s)
    ensures Strip(s) == s
  {
    assert s[..] == s;
  }

  /** Stripping twice is stripping once. */
  lemma StripIdempotent(s: string)
    ensures Strip(Strip(s)) == Strip(s)
  {
    StripShape(s);
    StripOfStripped(Strip(s));
  }

  lemma {:induction false} SkipSpaceAppend(s: string, c: char, i: nat)
    requires i <= |s|
    ensures SkipSpace(s, i) < |s| ==> SkipSpace(s + [c], i) == SkipSpace(s, i)
    ensures SkipSpace(s, i) == |s| && IsSpace(c) ==> SkipSpace(s + [c], i) == |s| + 1
    decreases |s| - i
  {
    var t := s + [c];
    assert t[..|s|] == s;
    if i < |s| && IsSpace(s[i]) {
      SkipSpaceAppend(s, c, i + 1);
    } else if i == |s| && IsSpace(c) {
      assert t[|s|] == c;
    }
  }

  lemma {:induction false} TrimSpaceAppend(s: string, c: char, lo: nat, j: nat)
    requires lo <= j <= |s|
    ensures TrimSpace(s + [c], lo, j) == TrimSpace(s, lo, j)
    decreases j
  {
    if lo < j {
      assert (s + [c])[j - 1] == s[j - 1];
      TrimSpaceAppend(s, c, lo, j - 1);
    }
  }

  /** A trailing whitespace character makes no difference to str.strip(). */
  lemma StripAppendSpace(s: string, c: char)
    requires IsSpace(c)
    ensures Strip(s + [c]) == Strip(s)
  {
    var t := s + [c];
    SkipSpaceAppend(s, c, 0);
    if StripStart(s) < |s| {
      var lo := StripStart(s);
      assert t[|t| - 1] == c;
      assert TrimSpace(t, lo, |t|) == TrimSpace(t, lo, |s|);
      TrimSpaceAppend(s, c, lo, |s|);
      assert t[lo..StripEnd(t)] == s[lo..StripEnd(s)];
    }
  }

  // ---------------------------------------------------------------------------
  // str.endswith, str.replace(old, ''), str.rfind and PurePath.stem
  // ---------------------------------------------------------------------------

  predicate EndsWith(s: string, suffix: string)
  {
    |suffix| <= |s| && s[|s| - |suffix|..] == suffix
  }

  predicate StartsWith(s: string, prefix: string)
  {
    |prefix| <= |s| && s[..|prefix|] == prefix
  }

  /** pat occurs in s at position i. */
  predicate OccursAt(s: string, pat: string, i: int)
  {
    0 <= i && i + |pat| <= |s| && s[i..i + |pat|] == pat
  }

  /** s.replace(pat, '') for a non-empty pat: scanning left to right, every
      non-overlapping occurrence is cut out, and the text that results from a cut is
      not scanned again. */
  function RemoveAll(s: string, pat: string): (r: string)
    requires pat != []
    ensures |r| <= |s|
    decreases |s|
  {
    if StartsWith(s, pat) then RemoveAll(s[|pat|..], pat)
    else if s == [] then []
    else [s[0]] + RemoveAll(s[1..], pat)
  }

  /** Text in which pat does not occur is left as it is. */
  lemma {:induction false} RemoveAllUnchanged(s: string, pat: string)
    requires pat != []
    requires forall i :: 0 <= i ==> !OccursAt(s, pat, i)
    ensures RemoveAll(s, pat) == s
    decreases |s|
  {
    assert !OccursAt(s, pat, 0);
    if s != [] {
      forall i | 0 <= i
        ensures !OccursAt(s[1..], pat, i)
      {
        if OccursAt(s[1..], pat, i) {
          assert s[1..][i..i + |pat|] == s[i + 1..i + 1 + |pat|];
          assert OccursAt(s, pat, i + 1);
        }
      }
      RemoveAllUnchanged(s[1..], pat);
    }
  }

  /** pat has no proper prefix that is also a suffix of it, so two occurrences of pat
      can never overlap. */
  predicate Borderless(pat: string)
  {
    forall k :: 0 < k < |pat| ==> pat[..k] != pat[|pat| - k..]
  }

  /** An occurrence of pat at the start of x + pat, with x shorter than pat, means the
      last |pat| - |x| characters of pat are also its first ones. */
  lemma StraddleIsBorder(x: string, pat: string)
    requires |x| < |pat| && StartsWith(x + pat, pat)
    ensures pat[|x|..] == pat[..|pat| - |x|]
  {
    var k := |pat| - |x|;
    assert (x + pat)[..|pat|] == pat;
    forall i | 0 <= i < k
      ensures pat[|x|..][i] == pat[..k][i]
    {
      assert (x + pat)[|x| + i] == pat[i];
    }
  }

  lemma RemoveAllSkip(s: string, pat: string)
    requires pat != [] && s != [] && s[0] != pat[0]
    ensures RemoveAll(s, pat) == [s[0]] + RemoveAll(s[1..], pat)
  {}

  /** A prefix in which the pattern's first character never appears passes through
      the scan unchanged. */
  lemma {:induction false} RemoveAllNoStart(a: string, t: string, pat: string)
    requires pat != []
    requires forall i :: 0 <= i < |a| ==> a[i] != pat[0]
    ensures RemoveAll(a + t, pat) == a + RemoveAll(t, pat)
    decreases |a|
  {
    if a == [] {
      assert a + t == t;
    } else {
      RemoveAllSkip(a + t, pat);
      assert (a + t)[1..] == a[1..] + t;
      RemoveAllNoStart(a[1..], t, pat);
      assert a + RemoveAll(t, pat) == [a[0]] + (a[1..] + RemoveAll(t, pat));
    }
  }

  /** For a borderless pattern, a trailing occurrence is always removed and leaves the
      rest of the scan untouched. */
  lemma {:induction false} RemoveAllTrailing(x: string, pat: string)
    requires pat != [] && Borderless(pat)
    ensures RemoveAll(x + pat, pat) == RemoveAll(x, pat)
    decreases |x|
  {
    if x == [] {
      assert x + pat == pat;
      assert pat[|pat|..] == [];
    } else if StartsWith(x + pat, pat) {
      if |x| < |pat| {
        // the occurrence would straddle x and the appended pat: a border of pat
        StraddleIsBorder(x, pat);
        assert false;
      } else {
        assert (x + pat)[..|pat|] == x[..|pat|];
        assert (x + pat)[|pat|..] == x[|pat|..] + pat;
        RemoveAllTrailing(x[|pat|..], pat);
      }
    } else {
      if |pat| <= |x| {
        assert (x + pat)[..|pat|] == x[..|pat|];
      }
      assert (x + pat)[1..] == x[1..] + pat;
      RemoveAllTrailing(x[1..], pat);
    }
  }

  /** The position of the last c in s, or -1 (str.rfind for one character). */
  function RFind(s: string, c: char): (i: int)
    ensures -1 <= i < |s|
    ensures i >= 0 ==> s[i] == c
    ensures forall j :: i < j < |s| ==> s[j] != c
  {
    if s == [] then -1
    else if s[|s| - 1] == c then |s| - 1
    else RFind(s[..|s| - 1], c)
  }

  /** PurePath.stem: the name without its last suffix. A name whose only dot is its
      first character, or whose last dot is its last character, has no suffix. */
  function Stem(name: string): string
  {
    var i := RFind(name, '.');
    if 0 < i < |name| - 1 then name[..i] else name
  }

  /** The stem of a file named x + ".txt", for a non-empty x, is x. */
  lemma StemOfTxt(x: string)
    requires x != []
    ensures Stem(x + ".txt") == x
  {
    var n := x + ".txt";
    assert n[|x|] == '.';
    assert n[|x| + 1] != '.' && n[|x| + 2] != '.' && n[|x| + 3] != '.';
    assert RFind(n, '.') == |x|;
    assert n[..|x|] == x;
  }
}
