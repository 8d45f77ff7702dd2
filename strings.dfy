/**
 * Option and the handful of `str` operations the scraper relies on:
 * Rust's `trim`, `starts_with` and `find` on a string pattern,
 * over strings modelled as sequences of characters.
 */
module Wrappers {

  datatype Option<+T> = None | Some(value: T)
}

module Strings {
  import opened Wrappers

  /** Rust's `char::is_whitespace`: the Unicode White_Space property. */
  predicate IsWhitespace(c: char)
  {
    || ('\t' <= c <= '\r')
    || c == ' '
    || c == '\U{0085}'
    || c == '\U{00A0}'
    || c == '\U{1680}'
    || ('\U{2000}' <= c <= '\U{200A}')
    || c == '\U{2028}'
    || c == '\U{2029}'
    || c == '\U{202F}'
    || c == '\U{205F}'
    || c == '\U{3000}'
  }

  /** `str::trim_start`: drops the leading whitespace, and only that. */
  function TrimStart(s: string): (r: string)
  {
    if s != [] && IsWhitespace(s[0]) then TrimStart(s[1..]) else s
  }

  /** `str::trim_end`: drops the trailing whitespace, and only that. */
  function TrimEnd(s: string): (r: string)
  {
    if s != [] && IsWhitespace(s[|s| - 1]) then TrimEnd(s[..|s| - 1]) else s
  }

  /** `trim_start` keeps a suffix that starts with a non-whitespace character. */
  lemma {:induction false} TrimStartIsSuffix(s: string)
    ensures |TrimStart(s)| <= |s| && TrimStart(s) == s[|s| - |TrimStart(s)|..]
    ensures TrimStart(s) == [] || !IsWhitespace(TrimStart(s)[0])
  {
    if s != [] && IsWhitespace(s[0]) {
      TrimStartIsSuffix(s[1..]);
    }
  }

  /** `trim_end` keeps a prefix that ends with a non-whitespace character. */
  lemma {:induction false} TrimEndIsPrefix(s: string)
    ensures |TrimEnd(s)| <= |s| && TrimEnd(s) == s[..|TrimEnd(s)|]
    ensures TrimEnd(s) == [] || !IsWhitespace(TrimEnd(s)[|TrimEnd(s)| - 1])
  {
    if s != [] && IsWhitespace(s[|s| - 1]) {
      TrimEndIsPrefix(s[..|s| - 1]);
    }
  }

  /** A trimmed string neither starts nor ends with whitespace. */
  lemma TrimEnds(s: string)
    ensures Trim(s) == [] || (!IsWhitespace(Trim(s)[0]) && !IsWhitespace(Trim(s)[|Trim(s)| - 1]))
  {
    TrimStartIsSuffix(s);
    TrimEndIsPrefix(TrimStart(s));
    var t := TrimStart(s);
    if TrimEnd(t) != [] {
      assert TrimEnd(t)[0] == t[0];
    }
  }

  /** `trim_start` drops whitespace and nothing else. */
  lemma {:induction false} TrimStartDropsOnlyWhitespace(s: string)
    ensures forall i :: 0 <= i < |s| - |TrimStart(s)| ==> IsWhitespace(s[i])
  {
    if s != [] && IsWhitespace(s[0]) {
      TrimStartDropsOnlyWhitespace(s[1..]);
      forall i | 0 <= i < |s| - |TrimStart(s)| ensures IsWhitespace(s[i]) {
        if i > 0 {
          assert s[i] == s[1..][i - 1];
        }
      }
    }
  }

  /** `trim_end` drops whitespace and nothing else. */
  lemma {:induction false} TrimEndDropsOnlyWhitespace(s: string)
    ensures forall i :: |TrimEnd(s)| <= i < |s| ==> IsWhitespace(s[i])
  {
    if s != [] && IsWhitespace(s[|s| - 1]) {
      TrimEndDropsOnlyWhitespace(s[..|s| - 1]);
      forall i | |TrimEnd(s)| <= i < |s| ensures IsWhitespace(s[i]) {
        if i < |s| - 1 {
          assert s[i] == s[..|s| - 1][i];
        }
      }
    }
  }

  /** `str::trim`. */
  function Trim(s: string): (r: string)
    ensures |r| <= |s|
  {
    TrimStartIsSuffix(s);
    TrimEndIsPrefix(TrimStart(s));
    TrimEnd(TrimStart(s))
  }

  /** A string that neither starts nor ends with whitespace is its own trim. */
  lemma TrimmedIsFixed(s: string)
    requires s == [] || (!IsWhitespace(s[0]) && !IsWhitespace(s[|s| - 1]))
    ensures Trim(s) == s
  {
  }

  /** Leading whitespace does not survive a trim. */
  lemma TrimSkipsLeading(s: string)
    requires s != [] && IsWhitespace(s[0])
    ensures Trim(s) == Trim(s[1..])
  {
  }

  /** One space before an already trimmed string is all that a trim removes. */
  lemma TrimOneLeadingSpace(s: string)
    requires s != [] && !IsWhitespace(s[0]) && !IsWhitespace(s[|s| - 1])
    ensures Trim([' '] + s) == s
  {
    assert ([' '] + s)[1..] == s;
    TrimSkipsLeading([' '] + s);
    TrimmedIsFixed(s);
  }

  /** Trimming twice is trimming once. */
  lemma TrimIdempotent(s: string)
    ensures Trim(Trim(s)) == Trim(s)
  {
    TrimEnds(s);
    TrimmedIsFixed(Trim(s));
  }

  /** A string made only of whitespace trims to the empty string. */
  lemma {:induction false} TrimAllWhitespace(s: string)
    requires forall i :: 0 <= i < |s| ==> IsWhitespace(s[i])
    ensures Trim(s) == []
  {
    if s != [] {
      TrimAllWhitespace(s[1..]);
      assert TrimStart(s) == TrimStart(s[1..]);
    }
  }

  /** Leading whitespace, however much, does not change what `trim_start` keeps. */
  lemma {:induction false} TrimStartSkipsWhitespace(pre: string, t: string)
    requires forall i :: 0 <= i < |pre| ==> IsWhitespace(pre[i])
    ensures TrimStart(pre + t) == TrimStart(t)
  {
    if pre != [] {
      assert (pre + t)[1..] == pre[1..] + t;
      TrimStartSkipsWhitespace(pre[1..], t);
    } else {
      assert pre + t == t;
    }
  }

  /** Trailing whitespace, however much, does not change what `trim_end` keeps. */
  lemma {:induction false} TrimEndSkipsWhitespace(t: string, post: string)
    requires forall i :: 0 <= i < |post| ==> IsWhitespace(post[i])
    ensures TrimEnd(t + post) == TrimEnd(t)
  {
    if post != [] {
      var last := |post| - 1;
      assert (t + post)[..|t + post| - 1] == t + post[..last];
      TrimEndSkipsWhitespace(t, post[..last]);
    } else {
      assert t + post == t;
    }
  }

  /** Whitespace around a trimmed word is exactly what `trim` removes. */
  lemma TrimPadded(pre: string, core: string, post: string)
    requires forall i :: 0 <= i < |pre| ==> IsWhitespace(pre[i])
    requires forall i :: 0 <= i < |post| ==> IsWhitespace(post[i])
    requires core == [] || (!IsWhitespace(core[0]) && !IsWhitespace(core[|core| - 1]))
    ensures Trim(pre + core + post) == core
  {
    assert pre + core + post == pre + (core + post);
    TrimStartSkipsWhitespace(pre, core + post);
    if core == [] {
      assert core + post == post;
      TrimAllWhitespace(post);
    } else {
      assert (core + post)[0] == core[0];
      TrimEndSkipsWhitespace(core, post);
    }
  }

  /** `str::starts_with` on a string pattern. */
  predicate StartsWith(s: string, prefix: string)
  {
    |prefix| <= |s| && s[..|prefix|] == prefix
  }

  /** `pat` occurs in `s` at character index `i`. */
  predicate OccursAt(s: string, pat: string, i: nat)
  {
    i + |pat| <= |s| && s[i..i + |pat|] == pat
  }

  /** The first occurrence of `pat` in `s` at or after `from`. */
  function IndexFrom(s: string, pat: string, from: nat): (r: Option<nat>)
    requires from <= |s|
    ensures r.Some? ==> from <= r.value && OccursAt(s, pat, r.value)
    decreases |s| - from
  {
    if OccursAt(s, pat, from) then Some(from)
    else if from == |s| then None
    else IndexFrom(s, pat, from + 1)
  }

  /** `str::find`: the index of the first occurrence of `pat`, if any. */
  function IndexOf(s: string, pat: string): (r: Option<nat>)
    ensures r.Some? ==> OccursAt(s, pat, r.value)
  {
    IndexFrom(s, pat, 0)
  }

  /** The search from `from` skips no occurrence, and reports none when there is none. */
  lemma {:induction false} IndexFromIsFirst(s: string, pat: string, from: nat)
    requires from <= |s|
    ensures IndexFrom(s, pat, from).Some? ==>
      forall q: nat :: from <= q < IndexFrom(s, pat, from).value ==> !OccursAt(s, pat, q)
    ensures IndexFrom(s, pat, from).None? ==> forall q: nat :: from <= q ==> !OccursAt(s, pat, q)
    decreases |s| - from
  {
    if !OccursAt(s, pat, from) && from < |s| {
      IndexFromIsFirst(s, pat, from + 1);
    }
  }

  /** `IndexOf` reports the first occurrence, and None exactly when there is none. */
  lemma IndexOfIsFirstOccurrence(s: string, pat: string)
    ensures IndexOf(s, pat).Some? ==> forall q: nat :: q < IndexOf(s, pat).value ==> !OccursAt(s, pat, q)
    ensures IndexOf(s, pat).None? <==> forall q: nat :: !OccursAt(s, pat, q)
  {
    IndexFromIsFirst(s, pat, 0);
  }

  /** An occurrence with none before it is the one `IndexOf` reports. */
  lemma IndexOfIsFirst(s: string, pat: string, k: nat)
    requires OccursAt(s, pat, k)
    requires forall q: nat :: q < k ==> !OccursAt(s, pat, q)
    ensures IndexOf(s, pat) == Some(k)
  {
    IndexOfIsFirstOccurrence(s, pat);
  }

  /** The first position of a character is where `IndexOf` finds it. */
  lemma IndexOfFirstChar(s: string, c: char, k: nat)
    requires k < |s| && s[k] == c && c !in s[..k]
    ensures IndexOf(s, [c]) == Some(k)
  {
    assert s[k..k + 1] == [c];
    forall q: nat | q < k ensures !OccursAt(s, [c], q) {
      assert s[q..q + 1][0] == s[..k][q];
    }
    IndexOfIsFirst(s, [c], k);
  }

  /** A single-character pattern absent from `s` is not found. */
  lemma IndexOfAbsentChar(s: string, c: char)
    requires c !in s
    ensures IndexOf(s, [c]) == None
  {
    IndexOfIsFirstOccurrence(s, [c]);
    forall q: nat ensures !OccursAt(s, [c], q) {
      if q + 1 <= |s| {
        assert s[q..q + 1][0] == s[q];
      }
    }
  }
}
