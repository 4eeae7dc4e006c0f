/** The token substitution engine of the project generator: the search
    primitive std::string::find, the inline "replace the first occurrence"
    edits, and ReplaceAll (src/main.cpp). Strings are character sequences. */
module Substitution {
  import opened Wrappers

  /** `t` occurs in `s` starting at index `i`. */
  predicate MatchAt(s: string, t: string, i: int) {
    0 <= i && i + |t| <= |s| && s[i..i + |t|] == t
  }

  /** `t` occurs somewhere in `s`. */
  ghost predicate Occurs(s: string, t: string) {
    exists i :: MatchAt(s, t, i)
  }

  /** No occurrence of `t` in `s` starts before index `n`. */
  predicate NoMatchBefore(s: string, t: string, n: int) {
    forall j :: 0 <= j < n ==> !MatchAt(s, t, j)
  }

  /** Matches in a suffix are matches in the whole text, shifted. */
  lemma MatchAtSuffix(s: string, t: string, pos: nat, k: nat)
    requires pos <= |s|
    ensures MatchAt(s[pos..], t, k) <==> MatchAt(s, t, pos + k)
  {
    if k + |t| <= |s| - pos {
      assert s[pos..][k..k + |t|] == s[pos + k..pos + k + |t|];
    }
  }

  /** What IndexOf needs when `s` does not start with `t`. */
  lemma IndexOfStep(s: string, t: string)
    requires |s| >= |t| && s[..|t|] != t
    ensures !MatchAt(s, t, 0)
    ensures |s| > 0
    ensures forall j :: 1 <= j ==> (MatchAt(s, t, j) <==> MatchAt(s[1..], t, j - 1))
    ensures Occurs(s, t) <==> Occurs(s[1..], t)
  {
    assert s[0..|t|] == s[..|t|];
    forall j | 1 <= j ensures MatchAt(s, t, j) <==> MatchAt(s[1..], t, j - 1) {
      MatchAtSuffix(s, t, 1, j - 1);
    }
    if Occurs(s, t) {
      var i :| MatchAt(s, t, i);
      assert MatchAt(s[1..], t, i - 1);
    }
    if Occurs(s[1..], t) {
      var i :| MatchAt(s[1..], t, i);
      assert MatchAt(s, t, i + 1);
    }
  }

  /** `s.find(t)`: the index of the leftmost occurrence of `t`, or None
      (the `npos` sentinel). */
  function IndexOf(s: string, t: string): (r: Option<nat>)
    ensures r.Some? ==> r.value + |t| <= |s|
    decreases |s|
  {
    if |s| < |t| then None
    else if s[..|t|] == t then Some(0)
    else
      var found := IndexOf(s[1..], t);
      if found.None? then None else Some(found.value + 1)
  }

  /** IndexOf finds the leftmost occurrence, and finds none exactly when
      there is none. */
  lemma {:induction false} IndexOfLeftmost(s: string, t: string)
    ensures IndexOf(s, t).Some? ==>
      MatchAt(s, t, IndexOf(s, t).value) && NoMatchBefore(s, t, IndexOf(s, t).value)
    ensures IndexOf(s, t).None? <==> !Occurs(s, t)
    decreases |s|
  {
    if |s| < |t| {
    } else if s[..|t|] == t {
      assert s[0..|t|] == s[..|t|];
    } else {
      IndexOfStep(s, t);
      IndexOfLeftmost(s[1..], t);
    }
  }

  /** `s.find(t, pos)`: the leftmost occurrence starting at or after `pos`;
      None when `pos` is past the end. */
  function Find(s: string, t: string, pos: nat): Option<nat>
  {
    if pos > |s| then None
    else
      var found := IndexOf(s[pos..], t);
      if found.None? then None else Some(pos + found.value)
  }

  /** Find yields the leftmost occurrence at or after `pos`. */
  lemma FindLeftmost(s: string, t: string, pos: nat)
    ensures Find(s, t, pos).Some? ==> pos <= Find(s, t, pos).value && MatchAt(s, t, Find(s, t, pos).value)
    ensures Find(s, t, pos).Some? ==> forall j :: pos <= j < Find(s, t, pos).value ==> !MatchAt(s, t, j)
    ensures Find(s, t, pos).None? ==> forall j :: pos <= j ==> !MatchAt(s, t, j)
  {
    if pos <= |s| {
      IndexOfLeftmost(s[pos..], t);
      forall j | pos <= j ensures MatchAt(s, t, j) <==> MatchAt(s[pos..], t, j - pos) {
        MatchAtSuffix(s, t, pos, j - pos);
      }
    }
  }

  /** `file.replace(file.find(t), t.size(), r)` (src/main.cpp:191, 199,
      209, 239). When `t` is absent, `find` yields `npos` and `replace`
      throws std::out_of_range: the result is None. */
  function ReplaceFirst(s: string, t: string, r: string): Option<string>
  {
    var found := IndexOf(s, t);
    if found.None? then None
    else Some(s[..found.value] + r + s[found.value + |t|..])
  }

  /** The first-occurrence edit fails exactly when the token is absent;
      otherwise it replaces the leftmost occurrence and keeps the text
      before and after it as it was. */
  lemma ReplaceFirstLeftmost(s: string, t: string, r: string)
    ensures ReplaceFirst(s, t, r).None? <==> !Occurs(s, t)
    ensures forall i :: MatchAt(s, t, i) && NoMatchBefore(s, t, i) ==>
      ReplaceFirst(s, t, r) == Some(s[..i] + r + s[i + |t|..])
  {
    IndexOfLeftmost(s, t);
    forall i | MatchAt(s, t, i) && NoMatchBefore(s, t, i)
      ensures IndexOf(s, t).Some? && IndexOf(s, t).value == i
    {
      var k := IndexOf(s, t).value;
      assert k <= i && i <= k;
    }
  }

  /** The specification of ReplaceAll: the leftmost occurrence is replaced,
      and the search goes on in the ORIGINAL text after that occurrence, so
      the inserted text is never searched again. */
  function ReplacedAll(s: string, t: string, r: string): string
    requires |t| > 0
    decreases |s|
  {
    var found := IndexOf(s, t);
    if found.None? then s
    else s[..found.value] + r + ReplacedAll(s[found.value + |t|..], t, r)
  }

  /** `parts` joined with `sep` between consecutive parts. */
  function Join(parts: seq<string>, sep: string): string
    requires |parts| > 0
  {
    if |parts| == 1 then parts[0] else parts[0] + sep + Join(parts[1..], sep)
  }

  /** `parts` cut `Join(parts, t)` at leftmost, non-overlapping occurrences
      of `t`: no occurrence starts inside a part before the separator that
      follows it, and the last part holds no occurrence at all. */
  ghost predicate Separated(parts: seq<string>, t: string) {
    && |parts| > 0
    && (forall k :: 0 <= k < |parts| - 1 ==> NoMatchBefore(parts[k] + t, t, |parts[k]|))
    && !Occurs(parts[|parts| - 1], t)
  }

  /** The text between the leftmost, non-overlapping occurrences of `t`. */
  function Split(s: string, t: string): seq<string>
    requires |t| > 0
    decreases |s|
  {
    var found := IndexOf(s, t);
    if found.None? then [s]
    else [s[..found.value]] + Split(s[found.value + |t|..], t)
  }

  /** A match that starts early enough to end inside a prefix is a match in
      that prefix. */
  lemma MatchInPrefix(p: string, q: string, t: string, j: int)
    requires 0 <= j && j + |t| <= |p|
    ensures MatchAt(p + q, t, j) <==> MatchAt(p, t, j)
  {
    assert (p + q)[j..j + |t|] == p[j..j + |t|];
  }

  /** Splitting at `t` and joining with `t` gives back the text, and the
      cut is at leftmost, non-overlapping occurrences. */
  lemma {:induction false} SplitJoin(s: string, t: string)
    requires |t| > 0
    ensures Separated(Split(s, t), t)
    ensures Join(Split(s, t), t) == s
    decreases |s|
  {
    IndexOfLeftmost(s, t);
    var found := IndexOf(s, t);
    if found.Some? {
      var i := found.value;
      var head, rest := s[..i], s[i + |t|..];
      SplitJoin(rest, t);
      var parts := Split(s, t);
      assert parts == [head] + Split(rest, t);
      assert parts[0] == head && parts[1..] == Split(rest, t);
      assert s == head + t + rest by {
        assert s[i..i + |t|] == t;
      }
      forall j | 0 <= j < i
        ensures !MatchAt(head + t, t, j)
      {
        MatchInPrefix(head + t, rest, t, j);
      }
    }
  }

  /** ReplaceAll is "split at the leftmost occurrences, join with the
      replacement": for ANY cut of `s` at leftmost non-overlapping
      occurrences, replacing all occurrences puts `r` exactly at the cuts
      and leaves the text between them untouched, even when `r` itself
      contains `t`. */
  lemma {:induction false} ReplacedAllIsJoin(s: string, t: string, r: string, parts: seq<string>)
    requires |t| > 0
    requires Separated(parts, t) && Join(parts, t) == s
    ensures ReplacedAll(s, t, r) == Join(parts, r)
    decreases |parts|
  {
    IndexOfLeftmost(s, t);
    if |parts| == 1 {
      assert IndexOf(s, t).None?;
    } else {
      var g := parts[0];
      var rest := Join(parts[1..], t);
      assert s == g + t + rest;
      assert MatchAt(s, t, |g|) by {
        assert s[|g|..|g| + |t|] == t;
      }
      forall j | 0 <= j < |g|
        ensures !MatchAt(s, t, j)
      {
        assert s == (g + t) + rest;
        MatchInPrefix(g + t, rest, t, j);
      }
      assert IndexOf(s, t).Some? && IndexOf(s, t).value == |g|;
      assert s[|g| + |t|..] == rest;
      assert s[..|g|] == g;
      assert Separated(parts[1..], t) by {
        forall k | 0 <= k < |parts[1..]| - 1
          ensures NoMatchBefore(parts[1..][k] + t, t, |parts[1..][k]|)
        {
          assert parts[1..][k] == parts[k + 1];
        }
      }
      ReplacedAllIsJoin(rest, t, r, parts[1..]);
    }
  }

  /** Hence the result is the text split at `t` and joined with `r`. */
  lemma ReplacedAllSplit(s: string, t: string, r: string)
    requires |t| > 0
    ensures ReplacedAll(s, t, r) == Join(Split(s, t), r)
  {
    SplitJoin(s, t);
    ReplacedAllIsJoin(s, t, r, Split(s, t));
  }

  /** A text without the token is left unchanged. */
  lemma ReplacedAllAbsent(s: string, t: string, r: string)
    requires |t| > 0 && !Occurs(s, t)
    ensures ReplacedAll(s, t, r) == s
  {
    IndexOfLeftmost(s, t);
  }

  /** Replacing a token by itself changes nothing. */
  lemma {:induction false} ReplacedAllIdentity(s: string, t: string)
    requires |t| > 0
    ensures ReplacedAll(s, t, t) == s
    decreases |s|
  {
    IndexOfLeftmost(s, t);
    match IndexOf(s, t)
    case None =>
    case Some(i) =>
      ReplacedAllIdentity(s[i + |t|..], t);
      assert s == s[..i] + s[i..i + |t|] + s[i + |t|..];
  }

  /** A text that is exactly the token becomes exactly the replacement,
      even when the replacement contains the token: the inserted text is
      not searched again. */
  lemma ReplacedAllOfToken(t: string, r: string)
    requires |t| > 0
    ensures ReplacedAll(t, t, r) == r
  {
    assert MatchAt(t, t, 0) by { assert t[0..|t|] == t; }
    IndexOfLeftmost(t, t);
    IndexOfLeftmost([], t);
    assert IndexOf(t, t).Some? && IndexOf(t, t).value == 0;
    assert t[|t|..] == [];
    assert IndexOf([], t).None?;
  }

  /** Replacing every occurrence can still leave one: "aabb" with "ab"
      removed becomes "ab", a new occurrence made across the boundary. */
  lemma ReplacedAllMayLeaveToken()
    ensures ReplacedAll("aabb", "ab", "") == "ab"
  {
    var s, t := "aabb", "ab";
    assert MatchAt(s, t, 1) by { assert s[1..3] == t; }
    assert !MatchAt(s, t, 0) by { assert s[0..2] == "aa"; }
    IndexOfLeftmost(s, t);
    IndexOfLeftmost("b", t);
    assert IndexOf(s, t).Some? && IndexOf(s, t).value == 1;
    assert s[..1] == "a" && s[3..] == "b";
    assert !MatchAt("b", t, 0);
    assert IndexOf("b", t).None?;
  }

  /** ReplacedAll unfolded at a known leftmost occurrence at `k`: the text
      before it, the replacement, then the rest after the occurrence. */
  lemma ReplacedAllAt(z: string, t: string, r: string, k: nat, head: string, tail: string)
    requires |t| > 0 && IndexOf(z, t).Some? && IndexOf(z, t).value == k
    requires head == z[..k] && tail == z[k + |t|..]
    ensures ReplacedAll(z, t, r) == head + r + ReplacedAll(tail, t, r)
  {
  }

  /** One step of the ReplaceAll loop keeps "done prefix + specification of
      the rest" equal to the specification of the original text. */
  lemma ReplaceAllStep(x: string, t: string, r: string, c: nat, i: nat, y: string)
    requires |t| > 0 && c <= |x|
    requires Find(x, t, c).Some? && Find(x, t, c).value == i && i + |t| <= |x|
    requires y == x[..i] + r + x[i + |t|..]
    ensures i + |r| <= |y|
    ensures y[..i + |r|] + ReplacedAll(y[i + |r|..], t, r) == x[..c] + ReplacedAll(x[c..], t, r)
  {
    var m := i + |t|;
    ReplacedAllFrom(x, t, r, c, i);
    SpliceParts(x, r, c, i, m, y);
    var head, tail, rest := y[..i + |r|], y[i + |r|..], ReplacedAll(x[m..], t, r);
    assert ReplacedAll(tail, t, r) == rest;
    Regroup(x[..c], x[c..i], r, rest);
  }

  lemma Regroup(a: string, b: string, c: string, d: string)
    ensures (a + b + c) + d == a + (b + c + d)
  {
  }

  /** The specification from a search position, unfolded at the occurrence
      Find reports. */
  lemma ReplacedAllFrom(x: string, t: string, r: string, c: nat, i: nat)
    requires |t| > 0 && c <= |x|
    requires Find(x, t, c).Some? && Find(x, t, c).value == i && i + |t| <= |x|
    ensures c <= i
    ensures ReplacedAll(x[c..], t, r) == x[c..i] + r + ReplacedAll(x[i + |t|..], t, r)
  {
    var z := x[c..];
    assert IndexOf(z, t).Some? && IndexOf(z, t).value == i - c;
    assert z[..i - c] == x[c..i];
    assert z[i - c + |t|..] == x[i + |t|..];
    ReplacedAllAt(z, t, r, i - c, x[c..i], x[i + |t|..]);
  }

  /** The pieces of a text `y` in which `x[i..m]` has been replaced by `r`. */
  lemma SpliceParts(x: string, r: string, c: nat, i: nat, m: nat, y: string)
    requires c <= i <= m <= |x| && y == x[..i] + r + x[m..]
    ensures i + |r| <= |y|
    ensures y[..i + |r|] == x[..c] + x[c..i] + r
    ensures y[i + |r|..] == x[m..]
  {
    assert y[..i + |r|] == x[..i] + r;
    assert x[..i] == x[..c] + x[c..i];
  }

  /** ReplaceAll (src/main.cpp:296-305): replace every occurrence of
      `replacee`, resuming the search just after each inserted `replacer`. */
  method ReplaceAll(file: string, replacee: string, replacer: string) returns (result: string)
    requires |replacee| > 0
    ensures result == ReplacedAll(file, replacee, replacer)
  {
    result := file;
    var resume: nat := 0;
    var offset := Find(result, replacee, 0);
    while offset.Some?
      invariant resume <= |result|
      invariant offset == Find(result, replacee, resume)
      invariant result[..resume] + ReplacedAll(result[resume..], replacee, replacer)
                == ReplacedAll(file, replacee, replacer)
      decreases |result| - resume
    {
      var at := offset.value;
      FindLeftmost(result, replacee, resume);
      ReplaceAllStep(result, replacee, replacer, resume, at, result[..at] + replacer + result[at + |replacee|..]);
      result := result[..at] + replacer + result[at + |replacee|..];
      resume := at + |replacer|;
      offset := Find(result, replacee, resume);
    }
    FindLeftmost(result, replacee, resume);
    assert !Occurs(result[resume..], replacee) by {
      forall j: nat ensures !MatchAt(result[resume..], replacee, j) {
        MatchAtSuffix(result, replacee, resume, j);
      }
    }
    assert result[..resume] + result[resume..] == result;
  }
}
