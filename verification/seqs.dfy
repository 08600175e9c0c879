/** Sequence helpers: filtering, mapping and the text operations the source
    performs with Python's `str.split`. */
module Seqs {

  /** The elements of `s` that satisfy `p`, in order (a list comprehension with a guard). */
  function Filter<T(!new)>(p: T -> bool, s: seq<T>): (r: seq<T>)
    ensures |r| <= |s|
    ensures forall x :: x in r <==> x in s && p(x)
    ensures r == [] <==> forall x :: x in s ==> !p(x)
  {
    if |s| == 0 then [] else Filter(p, s[..|s| - 1]) + (if p(s[|s| - 1]) then [s[|s| - 1]] else [])
  }

  /** `f` applied to every element of `s`, in order. */
  function Map<T, U>(f: T -> U, s: seq<T>): (r: seq<U>)
    ensures |r| == |s|
    ensures forall i :: 0 <= i < |s| ==> r[i] == f(s[i])
  {
    if |s| == 0 then [] else Map(f, s[..|s| - 1]) + [f(s[|s| - 1])]
  }

  /** Filtering by `p` and by its negation splits `s` without loss. */
  lemma {:induction false} FilterSplit<T(!new)>(p: T -> bool, s: seq<T>)
    ensures |Filter(p, s)| + |Filter(x => !p(x), s)| == |s|
  {
    if |s| > 0 {
      FilterSplit(p, s[..|s| - 1]);
    }
  }

  /** Filtering a non-empty sequence counts its last element once if it
      passes. */
  lemma FilterLengthSnoc<T(!new)>(p: T -> bool, s: seq<T>)
    requires |s| > 0
    ensures |Filter(p, s)| == |Filter(p, s[..|s| - 1])| + (if p(s[|s| - 1]) then 1 else 0)
  {
  }

  /** Filtering then mapping a sequence extended by one element. */
  lemma FilterMapSnoc<T(!new), U>(f: T -> U, p: T -> bool, s: seq<T>, x: T)
    ensures Map(f, Filter(p, s + [x])) == Map(f, Filter(p, s)) + (if p(x) then [f(x)] else [])
  {
    assert (s + [x])[..|s|] == s;
    var a := Filter(p, s);
    if p(x) {
      assert (a + [x])[..|a|] == a;
    } else {
      assert a + [] == a;
    }
  }

  /** A concatenation is empty exactly when both parts are. */
  lemma ConcatEmpty<T>(a: seq<T>, b: seq<T>)
    ensures a + b == [] <==> a == [] && b == []
  {
    assert |a + b| == |a| + |b|;
  }

  /** No element occurs twice. */
  predicate NoDuplicates<T(==)>(s: seq<T>) {
    forall i, j :: 0 <= i < j < |s| ==> s[i] != s[j]
  }

  /** Appending an element not yet present keeps a sequence free of repeats. */
  lemma AppendFresh<T>(s: seq<T>, x: T)
    requires NoDuplicates(s) && x !in s
    ensures NoDuplicates(s + [x])
  {
    forall i, j | 0 <= i < j < |s| + 1 ensures (s + [x])[i] != (s + [x])[j] {
      if j == |s| {
        assert (s + [x])[i] == s[i];
      }
    }
  }

  /** The elements of `s` without repeats, in order of first occurrence
      (what iterating over `set(s)` visits, in one fixed order). */
  function Distinct<T(==,!new)>(s: seq<T>): (r: seq<T>)
    ensures NoDuplicates(r)
    ensures forall x :: x in r <==> x in s
  {
    if |s| == 0 then []
    else
      var front := Distinct(s[..|s| - 1]);
      var x := s[|s| - 1];
      assert s == s[..|s| - 1] + [x];
      if x in front then front
      else
        AppendFresh(front, x);
        front + [x]
  }

  /** Python's `s.split(sep)[-1]`: the text after the last `sep`, or all of `s`
      when `sep` does not occur. */
  function LastSegment(s: string, sep: char): (r: string)
    ensures sep !in r
    ensures |r| <= |s| && r == s[|s| - |r|..]
    ensures sep in s ==> |r| < |s| && s[|s| - |r| - 1] == sep
    ensures sep !in s ==> r == s
  {
    if |s| == 0 then ""
    else if s[|s| - 1] == sep then ""
    else
      var front := s[..|s| - 1];
      var r := LastSegment(front, sep);
      assert s == front + [s[|s| - 1]];
      assert sep in s ==> sep in front;
      assert s[|s| - |r| - 1..] == r + [s[|s| - 1]];
      r + [s[|s| - 1]]
  }

  /** Whatever precedes it, the text after a separator that does not occur
      again is exactly the last segment. */
  lemma {:induction false} LastSegmentAfter(prefix: string, sep: char, tail: string)
    requires sep !in tail
    ensures LastSegment(prefix + [sep] + tail, sep) == tail
  {
    var s := prefix + [sep] + tail;
    if |tail| > 0 {
      var front := tail[..|tail| - 1];
      assert s[..|s| - 1] == prefix + [sep] + front;
      assert s[|s| - 1] == tail[|tail| - 1] != sep;
      LastSegmentAfter(prefix, sep, front);
      assert LastSegment(s, sep) == LastSegment(s[..|s| - 1], sep) + [s[|s| - 1]];
      assert tail == front + [tail[|tail| - 1]];
    } else {
      assert s[|s| - 1] == sep;
    }
  }

  /** Python's `s[:-1]`: everything but the last character; empty stays empty. */
  function DropLast(s: string): (r: string)
    ensures |s| == 0 ==> r == ""
    ensures |s| > 0 ==> |r| == |s| - 1 && s == r + [s[|s| - 1]]
  {
    if |s| == 0 then "" else s[..|s| - 1]
  }

  /** Python's `str.isspace` for one character: the ASCII whitespace and
      separators, and the Unicode space characters. */
  predicate IsSpace(c: char) {
    || c == ' ' || c == '\t' || c == '\n' || c == '\r' || c == '\U{B}' || c == '\U{C}'
    || c == '\U{1C}' || c == '\U{1D}' || c == '\U{1E}' || c == '\U{1F}'
    || c == '\U{85}' || c == '\U{A0}' || c == '\U{1680}'
    || ('\U{2000}' <= c <= '\U{200A}')
    || c == '\U{2028}' || c == '\U{2029}' || c == '\U{202F}' || c == '\U{205F}' || c == '\U{3000}'
  }

  /** `s` with its leading whitespace removed. */
  function StripStart(s: string): (r: string)
    ensures |r| <= |s| && r == s[|s| - |r|..]
    ensures forall k :: 0 <= k < |s| - |r| ==> IsSpace(s[k])
    ensures r == "" || !IsSpace(r[0])
  {
    if |s| > 0 && IsSpace(s[0]) then StripStart(s[1..]) else s
  }

  /** `s` with its trailing whitespace removed. */
  function StripEnd(s: string): (r: string)
    ensures |r| <= |s| && r == s[..|r|]
    ensures forall k :: |r| <= k < |s| ==> IsSpace(s[k])
    ensures r == "" || !IsSpace(r[|r| - 1])
  {
    if |s| > 0 && IsSpace(s[|s| - 1]) then StripEnd(s[..|s| - 1]) else s
  }

  /** Python's `s.strip()`: whitespace removed from both ends. */
  function Strip(s: string): (r: string)
    ensures |r| <= |s|
    ensures r == "" <==> forall k :: 0 <= k < |s| ==> IsSpace(s[k])
    ensures r != "" ==> !IsSpace(r[0]) && !IsSpace(r[|r| - 1])
  {
    StripBlank(s);
    StripEnd(StripStart(s))
  }

  /** Stripping removes whitespace only: every other character of the text
      survives it. */
  lemma StripKeeps(s: string, c: char)
    requires c in s && !IsSpace(c)
    ensures c in Strip(s)
  {
    var front := StripStart(s);
    var i :| 0 <= i < |s| && s[i] == c;
    assert i >= |s| - |front|;
    assert front[i - (|s| - |front|)] == c;
    var j := i - (|s| - |front|);
    var both := StripEnd(front);
    assert j < |both|;
    assert both[j] == c;
  }

  /** Stripping leaves nothing exactly when the text is all whitespace. */
  lemma StripBlank(s: string)
    ensures StripEnd(StripStart(s)) == "" <==> forall k :: 0 <= k < |s| ==> IsSpace(s[k])
  {
  }

  /** Text that neither starts nor ends with whitespace. */
  predicate Trimmed(m: string) {
    m == "" || (!IsSpace(m[0]) && !IsSpace(m[|m| - 1]))
  }

  /** Leading whitespace in front of text that does not start with it is
      exactly what `StripStart` removes. */
  lemma {:induction false} StripStartPadded(pre: string, rest: string)
    requires forall k :: 0 <= k < |pre| ==> IsSpace(pre[k])
    requires rest == "" || !IsSpace(rest[0])
    ensures StripStart(pre + rest) == rest
  {
    if |pre| > 0 {
      assert (pre + rest)[1..] == pre[1..] + rest;
      StripStartPadded(pre[1..], rest);
    } else {
      assert pre + rest == rest;
    }
  }

  /** Trailing whitespace after text that does not end with it is exactly
      what `StripEnd` removes. */
  lemma {:induction false} StripEndPadded(rest: string, post: string)
    requires forall k :: 0 <= k < |post| ==> IsSpace(post[k])
    requires rest == "" || !IsSpace(rest[|rest| - 1])
    ensures StripEnd(rest + post) == rest
  {
    if |post| > 0 {
      var n := |post| - 1;
      assert (rest + post)[..|rest + post| - 1] == rest + post[..n];
      StripEndPadded(rest, post[..n]);
    } else {
      assert rest + post == rest;
    }
  }

  /** `strip` gives back exactly the text between whitespace padding: what it
      returns is determined by being trimmed and padded out to the input. */
  lemma StripPadded(pre: string, m: string, post: string)
    requires forall k :: 0 <= k < |pre| ==> IsSpace(pre[k])
    requires forall k :: 0 <= k < |post| ==> IsSpace(post[k])
    requires Trimmed(m)
    ensures Strip(pre + m + post) == m
  {
    if m == "" {
      var p := pre + m + post;
      assert forall k :: 0 <= k < |p| ==> IsSpace(p[k]) by {
        forall k | 0 <= k < |p| ensures IsSpace(p[k]) {
          if k < |pre| {
            assert p[k] == pre[k];
          } else {
            assert p[k] == post[k - |pre|];
          }
        }
      }
    } else {
      assert pre + m + post == pre + (m + post);
      StripStartPadded(pre, m + post);
      StripEndPadded(m, post);
    }
  }

  /** Stripping twice strips no more than once. */
  lemma StripIdempotent(s: string)
    ensures Strip(Strip(s)) == Strip(s)
  {
    var r := Strip(s);
    assert "" + r + "" == r;
    StripPadded("", r, "");
  }
}
