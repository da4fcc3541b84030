/**
 The few Python string operations the core relies on: `sep.join(xs)`,
 `s.strip()`, `s.lower()` and the substring test `p in s`, with the facts
 about them that the judge and the generator need. `s.split(c)` is not used
 by the program; it is here only to state that the generator's documents
 section can be read back into the payload list.
 */
module Strings {

  // ---------------------------------------------------------------------
  // join and split
  // ---------------------------------------------------------------------

  /** `sep.join(xs)`: the items of `xs` in order, `sep` between neighbours. */
  function Join(sep: string, xs: seq<string>): string
  {
    if |xs| == 0 then ""
    else if |xs| == 1 then xs[0]
    else xs[0] + sep + Join(sep, xs[1..])
  }

  /** `s.split(c)` for a one-character separator: the maximal pieces of `s`
      between occurrences of `c`; the empty string splits into `[""]`. */
  function SplitOn(s: string, c: char): (pieces: seq<string>)
    ensures |pieces| > 0
    decreases |s|
  {
    if |s| == 0 then [""]
    else
      var rest := SplitOn(s[1..], c);
      if s[0] == c then [""] + rest else [[s[0]] + rest[0]] + rest[1..]
  }

  /** A string without the separator splits into itself alone. */
  lemma {:induction false} SplitOnPlain(s: string, c: char)
    requires c !in s
    ensures SplitOn(s, c) == [s]
    decreases |s|
  {
    if |s| > 0 {
      assert c !in s[1..];
      SplitOnPlain(s[1..], c);
      assert [s[0]] + s[1..] == s;
    }
  }

  /** Splitting `x + c + t` with `c` not in `x` yields `x` followed by the pieces of `t`. */
  lemma {:induction false} SplitOnCons(x: string, c: char, t: string)
    requires c !in x
    ensures SplitOn(x + [c] + t, c) == [x] + SplitOn(t, c)
    decreases |x|
  {
    if |x| == 0 {
      assert x + [c] + t == [c] + t;
      assert ([c] + t)[1..] == t;
    } else {
      var s := x + [c] + t;
      assert s[1..] == x[1..] + [c] + t;
      assert c !in x[1..];
      SplitOnCons(x[1..], c, t);
      assert [x[0]] + x[1..] == x;
    }
  }

  /** Round trip: joining single-separator-free items and splitting again
      gives back the same non-empty list. */
  lemma {:induction false} SplitJoin(c: char, xs: seq<string>)
    requires |xs| > 0
    requires forall i :: 0 <= i < |xs| ==> c !in xs[i]
    ensures SplitOn(Join([c], xs), c) == xs
  {
    if |xs| == 1 {
      SplitOnPlain(xs[0], c);
    } else {
      SplitJoin(c, xs[1..]);
      SplitOnCons(xs[0], c, Join([c], xs[1..]));
      assert [xs[0]] + xs[1..] == xs;
    }
  }

  // ---------------------------------------------------------------------
  // strip and lower
  // ---------------------------------------------------------------------

  /** The characters Python's `str.strip()` removes when given no argument:
      tab through carriage return, the four information separators, space,
      next-line, no-break space, and the Unicode space and separator characters. */
  predicate IsSpace(ch: char)
  {
    || '\t' <= ch <= '\r'
    || '\U{001C}' <= ch <= '\U{001F}'
    || ch == ' ' || ch == '\U{0085}' || ch == '\U{00A0}' || ch == '\U{1680}'
    || '\U{2000}' <= ch <= '\U{200A}'
    || ch == '\U{2028}' || ch == '\U{2029}' || ch == '\U{202F}' || ch == '\U{205F}'
    || ch == '\U{3000}'
  }

  /** Removes leading whitespace. */
  function TrimLeft(s: string): (r: string)
    ensures |r| <= |s|
    decreases |s|
  {
    if |s| > 0 && IsSpace(s[0]) then TrimLeft(s[1..]) else s
  }

  /** The result of `TrimLeft` is a suffix of `s`, everything dropped is
      whitespace, and the result does not start with whitespace. */
  lemma {:induction false} TrimLeftSpec(s: string)
    ensures TrimLeft(s) == s[|s| - |TrimLeft(s)|..]
    ensures forall k :: 0 <= k < |s| - |TrimLeft(s)| ==> IsSpace(s[k])
    ensures TrimLeft(s) == [] || !IsSpace(TrimLeft(s)[0])
    decreases |s|
  {
    if |s| > 0 && IsSpace(s[0]) {
      TrimLeftSpec(s[1..]);
      forall k | 1 <= k < |s| - |TrimLeft(s)|
        ensures IsSpace(s[k])
      {
        assert s[k] == s[1..][k - 1];
      }
    }
  }

  /** Removes trailing whitespace. */
  function TrimRight(s: string): (r: string)
    ensures |r| <= |s|
    decreases |s|
  {
    if |s| > 0 && IsSpace(s[|s| - 1]) then TrimRight(s[..|s| - 1]) else s
  }

  /** The result of `TrimRight` is a prefix of `s`, everything dropped is
      whitespace, and the result does not end with whitespace. */
  lemma {:induction false} TrimRightSpec(s: string)
    ensures TrimRight(s) == s[..|TrimRight(s)|]
    ensures forall k :: |TrimRight(s)| <= k < |s| ==> IsSpace(s[k])
    ensures TrimRight(s) == [] || !IsSpace(TrimRight(s)[|TrimRight(s)| - 1])
    decreases |s|
  {
    if |s| > 0 && IsSpace(s[|s| - 1]) {
      TrimRightSpec(s[..|s| - 1]);
      forall k | |TrimRight(s)| <= k < |s| - 1
        ensures IsSpace(s[k])
      {
        assert s[k] == s[..|s| - 1][k];
      }
    }
  }

  /** `s.strip()` */
  function Strip(s: string): string
  {
    TrimRight(TrimLeft(s))
  }

  /** Stripping keeps a contiguous middle part of `s` and drops only whitespace
      around it; the part kept neither starts nor ends with whitespace. */
  lemma StripSlice(s: string) returns (lo: nat, hi: nat)
    ensures lo <= hi <= |s| && Strip(s) == s[lo..hi]
    ensures forall k :: 0 <= k < lo ==> IsSpace(s[k])
    ensures forall k :: hi <= k < |s| ==> IsSpace(s[k])
    ensures Strip(s) == [] || (!IsSpace(s[lo]) && !IsSpace(s[hi - 1]))
  {
    var l := TrimLeft(s);
    var t := TrimRight(l);
    TrimLeftSpec(s);
    TrimRightSpec(l);
    lo := |s| - |l|;
    hi := lo + |t|;
    MiddleSlice(s, l, t, lo);
  }

  /** The facts about a string `s`, its suffix `l` and the whitespace-free
      prefix `t` of `l`, restated on `s` alone. */
  lemma MiddleSlice(s: string, l: string, t: string, lo: nat)
    requires lo <= |s| && l == s[lo..] && |t| <= |l| && t == l[..|t|]
    requires forall k :: |t| <= k < |l| ==> IsSpace(l[k])
    requires t == [] || (!IsSpace(t[0]) && !IsSpace(t[|t| - 1]))
    ensures lo + |t| <= |s| && t == s[lo..lo + |t|]
    ensures forall k :: lo + |t| <= k < |s| ==> IsSpace(s[k])
    ensures t == [] || (!IsSpace(s[lo]) && !IsSpace(s[lo + |t| - 1]))
  {
  }

  /** Stripping twice is the same as stripping once. */
  lemma StripIdempotent(s: string)
    ensures Strip(Strip(s)) == Strip(s)
  {
    var lo, hi := StripSlice(s);
    var t := Strip(s);
    assert TrimLeft(t) == t;
    assert TrimRight(t) == t;
  }

  /** The lower-case form of one character; only ASCII 'A'..'Z' change. */
  function LowerChar(ch: char): char
  {
    if 'A' <= ch <= 'Z' then (ch as int - 'A' as int + 'a' as int) as char else ch
  }

  /** `s.lower()`, restricted to ASCII letters. */
  function Lower(s: string): (r: string)
    ensures |r| == |s|
  {
    seq(|s|, i requires 0 <= i < |s| => LowerChar(s[i]))
  }

  /** Lower-casing never turns a character into whitespace or out of it. */
  lemma LowerCharSpace(ch: char)
    ensures IsSpace(LowerChar(ch)) <==> IsSpace(ch)
  {
  }

  lemma {:induction false} LowerTrimLeft(s: string)
    ensures Lower(TrimLeft(s)) == TrimLeft(Lower(s))
    decreases |s|
  {
    if |s| > 0 {
      LowerCharSpace(s[0]);
      assert Lower(s)[1..] == Lower(s[1..]);
      LowerTrimLeft(s[1..]);
    }
  }

  lemma {:induction false} LowerTrimRight(s: string)
    ensures Lower(TrimRight(s)) == TrimRight(Lower(s))
    decreases |s|
  {
    if |s| > 0 {
      LowerCharSpace(s[|s| - 1]);
      assert Lower(s)[..|s| - 1] == Lower(s[..|s| - 1]);
      LowerTrimRight(s[..|s| - 1]);
    }
  }

  /** Stripping and lower-casing commute. */
  lemma LowerStrip(s: string)
    ensures Lower(Strip(s)) == Strip(Lower(s))
  {
    LowerTrimLeft(s);
    LowerTrimRight(TrimLeft(s));
  }

  // ---------------------------------------------------------------------
  // substring test
  // ---------------------------------------------------------------------

  /** Python's `p in s` for strings, scanning `s` from the left. */
  function Contains(s: string, p: string): bool
    decreases |s|
  {
    if |s| < |p| then false
    else s[..|p|] == p || Contains(s[1..], p)
  }

  /** `p` occurs in `s` starting at index `i`. */
  predicate OccursAt(s: string, p: string, i: int)
  {
    0 <= i && i + |p| <= |s| && s[i..i + |p|] == p
  }

  /** The scan finds `p` exactly when `p` occurs somewhere in `s`. */
  lemma {:induction false} ContainsIff(s: string, p: string)
    ensures Contains(s, p) <==> exists i :: OccursAt(s, p, i)
    decreases |s|
  {
    if |s| < |p| {
      if i :| OccursAt(s, p, i) {
        assert false;
      }
    } else if s[..|p|] == p {
      assert OccursAt(s, p, 0);
    } else {
      ContainsIff(s[1..], p);
      if Contains(s[1..], p) {
        var i :| OccursAt(s[1..], p, i);
        assert s[i + 1..i + 1 + |p|] == s[1..][i..i + |p|];
        assert OccursAt(s, p, i + 1);
      }
      if i :| OccursAt(s, p, i) {
        assert i != 0;
        assert s[1..][i - 1..i - 1 + |p|] == s[i..i + |p|];
        assert OccursAt(s[1..], p, i - 1);
      }
    }
  }

  /** An occurrence inside a slice is an occurrence in the whole string. */
  lemma OccursInSlice(s: string, p: string, lo: nat, hi: nat, i: int)
    requires lo <= hi <= |s| && OccursAt(s[lo..hi], p, i)
    ensures OccursAt(s, p, lo + i)
  {
    var t := s[lo..hi];
    var u := t[i..i + |p|];
    assert forall k :: 0 <= k < |p| ==> u[k] == s[lo + i + k];
    assert s[lo + i..lo + i + |p|] == u;
  }

  /** An occurrence of a pattern that starts and ends with non-whitespace,
      in a string whose outer parts are whitespace, lies in the middle part. */
  lemma OccursInMiddle(s: string, p: string, lo: nat, hi: nat, i: int)
    requires lo <= hi <= |s| && OccursAt(s, p, i)
    requires |p| > 0 && !IsSpace(p[0]) && !IsSpace(p[|p| - 1])
    requires forall k :: 0 <= k < lo ==> IsSpace(s[k])
    requires forall k :: hi <= k < |s| ==> IsSpace(s[k])
    ensures OccursAt(s[lo..hi], p, i - lo)
  {
    assert s[i] == s[i..i + |p|][0] == p[0];
    assert s[i + |p| - 1] == s[i..i + |p|][|p| - 1] == p[|p| - 1];
    assert lo <= i;
    assert i + |p| <= hi;
    var t := s[lo..hi];
    var u := t[i - lo..i - lo + |p|];
    assert forall k :: 0 <= k < |p| ==> u[k] == s[i + k];
    assert u == s[i..i + |p|];
  }

  /** A non-empty pattern that starts and ends with a non-whitespace character
      occurs in `s.strip()` exactly when it occurs in `s`. */
  lemma ContainsStrip(s: string, p: string)
    requires |p| > 0 && !IsSpace(p[0]) && !IsSpace(p[|p| - 1])
    ensures Contains(Strip(s), p) <==> Contains(s, p)
  {
    var lo, hi := StripSlice(s);
    ContainsIff(s[lo..hi], p);
    ContainsIff(s, p);
    if i :| OccursAt(s[lo..hi], p, i) {
      OccursInSlice(s, p, lo, hi, i);
    }
    if i :| OccursAt(s, p, i) {
      OccursInMiddle(s, p, lo, hi, i);
    }
  }
}
