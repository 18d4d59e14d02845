/** The string operations of Python and JavaScript that the modelled code relies on:
    substring search (`in`, `str.split(sep, 1)`), `str.strip()`, `str.split(sep)`,
    `str.endswith` and lower-casing. Strings are sequences of Unicode scalar values. */
module Strings {
  import opened Wrappers

  /** Python's `str.isspace()` for a single character: the code points CPython treats as
      whitespace (the Unicode White_Space characters plus the four ASCII separators). */
  predicate IsSpace(c: char) {
    ('\t' <= c <= '\r') || ('\U{1C}' <= c <= '\U{1F}') || c == ' ' || c == '\U{85}' || c == '\U{A0}'
    || c == '\U{1680}' || ('\U{2000}' <= c <= '\U{200A}') || c == '\U{2028}' || c == '\U{2029}'
    || c == '\U{202F}' || c == '\U{205F}' || c == '\U{3000}'
  }

  ghost predicate AllSpace(s: string) {
    forall i :: 0 <= i < |s| ==> IsSpace(s[i])
  }

  /** Neither the first nor the last character is whitespace. */
  ghost predicate NoEdgeSpace(s: string) {
    s == [] || (!IsSpace(s[0]) && !IsSpace(s[|s| - 1]))
  }

  /** Python's `str.lstrip()`. */
  function StripStart(s: string): (r: string)
    ensures |r| <= |s| && r == s[|s| - |r|..]
    ensures AllSpace(s[..|s| - |r|])
    ensures r == [] || !IsSpace(r[0])
  {
    if s != [] && IsSpace(s[0]) then
      var r := StripStart(s[1..]);
      SpaceBeforeSuffix(s, r);
      r
    else s
  }

  /** A suffix of `s[1..]` preceded only by whitespace, when `s[0]` is whitespace too, is a
      suffix of `s` preceded only by whitespace. */
  lemma SpaceBeforeSuffix(s: string, r: string)
    requires s != [] && IsSpace(s[0])
    requires |r| <= |s| - 1 && r == s[1..][|s| - 1 - |r|..] && AllSpace(s[1..][..|s| - 1 - |r|])
    ensures r == s[|s| - |r|..] && AllSpace(s[..|s| - |r|])
  {
    var t := s[1..];
    var pre := t[..|t| - |r|];
    forall i | 0 <= i < |s| - |r| ensures IsSpace(s[i]) {
      if i > 0 {
        assert s[i] == t[i - 1] == pre[i - 1];
      }
    }
  }

  /** Python's `str.rstrip()`. */
  function StripEnd(s: string): (r: string)
    ensures |r| <= |s| && r == s[..|r|]
    ensures AllSpace(s[|r|..])
    ensures r == [] || !IsSpace(r[|r| - 1])
  {
    if s != [] && IsSpace(s[|s| - 1]) then
      var t := s[..|s| - 1];
      var r := StripEnd(t);
      assert r == s[..|r|];
      assert forall i :: |r| <= i < |s| ==> IsSpace(s[i]) by {
        forall i | |r| <= i < |s| ensures IsSpace(s[i]) {
          if i < |s| - 1 {
            assert s[i] == t[|r|..][i - |r|];
          }
        }
      }
      r
    else s
  }

  /** Python's `str.strip()` with no argument: the result is the part of `s` left once the
      leading and the trailing whitespace are removed. */
  function Strip(s: string): (r: string)
    ensures NoEdgeSpace(r)
    ensures |r| <= |s|
    ensures |r| <= |StripStart(s)| && r == StripStart(s)[..|r|]
    ensures AllSpace(StripStart(s)[|r|..])
  {
    StripEnd(StripStart(s))
  }

  /** `Strip` takes away exactly the surrounding whitespace: whenever `s` is some whitespace,
      then a string with no whitespace at its edges, then more whitespace, `Strip` returns
      that middle part. */
  lemma {:induction false} StripUnique(p: string, t: string, q: string)
    requires AllSpace(p) && AllSpace(q) && NoEdgeSpace(t)
    ensures Strip(p + t + q) == t
  {
    if t == [] {
      StripOfSpaces(p, q);
      assert p + t + q == p + q;
    } else {
      StripOfCore(p, t, q);
    }
  }

  lemma StripOfCore(p: string, t: string, q: string)
    requires AllSpace(p) && AllSpace(q) && t != [] && !IsSpace(t[0]) && !IsSpace(t[|t| - 1])
    ensures Strip(p + t + q) == t
  {
    var u := t + q;
    var x := p + t + q;
    assert u[0] == t[0];
    assert x == p + u;
    StripStartOfSpaces(p, u);
    assert StripStart(x) == u;
    StripEndOfSpaces(t, q);
    assert Strip(x) == StripEnd(u);
  }

  lemma StripOfSpaces(p: string, q: string)
    requires AllSpace(p) && AllSpace(q)
    ensures Strip(p + q) == []
  {
    assert AllSpace(p + q);
    StripStartOfSpaces(p + q, []);
    assert (p + q) + [] == p + q;
  }

  lemma {:induction false} StripStartOfSpaces(p: string, u: string)
    requires AllSpace(p) && (u == [] || !IsSpace(u[0]))
    ensures StripStart(p + u) == u
  {
    if p != [] {
      assert (p + u)[1..] == p[1..] + u;
      StripStartOfSpaces(p[1..], u);
    }
  }

  lemma {:induction false} StripEndOfSpaces(t: string, q: string)
    requires AllSpace(q) && (t == [] || !IsSpace(t[|t| - 1]))
    ensures StripEnd(t + q) == t
  {
    if q != [] {
      assert (t + q)[..|t + q| - 1] == t + q[..|q| - 1];
      StripEndOfSpaces(t, q[..|q| - 1]);
    } else {
      assert t + q == t;
    }
  }

  /** Stripping is idempotent: stripping a stripped string changes nothing. */
  lemma StripIdempotent(s: string)
    ensures Strip(Strip(s)) == Strip(s)
  {
    var r := Strip(s);
    StripUnique([], r, []);
    assert [] + r + [] == r;
  }

  /** Leading whitespace never reaches the result of `Strip`. */
  lemma {:induction false} StripDropsLeadingSpace(w: string, s: string)
    requires AllSpace(w)
    ensures Strip(w + s) == Strip(s)
  {
    StripStartSkipsSpace(w, s);
  }

  lemma {:induction false} StripStartSkipsSpace(w: string, s: string)
    requires AllSpace(w)
    ensures StripStart(w + s) == StripStart(s)
  {
    if w != [] {
      assert (w + s)[1..] == w[1..] + s;
      assert IsSpace((w + s)[0]);
      StripStartSkipsSpace(w[1..], s);
    } else {
      assert w + s == s;
    }
  }

  /** `pat` occurs in `s` starting at index `i`. */
  predicate OccursAt(s: string, pat: string, i: nat) {
    i + |pat| <= |s| && forall j :: 0 <= j < |pat| ==> s[i + j] == pat[j]
  }

  /** `pat` occurs in `s` at index `i` and nowhere before. */
  predicate FirstOccurrence(s: string, pat: string, i: nat) {
    OccursAt(s, pat, i) && forall k: nat :: k < i ==> !OccursAt(s, pat, k)
  }

  /** Python's `pat in s` for strings. */
  predicate Contains(s: string, pat: string) {
    exists i: nat :: i <= |s| && OccursAt(s, pat, i)
  }

  /** The first occurrence of `pat` in `s` at or after index `from`, as `str.find` computes it. */
  function FindFrom(s: string, pat: string, from: nat): (r: Option<nat>)
    ensures r.Some? ==> from <= r.value && OccursAt(s, pat, r.value)
    ensures r.Some? ==> forall k: nat :: from <= k < r.value ==> !OccursAt(s, pat, k)
    ensures r.None? ==> forall k: nat :: from <= k ==> !OccursAt(s, pat, k)
    decreases |s| - from
  {
    if from + |pat| > |s| then None
    else if OccursAt(s, pat, from) then Some(from)
    else FindFrom(s, pat, from + 1)
  }

  /** The first occurrence of `pat` in `s`: `Some` exactly when `pat in s`. */
  function Find(s: string, pat: string): (r: Option<nat>)
    ensures r.Some? <==> Contains(s, pat)
    ensures r.Some? ==> FirstOccurrence(s, pat, r.value)
  {
    FindFrom(s, pat, 0)
  }

  /** In `head + u + gap + rest`, a pattern whose first character is not in `head`, which
      does not occur in `u` and shares no character with `gap`, cannot start before `rest`. */
  lemma NoOccurrenceBefore(head: string, u: string, gap: string, rest: string, pat: string)
    requires |pat| > 0 && pat[0] !in head
    requires !Contains(u, pat)
    requires |gap| > 0 && forall c :: c in gap ==> c !in pat
    ensures forall k: nat :: k < |head| + |u| + |gap| ==> !OccursAt(head + u + gap + rest, pat, k)
  {
    var s := head + u + gap + rest;
    forall k: nat | k < |head| + |u| + |gap|
      ensures !OccursAt(s, pat, k)
    {
      if k < |head| {
        assert s[k] == head[k] && head[k] in head;
      } else if k + |pat| <= |head| + |u| {
        var i: nat := k - |head|;
        assert i <= |u| && !OccursAt(u, pat, i);
        var j :| 0 <= j < |pat| && u[i + j] != pat[j];
        assert s[k + j] == u[i + j];
      } else if k < |head| + |u| {
        var q := |head| + |u|;
        assert s[k + (q - k)] == gap[0] && gap[0] in gap;
        assert pat[q - k] in pat;
      } else {
        assert s[k] == gap[k - |head| - |u|] && gap[k - |head| - |u|] in gap;
      }
    }
  }

  /** Python's `s.endswith(suffix)`. */
  predicate EndsWith(s: string, suffix: string) {
    |suffix| <= |s| && forall i :: 0 <= i < |suffix| ==> s[|s| - |suffix| + i] == suffix[i]
  }

  /** Python's `s.startswith(prefix)`. */
  predicate StartsWith(s: string, prefix: string) {
    |prefix| <= |s| && forall i :: 0 <= i < |prefix| ==> s[i] == prefix[i]
  }

  /** Lower-casing of one character, on the ASCII letters. */
  function LowerChar(c: char): (r: char)
    ensures 'A' <= c <= 'Z' ==> r as int == c as int + 32
    ensures !('A' <= c <= 'Z') ==> r == c
  {
    if 'A' <= c <= 'Z' then (c as int + 32) as char else c
  }

  /** `str.lower()` on strings, letter by letter. */
  function Lower(s: string): (r: string)
    ensures |r| == |s| && forall i :: 0 <= i < |s| ==> r[i] == LowerChar(s[i])
  {
    if s == [] then [] else [LowerChar(s[0])] + Lower(s[1..])
  }

  /** `sep.join(parts)`. */
  function JoinWith(parts: seq<string>, sep: char): string
  {
    if |parts| == 0 then ""
    else if |parts| == 1 then parts[0]
    else parts[0] + [sep] + JoinWith(parts[1..], sep)
  }

  /** Python's `s.split(sep)` for a one-character separator:
      never empty, no piece holds the separator, and joining the pieces gives `s` back. */
  function Split(s: string, sep: char): (r: seq<string>)
    ensures |r| >= 1
    ensures forall k :: 0 <= k < |r| ==> sep !in r[k]
    ensures JoinWith(r, sep) == s
  {
    if s == [] then [""]
    else if s[0] == sep then [""] + Split(s[1..], sep)
    else
      var t := Split(s[1..], sep);
      [[s[0]] + t[0]] + t[1..]
  }

  /** The other direction of the round trip: splitting a join gives the pieces back when no
      piece holds the separator. */
  lemma {:induction false} SplitJoin(parts: seq<string>, sep: char)
    requires |parts| >= 1
    requires forall k :: 0 <= k < |parts| ==> sep !in parts[k]
    ensures Split(JoinWith(parts, sep), sep) == parts
  {
    if |parts| == 1 {
      SplitNoSep(parts[0], sep);
    } else {
      var rest := JoinWith(parts[1..], sep);
      SplitJoin(parts[1..], sep);
      SplitAfterPiece(parts[0], rest, sep);
      assert [parts[0]] + parts[1..] == parts;
    }
  }

  lemma {:induction false} SplitNoSep(s: string, sep: char)
    requires sep !in s
    ensures Split(s, sep) == [s]
  {
    if s != [] {
      assert sep !in s[1..] by {
        forall c | c in s[1..] ensures c in s { }
      }
      SplitNoSep(s[1..], sep);
    }
  }

  lemma {:induction false} SplitAfterPiece(a: string, b: string, sep: char)
    requires sep !in a
    ensures Split(a + [sep] + b, sep) == [a] + Split(b, sep)
  {
    if a == [] {
      assert a + [sep] + b == [sep] + b;
      assert ([sep] + b)[1..] == b;
    } else {
      assert (a + [sep] + b)[1..] == a[1..] + [sep] + b;
      assert sep !in a[1..] by {
        forall c | c in a[1..] ensures c in a { }
      }
      SplitAfterPiece(a[1..], b, sep);
      assert [a[0]] + a[1..] == a;
    }
  }

  /** Splitting at a separator splits the pieces on either side of it. */
  lemma SplitConcat(a: string, b: string, sep: char)
    ensures Split(a + [sep] + b, sep) == Split(a, sep) + Split(b, sep)
  {
    var pa, pb := Split(a, sep), Split(b, sep);
    JoinAppend(pa, pb, sep);
    assert forall k :: 0 <= k < |pa + pb| ==> sep !in (pa + pb)[k] by {
      forall k | 0 <= k < |pa + pb| ensures sep !in (pa + pb)[k] {
        if k < |pa| { assert (pa + pb)[k] == pa[k]; } else { assert (pa + pb)[k] == pb[k - |pa|]; }
      }
    }
    SplitJoin(pa + pb, sep);
  }

  lemma {:induction false} JoinAppend(pa: seq<string>, pb: seq<string>, sep: char)
    requires |pa| >= 1 && |pb| >= 1
    ensures JoinWith(pa + pb, sep) == JoinWith(pa, sep) + [sep] + JoinWith(pb, sep)
  {
    if |pa| == 1 {
      assert (pa + pb)[1..] == pb;
    } else {
      assert (pa + pb)[1..] == pa[1..] + pb;
      JoinAppend(pa[1..], pb, sep);
    }
  }

  lemma ConcatAssoc<T>(a: seq<T>, b: seq<T>, c: seq<T>)
    ensures a + b + c == a + (b + c)
  {
  }

  /** The text of `lines` written one after another, each followed by a line break (what
      a series of `print(line)` calls or `write(line + "\n")` calls produces): the lines
      joined at line breaks, with a final empty piece after the last break. */
  function Lines(lines: seq<string>): (text: string)
    ensures lines == [] ==> text == []
    ensures lines != [] ==> text != [] && text[|text| - 1] == '\n'
  {
    if lines == [] then [] else Lines(lines[..|lines| - 1]) + lines[|lines| - 1] + "\n"
  }

  /** The text of the lines is the lines joined at line breaks, with a final empty piece. */
  lemma {:induction false} LinesJoin(lines: seq<string>)
    ensures Lines(lines) == JoinWith(lines + [[]], '\n')
  {
    if lines != [] {
      var init := lines[..|lines| - 1];
      LinesJoin(init);
      LinesStep(init, lines[|lines| - 1], Lines(init));
      assert init + [lines[|lines| - 1]] == lines;
    }
  }

  /** Writing one more line extends the join by that line and a final empty piece. */
  lemma LinesStep(init: seq<string>, last: string, before: string)
    requires before == JoinWith(init + [[]], '\n')
    ensures before + last + "\n" == JoinWith(init + [last] + [[]], '\n')
  {
    var tail := last + "\n";
    assert init + [last] + [[]] == init + [last, []];
    assert JoinWith([last, []], '\n') == tail;
    if init == [] {
      assert before == [];
    } else {
      JoinAppend(init, [[]], '\n');
      JoinAppend(init, [last, []], '\n');
      ConcatAssoc(before, last, "\n");
    }
  }

  /** Lines free of line breaks are recovered by splitting their text, with the empty
      piece after the last break. */
  lemma LinesSplit(lines: seq<string>)
    requires forall k :: 0 <= k < |lines| ==> '\n' !in lines[k]
    ensures Split(Lines(lines), '\n') == lines + [[]]
  {
    NoSepWithEmpty(lines, '\n');
    LinesJoin(lines);
    SplitJoin(lines + [[]], '\n');
  }

  lemma NoSepWithEmpty(pieces: seq<string>, sep: char)
    requires forall k :: 0 <= k < |pieces| ==> sep !in pieces[k]
    ensures forall k :: 0 <= k < |pieces + [[]]| ==> sep !in (pieces + [[]])[k]
  {
    forall k | 0 <= k < |pieces + [[]]| ensures sep !in (pieces + [[]])[k] {
      if k < |pieces| { assert (pieces + [[]])[k] == pieces[k]; }
    }
  }
}
