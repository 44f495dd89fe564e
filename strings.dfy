/**
 * The Python string operations the application relies on, over `string`
 * (a sequence of Unicode scalar values): `str.isspace`, `str.strip`,
 * `str.split()`, `str.split(sep)`, `sep.join`, `str.replace` and the ASCII
 * part of `str.lower` / `str.upper`.
 */
module Strings {

  /** `c.isspace()`: the characters Python's `split()` and `strip()` treat as whitespace. */
  predicate IsSpace(c: char) {
    || ('\t' <= c <= '\r')
    || ('\U{1C}' <= c <= ' ')
    || c == '\U{85}' || c == '\U{A0}' || c == '\U{1680}'
    || ('\U{2000}' <= c <= '\U{200A}')
    || c == '\U{2028}' || c == '\U{2029}' || c == '\U{202F}' || c == '\U{205F}' || c == '\U{3000}'
  }

  predicate AllSpace(s: string) {
    forall i :: 0 <= i < |s| ==> IsSpace(s[i])
  }

  predicate NoSpace(s: string) {
    forall i :: 0 <= i < |s| ==> !IsSpace(s[i])
  }

  /** `p` occurs in `s` at position `i`. */
  predicate StartsAt(s: string, i: nat, p: string) {
    i + |p| <= |s| && s[i..i + |p|] == p
  }

  /** A prefix of a prefix is a prefix. */
  lemma StartsAtShorter(s: string, p: string, k: nat)
    requires StartsAt(s, 0, p) && k <= |p|
    ensures StartsAt(s, 0, p[..k])
  {
    assert s[..k] == s[..|p|][..k];
  }

  /** Dropping the first `k` characters of both keeps the prefix relation. */
  lemma StartsAtDrop(s: string, p: string, k: nat)
    requires StartsAt(s, 0, p) && k <= |p|
    ensures StartsAt(s[k..], 0, p[k..])
  {
    assert s[k..][..|p| - k] == s[..|p|][k..];
  }

  lemma StartsAtLeft(a: string, b: string, i: nat, p: string)
    requires StartsAt(a, i, p)
    ensures StartsAt(a + b, i, p)
  {
    assert (a + b)[i..i + |p|] == a[i..i + |p|];
  }

  lemma StartsAtRight(a: string, b: string, j: nat, p: string)
    requires StartsAt(b, j, p)
    ensures StartsAt(a + b, |a| + j, p)
  {
    assert (a + b)[|a| + j..|a| + j + |p|] == b[j..j + |p|];
  }

  // ---------- strip ----------

  /** The number of whitespace characters that start `s`. */
  function LeadingSpace(s: string): (n: nat)
    ensures n <= |s| && AllSpace(s[..n])
    ensures n < |s| ==> !IsSpace(s[n])
  {
    if s != [] && IsSpace(s[0]) then
      var m := LeadingSpace(s[1..]);
      m + 1
    else 0
  }

  /** The number of whitespace characters that end `s`. */
  function TrailingSpace(s: string): (n: nat)
    ensures n <= |s| && AllSpace(s[|s| - n..])
    ensures n < |s| ==> !IsSpace(s[|s| - n - 1])
  {
    if s != [] && IsSpace(s[|s| - 1]) then
      var m := TrailingSpace(s[..|s| - 1]);
      m + 1
    else 0
  }

  /** `s.lstrip()`. */
  function StripStart(s: string): (r: string)
    ensures |r| <= |s| && r == s[|s| - |r|..]
    ensures AllSpace(s[..|s| - |r|])
    ensures r == [] || !IsSpace(r[0])
  {
    s[LeadingSpace(s)..]
  }

  /** `s.rstrip()`. */
  function StripEnd(s: string): (r: string)
    ensures |r| <= |s| && r == s[..|r|]
    ensures AllSpace(s[|r|..])
    ensures r == [] || !IsSpace(r[|r| - 1])
  {
    s[..|s| - TrailingSpace(s)]
  }

  /** `s.strip()`: leading and trailing whitespace removed. */
  function Strip(s: string): (r: string)
    ensures r == [] || (!IsSpace(r[0]) && !IsSpace(r[|r| - 1]))
  {
    StripEnd(StripStart(s))
  }

  /** What `strip` keeps is one slice of its input, and only whitespace lies outside it. */
  lemma StripSlice(s: string) returns (i: nat, j: nat)
    ensures i <= j <= |s| && Strip(s) == s[i..j]
    ensures AllSpace(s[..i]) && AllSpace(s[j..])
  {
    i := LeadingSpace(s);
    var t := StripStart(s);
    var k := |StripEnd(t)|;
    j := i + k;
    SuffixSlices(s, i, k);
  }

  /** Slicing a suffix of `s` is slicing `s` itself. */
  lemma SuffixSlices(s: string, i: nat, k: nat)
    requires i + k <= |s|
    ensures s[i..][..k] == s[i..i + k] && s[i..][k..] == s[i + k..]
  {
  }

  /** A character absent from the input is absent from what `strip` keeps. */
  lemma StripKeepsAbsent(s: string, c: char)
    requires c !in s
    ensures c !in Strip(s)
  {
    var i, j := StripSlice(s);
    var r := Strip(s);
    forall m | 0 <= m < |r| ensures r[m] != c {
      assert r[m] == s[i + m];
    }
  }

  /** `strip` gives "" exactly for all-whitespace input. */
  lemma StripEmpty(s: string)
    ensures Strip(s) == [] <==> AllSpace(s)
  {
    var i, j := StripSlice(s);
    if Strip(s) == [] {
      assert i == j;
      forall k | 0 <= k < |s| ensures IsSpace(s[k]) {
        if k < i { assert s[..i][k] == s[k]; } else { assert s[j..][k - j] == s[k]; }
      }
    }
  }

  lemma StripIdempotent(s: string)
    ensures Strip(Strip(s)) == Strip(s)
  {
  }

  // ---------- split() ----------

  /** Length of the run of non-whitespace characters that starts `s`. */
  function WordLen(s: string): (n: nat)
    ensures n <= |s| && NoSpace(s[..n])
    ensures n < |s| ==> IsSpace(s[n])
    ensures s != [] && !IsSpace(s[0]) ==> n > 0
  {
    if s == [] || IsSpace(s[0]) then 0 else 1 + WordLen(s[1..])
  }

  /** `s.split()`: the maximal runs of non-whitespace characters, in order. */
  function Words(s: string): (r: seq<string>)
    ensures forall k :: 0 <= k < |r| ==> r[k] != [] && NoSpace(r[k])
    decreases |s|
  {
    if s == [] then []
    else if IsSpace(s[0]) then Words(s[1..])
    else
      var n := WordLen(s);
      [s[..n]] + Words(s[n..])
  }

  /** The non-whitespace characters of `s`, in order. */
  function NonSpace(s: string): string {
    if s == [] then [] else (if IsSpace(s[0]) then [] else [s[0]]) + NonSpace(s[1..])
  }

  function Concat(ws: seq<string>): string {
    if ws == [] then [] else ws[0] + Concat(ws[1..])
  }

  lemma {:induction false} NonSpaceAppend(a: string, b: string)
    ensures NonSpace(a + b) == NonSpace(a) + NonSpace(b)
  {
    if a == [] {
      assert a + b == b;
    } else {
      assert (a + b)[1..] == a[1..] + b;
      NonSpaceAppend(a[1..], b);
    }
  }

  lemma {:induction false} NonSpaceOfWord(w: string)
    requires NoSpace(w)
    ensures NonSpace(w) == w
  {
    if w != [] {
      NonSpaceOfWord(w[1..]);
    }
  }

  /** `split()` drops exactly the whitespace: its words, joined, are the other characters in order. */
  lemma {:induction false} WordsKeepNonSpace(s: string)
    ensures Concat(Words(s)) == NonSpace(s)
    decreases |s|
  {
    if s == [] {
    } else if IsSpace(s[0]) {
      WordsKeepNonSpace(s[1..]);
    } else {
      var n := WordLen(s);
      assert s == s[..n] + s[n..];
      WordsKeepNonSpace(s[n..]);
      NonSpaceAppend(s[..n], s[n..]);
      NonSpaceOfWord(s[..n]);
      assert ([s[..n]] + Words(s[n..]))[1..] == Words(s[n..]);
    }
  }

  /** `split()` finds no word exactly when the text is all whitespace. */
  lemma {:induction false} WordsEmpty(s: string)
    ensures Words(s) == [] <==> AllSpace(s)
    decreases |s|
  {
    if s != [] {
      WordsEmpty(s[1..]);
      assert AllSpace(s) <==> IsSpace(s[0]) && AllSpace(s[1..]) by {
        if IsSpace(s[0]) && AllSpace(s[1..]) {
          forall k | 0 <= k < |s| ensures IsSpace(s[k]) {
            if k > 0 { assert s[k] == s[1..][k - 1]; }
          }
        }
      }
    }
  }

  /** Leading whitespace does not change the words, and the first word starts at the first
      non-whitespace character. */
  lemma {:induction false} WordsFirst(s: string, i: nat)
    requires i < |s| && !IsSpace(s[i]) && AllSpace(s[..i])
    ensures Words(s) != [] && Words(s)[0][0] == s[i]
    decreases i
  {
    if i > 0 {
      assert IsSpace(s[..i][0]);
      assert s[1..][..i - 1] == s[1..i];
      assert forall k :: 0 <= k < i - 1 ==> s[1..i][k] == s[..i][k + 1];
      WordsFirst(s[1..], i - 1);
    }
  }

  /** A run of non-whitespace ends at the first whitespace character, whatever follows it. */
  lemma {:induction false} WordLenSpaceAppend(a: string, c: char, b: string)
    requires IsSpace(c)
    ensures WordLen(a + [c] + b) == WordLen(a)
    decreases |a|
  {
    var s := a + [c] + b;
    if a == [] {
      assert s[0] == c;
    } else if IsSpace(a[0]) {
      assert s[0] == a[0];
    } else {
      assert s[0] == a[0] && s[1..] == a[1..] + [c] + b;
      WordLenSpaceAppend(a[1..], c, b);
    }
  }

  /** `split()` cuts at every whitespace character: the words on either side of one are
      found separately, and no word spans it. */
  lemma {:induction false} WordsSpaceSplit(a: string, c: char, b: string)
    requires IsSpace(c)
    ensures Words(a + [c] + b) == Words(a) + Words(b)
    decreases |a|, 1
  {
    var s := a + [c] + b;
    if a == [] {
      assert s[0] == c && s[1..] == b;
    } else if IsSpace(a[0]) {
      assert s[0] == a[0] && s[1..] == a[1..] + [c] + b;
      WordsSpaceSplit(a[1..], c, b);
    } else {
      WordFirstSpaceSplit(a, c, b);
    }
  }

  /** The case of `WordsSpaceSplit` where `a` starts with a word: that word is found in
      `a` and in the whole alike. */
  lemma {:induction false} WordFirstSpaceSplit(a: string, c: char, b: string)
    requires IsSpace(c) && a != [] && !IsSpace(a[0])
    ensures Words(a + [c] + b) == Words(a) + Words(b)
    decreases |a|, 0
  {
    var ac := a + [c];
    var n := WordLen(a);
    var t := a[n..];
    WordLenSpaceAppend(a, c, b);
    AppendSlices(a, [c], n);
    AppendSlices(ac, b, n);
    assert (ac + b)[0] == a[0];
    assert Words(ac + b) == [a[..n]] + Words(t + [c] + b);
    WordsSpaceSplit(t, c, b);
    assert Words(a) == [a[..n]] + Words(t);
  }

  /** The two ends of `x + y` cut inside `x`. */
  lemma AppendSlices(x: string, y: string, n: nat)
    requires n <= |x|
    ensures (x + y)[..n] == x[..n] && (x + y)[n..] == x[n..] + y
  {
  }

  lemma {:induction false} WordLenOfWord(w: string)
    requires NoSpace(w)
    ensures WordLen(w) == |w|
    decreases |w|
  {
    if w != [] {
      assert NoSpace(w[1..]) by {
        forall k | 0 <= k < |w| - 1 ensures !IsSpace(w[1..][k]) {
          assert w[1..][k] == w[k + 1];
        }
      }
      WordLenOfWord(w[1..]);
    }
  }

  /** A non-empty run without whitespace is one word. */
  lemma WordsOfWord(w: string)
    requires w != [] && NoSpace(w)
    ensures Words(w) == [w]
  {
    WordLenOfWord(w);
    assert w[..|w|] == w;
    assert w[|w|..] == [];
  }

  /** Leading whitespace does not change the words. */
  lemma {:induction false} WordsSpacePrefix(p: string, s: string)
    requires AllSpace(p)
    ensures Words(p + s) == Words(s)
    decreases |p|
  {
    if p == [] {
      assert p + s == s;
    } else {
      assert (p + s)[0] == p[0] && (p + s)[1..] == p[1..] + s;
      assert AllSpace(p[1..]) by {
        forall k | 0 <= k < |p| - 1 ensures IsSpace(p[1..][k]) {
          assert p[1..][k] == p[k + 1];
        }
      }
      WordsSpacePrefix(p[1..], s);
    }
  }

  /** A word followed by whitespace is found whole, and the words of the rest follow it. */
  lemma WordAfterSpace(a: string, q: string, t: string)
    requires a != [] && NoSpace(a) && AllSpace(q) && q != []
    ensures Words(a + q + t) == [a] + Words(t)
  {
    assert a + q + t == a + [q[0]] + (q[1..] + t);
    WordsSpaceSplit(a, q[0], q[1..] + t);
    WordsOfWord(a);
    assert AllSpace(q[1..]) by {
      forall k | 0 <= k < |q| - 1 ensures IsSpace(q[1..][k]) {
        assert q[1..][k] == q[k + 1];
      }
    }
    WordsSpacePrefix(q[1..], t);
  }

  /** A word followed by nothing or by whitespace is the first word found. */
  lemma WordAtEnd(b: string, r: string)
    requires b != [] && NoSpace(b) && (r == [] || IsSpace(r[0]))
    ensures Words(b + r) != [] && Words(b + r)[0] == b
  {
    WordsOfWord(b);
    if r == [] {
      assert b + r == b;
    } else {
      var rr := r[1..];
      assert r == [r[0]] + rr;
      assert b + r == b + [r[0]] + rr;
      WordsSpaceSplit(b, r[0], rr);
      assert Words(b + r) == [b] + Words(rr);
    }
  }

  /** Two words separated by whitespace, after optional leading whitespace and before nothing
      or whitespace, are the first two words `split()` finds. */
  lemma WordsTwo(p: string, a: string, q: string, b: string, r: string)
    requires AllSpace(p) && AllSpace(q) && q != []
    requires a != [] && NoSpace(a) && b != [] && NoSpace(b)
    requires r == [] || IsSpace(r[0])
    ensures |Words(p + a + q + b + r)| >= 2
    ensures Words(p + a + q + b + r)[0] == a && Words(p + a + q + b + r)[1] == b
  {
    var rest := b + r;
    var m := a + q;
    var s := p + a + q + b + r;
    assert s == (p + a + q) + rest;
    assert p + a + q == p + m;
    assert s == p + (m + rest);
    WordsSpacePrefix(p, m + rest);
    WordAfterSpace(a, q, rest);
    WordAtEnd(b, r);
  }

  // ---------- split(sep) and join ----------

  /** `s.index(c)`: the first position of `c`. */
  function IndexOf(s: string, c: char): (i: nat)
    requires c in s
    ensures i < |s| && s[i] == c && c !in s[..i]
  {
    if s[0] == c then 0 else 1 + IndexOf(s[1..], c)
  }

  /** `s.rfind(c)`: the last position of `c`, or -1 when there is none. */
  function RFind(s: string, c: char): (i: int)
    ensures -1 <= i < |s|
    ensures i == -1 <==> c !in s
    ensures i >= 0 ==> s[i] == c && c !in s[i + 1..]
  {
    if s == [] then -1
    else if s[|s| - 1] == c then |s| - 1
    else
      assert s == s[..|s| - 1] + [s[|s| - 1]];
      RFind(s[..|s| - 1], c)
  }

  /** `sep.join(parts)`. */
  function JoinWith(parts: seq<string>, sep: char): string {
    if |parts| == 0 then ""
    else if |parts| == 1 then parts[0]
    else parts[0] + [sep] + JoinWith(parts[1..], sep)
  }

  /** `s.split(sep)` for a one-character separator: the pieces between separators, at
      least one, and joining them back gives `s`. */
  function SplitOn(s: string, sep: char): (r: seq<string>)
    ensures |r| >= 1
    ensures forall k :: 0 <= k < |r| ==> sep !in r[k]
    ensures JoinWith(r, sep) == s
    decreases |s|
  {
    if sep !in s then [s]
    else
      var i := IndexOf(s, sep);
      var rest := SplitOn(s[i + 1..], sep);
      assert ([s[..i]] + rest)[1..] == rest;
      assert s == s[..i] + [sep] + s[i + 1..];
      [s[..i]] + rest
  }

  /** Splitting at the first separator: the piece before it, then the split of the rest. */
  lemma SplitOnCons(a: string, sep: char, b: string)
    requires sep !in a
    ensures SplitOn(a + [sep] + b, sep) == [a] + SplitOn(b, sep)
  {
    var s := a + [sep] + b;
    assert s[|a|] == sep;
    var i := IndexOf(s, sep);
    assert s[..|a|] == a;
    assert s[..i] == a && s[i + 1..] == b;
  }

  /** `split` undoes `join` when no piece holds the separator. */
  lemma {:induction false} SplitJoin(parts: seq<string>, sep: char)
    requires |parts| >= 1
    requires forall k :: 0 <= k < |parts| ==> sep !in parts[k]
    ensures SplitOn(JoinWith(parts, sep), sep) == parts
    decreases |parts|
  {
    if |parts| > 1 {
      SplitJoin(parts[1..], sep);
      SplitOnCons(parts[0], sep, JoinWith(parts[1..], sep));
      assert parts == [parts[0]] + parts[1..];
    }
  }

  // ---------- replace ----------

  /** `s.replace(pat, rep)`: scanning left to right, each occurrence of `pat` that does not
      overlap an earlier replaced one is replaced by `rep`. */
  function Replace(s: string, pat: string, rep: string): string
    requires pat != []
    decreases |s|
  {
    if s == [] then []
    else if StartsAt(s, 0, pat) then rep + Replace(s[|pat|..], pat, rep)
    else [s[0]] + Replace(s[1..], pat, rep)
  }

  /** One step of a single-character replace. */
  lemma ReplaceCharHead(s: string, c: char, rep: string)
    requires s != []
    ensures Replace(s, [c], rep) == (if s[0] == c then rep else [s[0]]) + Replace(s[1..], [c], rep)
  {
    assert s[0..1] == [s[0]];
  }

  /** Replacing a single character distributes over concatenation. */
  lemma {:induction false} ReplaceCharAppend(a: string, b: string, c: char, rep: string)
    ensures Replace(a + b, [c], rep) == Replace(a, [c], rep) + Replace(b, [c], rep)
    decreases |a|
  {
    if a == [] {
      assert a + b == b;
    } else {
      var h := if a[0] == c then rep else [a[0]];
      var ra, rb := Replace(a[1..], [c], rep), Replace(b, [c], rep);
      ReplaceCharHead(a + b, c, rep);
      ReplaceCharHead(a, c, rep);
      assert (a + b)[0] == a[0] && (a + b)[1..] == a[1..] + b;
      ReplaceCharAppend(a[1..], b, c, rep);
      assert Replace(a + b, [c], rep) == h + (ra + rb);
      assert h + (ra + rb) == (h + ra) + rb;
    }
  }

  /** Text that holds no first character of `pat` is copied unchanged. */
  lemma {:induction false} ReplaceSkip(t: string, u: string, pat: string, rep: string)
    requires pat != [] && pat[0] !in t
    ensures Replace(t + u, pat, rep) == t + Replace(u, pat, rep)
    decreases |t|
  {
    if t == [] {
      assert t + u == u;
    } else {
      assert (t + u)[0] == t[0];
      assert (t + u)[1..] == t[1..] + u;
      ReplaceSkip(t[1..], u, pat, rep);
    }
  }

  lemma ReplaceAbsent(s: string, pat: string, rep: string)
    requires pat != [] && pat[0] !in s
    ensures Replace(s, pat, rep) == s
  {
    ReplaceSkip(s, [], pat, rep);
    assert s + [] == s;
  }

  /** A one-character string that is the pattern is replaced whole. */
  lemma ReplaceWhole(c: char, rep: string)
    ensures Replace([c], [c], rep) == rep
  {
    assert [c][1..] == [];
    assert StartsAt([c], 0, [c]);
  }

  /** When no occurrence starts at the head of `t + u` and none can start later inside `t`,
      `t` is copied and the scan goes on in `u`. */
  lemma ReplacePastHead(t: string, u: string, pat: string, rep: string)
    requires pat != [] && t != [] && pat[0] !in t[1..] && !StartsAt(t + u, 0, pat)
    ensures Replace(t + u, pat, rep) == t + Replace(u, pat, rep)
  {
    var v := t + u;
    var rest := Replace(u, pat, rep);
    assert v != [] && v[0] == t[0] && v[1..] == t[1..] + u;
    assert Replace(v, pat, rep) == [t[0]] + Replace(t[1..] + u, pat, rep);
    ReplaceSkip(t[1..], u, pat, rep);
    assert [t[0]] + (t[1..] + rest) == ([t[0]] + t[1..]) + rest;
    assert [t[0]] + t[1..] == t;
  }

  // ---------- ASCII case mapping ----------

  function LowerChar(c: char): (r: char)
    ensures r == '.' <==> c == '.'
  {
    if 'A' <= c <= 'Z' then (c as int + 32) as char else c
  }

  function UpperChar(c: char): char {
    if 'a' <= c <= 'z' then (c as int - 32) as char else c
  }

  /** `s.lower()` on the ASCII letters. */
  function Lower(s: string): (r: string)
    ensures |r| == |s| && forall i :: 0 <= i < |s| ==> r[i] == LowerChar(s[i])
  {
    seq(|s|, i requires 0 <= i < |s| => LowerChar(s[i]))
  }
}
