/** The handful of Python string operations the SmartDNS config code relies
    on, written over `seq<char>`: whitespace splitting and stripping, ASCII
    lower-casing, single-character replacement, splitting on a separator and
    substring removal. */
module Text {

  /** The code points Python's `str.split()` and `str.strip()` treat as
      whitespace. */
  predicate IsSpace(c: char) {
    var n := c as int;
    if n <= 32 then n == 32 || 9 <= n <= 13 || 28 <= n <= 31
    else if n < 0x85 then false
    else
      || n == 0x85 || n == 0xA0 || n == 0x1680 || 0x2000 <= n <= 0x200A
      || n == 0x2028 || n == 0x2029 || n == 0x202F || n == 0x205F || n == 0x3000
  }

  predicate NoSpace(s: string) {
    forall i :: 0 <= i < |s| ==> !IsSpace(s[i])
  }

  /** A word that `split()` hands back unchanged. */
  predicate Token(s: string) {
    s != [] && NoSpace(s)
  }

  /** No whitespace at either end: `strip()` leaves it alone. */
  predicate Trimmed(s: string) {
    s == [] || (!IsSpace(s[0]) && !IsSpace(s[|s| - 1]))
  }

  /** Words joined by single spaces, as an f-string with spaces between its
      fields writes them. */
  function Words(ts: seq<string>): string {
    if ts == [] then ""
    else if |ts| == 1 then ts[0]
    else ts[0] + " " + Words(ts[1..])
  }

  function LStrip(s: string): (r: string)
    ensures |r| <= |s| && r == s[|s| - |r|..]
    ensures r == [] || !IsSpace(r[0])
    ensures forall i :: 0 <= i < |s| - |r| ==> IsSpace(s[i])
  {
    if s != [] && IsSpace(s[0]) then LStrip(s[1..]) else s
  }

  function RStrip(s: string): (r: string)
    ensures |r| <= |s| && r == s[..|r|]
    ensures r == [] || !IsSpace(r[|r| - 1])
    ensures forall i :: |r| <= i < |s| ==> IsSpace(s[i])
  {
    if s != [] && IsSpace(s[|s| - 1]) then RStrip(s[..|s| - 1]) else s
  }

  /** `s.strip()`. */
  function Strip(s: string): (r: string)
    ensures Trimmed(r)
  {
    RStrip(LStrip(s))
  }

  /** Stripping removes nothing from a string that has no outer whitespace. */
  lemma StripTrimmed(s: string)
    requires Trimmed(s)
    ensures Strip(s) == s
  {
  }

  /** A string that starts with a non-space keeps its first character. */
  lemma StripKeepsFirst(s: string)
    requires s != [] && !IsSpace(s[0])
    ensures Strip(s) != [] && Strip(s)[0] == s[0]
  {
    assert LStrip(s) == s;
  }

  /** Strip then test the prefix: the `line.strip().startswith(p)` test. */
  predicate StartsWith(s: string, p: string) {
    p <= Strip(s)
  }

  /** A line whose first character is '#' reads as a comment. */
  lemma HashLineIsComment(s: string)
    requires s != [] && s[0] == '#'
    ensures Strip(s) != [] && "#" <= Strip(s)
  {
    StripKeepsFirst(s);
  }

  /** Length of the run of non-space characters that `s` starts with. */
  function WordLen(s: string): (n: nat)
    ensures n <= |s|
    ensures forall i :: 0 <= i < n ==> !IsSpace(s[i])
    ensures n < |s| ==> IsSpace(s[n])
  {
    if s == [] || IsSpace(s[0]) then 0 else 1 + WordLen(s[1..])
  }

  /** `s.split()`: the maximal runs of non-space characters, in order. */
  function Split(s: string): (r: seq<string>)
    ensures forall i :: 0 <= i < |r| ==> Token(r[i])
    decreases |s|
  {
    if s == [] then []
    else if IsSpace(s[0]) then Split(s[1..])
    else
      var n := WordLen(s);
      [s[..n]] + Split(s[n..])
  }

  /** Splitting a string with a non-space character in it yields a word. */
  lemma {:induction false} SplitNonEmpty(s: string, i: nat)
    requires i < |s| && !IsSpace(s[i])
    ensures Split(s) != []
    decreases |s|
  {
    if IsSpace(s[0]) {
      SplitNonEmpty(s[1..], i - 1);
    }
  }

  /** A token followed by a space: `split()` peels the token off. */
  lemma SplitAfterToken(t: string, rest: string)
    requires Token(t)
    ensures Split(t + " " + rest) == [t] + Split(rest)
  {
    var s := t + " " + rest;
    var n := WordLen(s);
    assert n == |t| by {
      assert IsSpace(s[|t|]);
    }
    assert s[..n] == t;
    assert s[n..] == " " + rest;
    assert (" " + rest)[1..] == rest;
  }

  /** A token alone splits to itself. */
  lemma SplitToken(t: string)
    requires Token(t)
    ensures Split(t) == [t]
  {
    var n := WordLen(t);
    assert t[..n] == t && t[n..] == [];
  }

  /** Round trip: `' '.join(ts).split() == ts` when every word is a token. */
  lemma {:induction false} SplitWords(ts: seq<string>)
    requires forall i :: 0 <= i < |ts| ==> Token(ts[i])
    ensures Split(Words(ts)) == ts
  {
    if |ts| == 1 {
      SplitToken(ts[0]);
    } else if |ts| > 1 {
      SplitAfterToken(ts[0], Words(ts[1..]));
      SplitWords(ts[1..]);
    }
  }

  /** Joined tokens start with the first token's first character and end with
      the last token's last character. */
  lemma {:induction false} WordsEnds(ts: seq<string>)
    requires ts != [] && forall i :: 0 <= i < |ts| ==> Token(ts[i])
    ensures Token(ts[0]) && Token(ts[|ts| - 1])
    ensures |Words(ts)| > 0
    ensures Words(ts)[0] == ts[0][0]
    ensures Words(ts)[|Words(ts)| - 1] == ts[|ts| - 1][|ts[|ts| - 1]| - 1]
  {
    if |ts| > 1 {
      WordsEnds(ts[1..]);
    }
  }

  /** A line of words starts with its first word. */
  lemma WordsStart(ts: seq<string>)
    requires ts != [] && forall i :: 0 <= i < |ts| ==> Token(ts[i])
    ensures StartsWith(Words(ts), ts[0])
  {
    WordsEnds(ts);
    StripTrimmed(Words(ts));
    WordsPrefix(ts);
  }

  lemma WordsPrefix(ts: seq<string>)
    requires ts != []
    ensures ts[0] <= Words(ts)
  {
    if |ts| > 1 {
      var w := Words(ts);
      assert w == ts[0] + (" " + Words(ts[1..]));
      assert w[..|ts[0]|] == ts[0];
    }
  }

  /** Joined tokens survive `strip()` and come back from `split()`. */
  lemma ParseWords(ts: seq<string>)
    requires ts != [] && forall i :: 0 <= i < |ts| ==> Token(ts[i])
    ensures Strip(Words(ts)) == Words(ts)
    ensures Split(Strip(Words(ts))) == ts
  {
    WordsEnds(ts);
    StripTrimmed(Words(ts));
    SplitWords(ts);
  }

  function LowerChar(c: char): char {
    if 'A' <= c <= 'Z' then (c as int + 32) as char else c
  }

  /** `s.lower()` on the ASCII letters; every other character is kept. */
  function Lower(s: string): (r: string)
    ensures |r| == |s|
  {
    seq(|s|, i requires 0 <= i < |s| => LowerChar(s[i]))
  }

  /** Lower-casing twice is lower-casing once. */
  lemma LowerIdempotent(s: string)
    ensures Lower(Lower(s)) == Lower(s)
  {
  }

  /** Lower-casing leaves whitespace where it was, so it commutes with
      stripping. */
  lemma {:induction false} StripLower(s: string)
    ensures Strip(Lower(s)) == Lower(Strip(s))
  {
    var l := Lower(s);
    assert forall i :: 0 <= i < |s| ==> (IsSpace(l[i]) <==> IsSpace(s[i]));
    LStripLower(s);
    RStripLower(LStrip(s));
  }

  lemma {:induction false} LStripLower(s: string)
    ensures LStrip(Lower(s)) == Lower(LStrip(s))
    decreases |s|
  {
    if s != [] {
      assert IsSpace(Lower(s)[0]) <==> IsSpace(s[0]);
      if IsSpace(s[0]) {
        assert Lower(s)[1..] == Lower(s[1..]);
        LStripLower(s[1..]);
      }
    }
  }

  lemma {:induction false} RStripLower(s: string)
    ensures RStrip(Lower(s)) == Lower(RStrip(s))
    decreases |s|
  {
    if s != [] {
      assert IsSpace(Lower(s)[|s| - 1]) <==> IsSpace(s[|s| - 1]);
      if IsSpace(s[|s| - 1]) {
        assert Lower(s)[..|s| - 1] == Lower(s[..|s| - 1]);
        RStripLower(s[..|s| - 1]);
      }
    }
  }

  /** `s.replace(a, b)` for single characters. */
  function ReplaceChar(s: string, a: char, b: char): (r: string)
    ensures |r| == |s|
  {
    seq(|s|, i requires 0 <= i < |s| => if s[i] == a then b else s[i])
  }

  /** `s.split(c)[-1]`: the text after the last `c`, or all of `s` when it
      has none. */
  function AfterLast(s: string, c: char): (r: string)
    ensures c !in r
    ensures |r| <= |s| && r == s[|s| - |r|..]
    ensures |r| < |s| ==> s[|s| - |r| - 1] == c
  {
    if s == [] then []
    else if s[|s| - 1] == c then []
    else AfterLast(s[..|s| - 1], c) + [s[|s| - 1]]
  }

  /** Whatever precedes the last separator is cut away. */
  lemma {:induction false} AfterLastOf(p: string, c: char, q: string)
    requires c !in q
    ensures AfterLast(p + [c] + q, c) == q
    decreases |q|
  {
    var s := p + [c] + q;
    if q != [] {
      var q' := q[..|q| - 1];
      assert s[..|s| - 1] == p + [c] + q';
      AfterLastOf(p, c, q');
      assert q == q' + [q[|q| - 1]];
    }
  }

  /** `s.split(c)[0]`: the text before the first `c`, or all of `s` when it
      has none. */
  function BeforeFirst(s: string, c: char): (r: string)
    ensures c !in r
    ensures |r| <= |s| && r == s[..|r|]
    ensures |r| < |s| ==> s[|r|] == c
  {
    if s == [] then []
    else if s[0] == c then []
    else [s[0]] + BeforeFirst(s[1..], c)
  }

  /** Whatever follows the first separator is cut away. */
  lemma {:induction false} BeforeFirstOf(p: string, c: char, q: string)
    requires c !in p
    ensures BeforeFirst(p + [c] + q, c) == p
    decreases |p|
  {
    var s := p + [c] + q;
    if p != [] {
      assert s[1..] == p[1..] + [c] + q;
      BeforeFirstOf(p[1..], c, q);
      assert p == [p[0]] + p[1..];
    }
  }

  /** `pat` occurs somewhere in `s` (Python's `pat in s`). */
  predicate Contains(s: string, pat: string) {
    pat <= s || (s != [] && Contains(s[1..], pat))
  }

  /** `s.replace(pat, '')`: every occurrence of `pat`, found left to right
      without overlap, is removed. */
  function RemoveAll(s: string, pat: string): (r: string)
    requires pat != []
    ensures |r| <= |s|
    decreases |s|
  {
    if s == [] then []
    else if pat <= s then RemoveAll(s[|pat|..], pat)
    else [s[0]] + RemoveAll(s[1..], pat)
  }

  /** Removing a pattern that does not occur changes nothing. */
  lemma {:induction false} RemoveAbsent(s: string, pat: string)
    requires pat != [] && !Contains(s, pat)
    ensures RemoveAll(s, pat) == s
    decreases |s|
  {
    if s != [] {
      RemoveAbsent(s[1..], pat);
      assert s == [s[0]] + s[1..];
    }
  }

  /** Removing a pattern from the front of a line that otherwise lacks it
      leaves what came after. */
  lemma RemoveLeading(pat: string, q: string)
    requires pat != [] && !Contains(q, pat)
    ensures RemoveAll(pat + q, pat) == q
  {
    assert (pat + q)[|pat|..] == q;
    RemoveAbsent(q, pat);
  }

  /** One leading space is stripped away from a string without outer
      whitespace. */
  lemma StripLeadingSpace(s: string)
    requires Trimmed(s)
    ensures Strip(" " + s) == s
  {
    assert (" " + s)[1..] == s;
    assert LStrip(" " + s) == LStrip(s);
    StripTrimmed(s);
  }

  /** A pattern absent from `s` and not at the front of `[c] + s` is absent
      from `[c] + s`. */
  lemma ContainsCons(c: char, s: string, pat: string)
    requires !Contains(s, pat) && !(pat <= [c] + s)
    ensures !Contains([c] + s, pat)
  {
    assert ([c] + s)[1..] == s;
  }

  /** Python's `<=` on strings: lexicographic by code point. */
  predicate StrLe(a: string, b: string) {
    a == [] || (b != [] && (a[0] < b[0] || (a[0] == b[0] && StrLe(a[1..], b[1..]))))
  }

  lemma {:induction false} StrLeRefl(a: string)
    ensures StrLe(a, a)
  {
    if a != [] {
      StrLeRefl(a[1..]);
    }
  }

  lemma {:induction false} StrLeTotal(a: string, b: string)
    ensures StrLe(a, b) || StrLe(b, a)
  {
    if a != [] && b != [] && a[0] == b[0] {
      StrLeTotal(a[1..], b[1..]);
    }
  }

  lemma {:induction false} StrLeTrans(a: string, b: string, c: string)
    requires StrLe(a, b) && StrLe(b, c)
    ensures StrLe(a, c)
  {
    if a != [] && b != [] && c != [] && a[0] == b[0] == c[0] {
      StrLeTrans(a[1..], b[1..], c[1..]);
    }
  }
}
