/**
 * Character classes and the JavaScript string operations the dataset code relies on:
 * `toLowerCase`, `trim`, regex character-class filtering, `includes` and the default
 * code-unit ordering used by `Array.prototype.sort`.
 */
module Text {

  predicate IsAsciiLetter(c: char) { 'a' <= c <= 'z' }

  predicate IsAsciiDigit(c: char) { '0' <= c <= '9' }

  predicate IsAsciiAlnum(c: char) { IsAsciiLetter(c) || IsAsciiDigit(c) }

  /** Combining diacritical marks, the class `[̀-ͯ]`. */
  predicate IsCombiningMark(c: char) { '\U{300}' <= c <= '\U{36F}' }

  /** The characters `String.prototype.trim` removes: WhiteSpace and LineTerminator of ECMAScript. */
  predicate IsWhitespace(c: char) {
    c == '\t' || c == '\n' || c == '\U{B}' || c == '\U{C}' || c == '\r' || c == ' '
    || c == '\U{A0}' || c == '\U{1680}' || ('\U{2000}' <= c <= '\U{200A}')
    || c == '\U{2028}' || c == '\U{2029}' || c == '\U{202F}' || c == '\U{205F}'
    || c == '\U{3000}' || c == '\U{FEFF}'
  }

  /** Lower-casing of one character: ASCII and the Latin-1 upper-case letters. */
  function LowerChar(c: char): (r: char)
    ensures IsAsciiLetter(r) ==> IsAsciiLetter(c) || ('A' <= c <= 'Z')
    ensures IsAsciiDigit(r) <==> IsAsciiDigit(c)
    ensures IsWhitespace(r) <==> IsWhitespace(c)
    ensures IsAsciiLetter(c) ==> r == c
  {
    if 'A' <= c <= 'Z' || ('\U{C0}' <= c <= '\U{DE}' && c != '\U{D7}') then (c as int + 32) as char
    else c
  }

  /** `s.toLowerCase()`, character by character. */
  function Lower(s: string): (r: string)
    ensures |r| == |s|
    ensures forall i :: 0 <= i < |s| ==> r[i] == LowerChar(s[i])
  {
    seq(|s|, i requires 0 <= i < |s| => LowerChar(s[i]))
  }

  lemma LowerConcat(a: string, b: string)
    ensures Lower(a + b) == Lower(a) + Lower(b)
  {
  }

  lemma LowerOfLowercase(s: string)
    requires forall c :: c in s ==> IsAsciiLetter(c)
    ensures Lower(s) == s
  {
  }

  /** The number of whitespace characters at the start of `s`. */
  function LeadingSpace(s: string): (n: nat)
    ensures n <= |s|
  {
    if s != [] && IsWhitespace(s[0]) then 1 + LeadingSpace(s[1..]) else 0
  }

  /** `LeadingSpace` counts exactly the whitespace prefix. */
  lemma {:induction false} LeadingSpaceIsMaximal(s: string)
    ensures forall i :: 0 <= i < LeadingSpace(s) ==> IsWhitespace(s[i])
    ensures LeadingSpace(s) < |s| ==> !IsWhitespace(s[LeadingSpace(s)])
  {
    if s != [] && IsWhitespace(s[0]) {
      LeadingSpaceIsMaximal(s[1..]);
    }
  }

  /** The number of whitespace characters at the end of `s`. */
  function TrailingSpace(s: string): (n: nat)
    ensures n <= |s|
  {
    if s != [] && IsWhitespace(s[|s| - 1]) then 1 + TrailingSpace(s[..|s| - 1]) else 0
  }

  /** `TrailingSpace` counts exactly the whitespace suffix. */
  lemma {:induction false} TrailingSpaceIsMaximal(s: string)
    ensures forall i :: |s| - TrailingSpace(s) <= i < |s| ==> IsWhitespace(s[i])
    ensures TrailingSpace(s) < |s| ==> !IsWhitespace(s[|s| - TrailingSpace(s) - 1])
  {
    if s != [] && IsWhitespace(s[|s| - 1]) {
      TrailingSpaceIsMaximal(s[..|s| - 1]);
    }
  }

  /** `s.trim()`: removes the leading and the trailing whitespace. */
  function Trim(s: string): (r: string)
  {
    var t := s[LeadingSpace(s)..];
    t[..|t| - TrailingSpace(t)]
  }

  predicate AllWhitespace(s: string) { forall i :: 0 <= i < |s| ==> IsWhitespace(s[i]) }

  /** `s` is its trimmed form surrounded by whitespace only. */
  lemma TrimSplits(s: string) returns (p: string, q: string)
    ensures s == p + Trim(s) + q
    ensures AllWhitespace(p) && AllWhitespace(q)
  {
    var n := LeadingSpace(s);
    var t := s[n..];
    var m := TrailingSpace(t);
    p, q := s[..n], t[|t| - m..];
    LeadingSpaceRun(s, n, p);
    TrailingSpaceRun(t, m, q);
    TrimParts(s, n, t, m, p, q);
  }

  lemma TrimParts(s: string, n: nat, t: string, m: nat, p: string, q: string)
    requires n == LeadingSpace(s) && t == s[n..] && m == TrailingSpace(t)
    requires p == s[..n] && q == t[|t| - m..]
    ensures s == p + Trim(s) + q
  {
    TrimIsMiddle(s, n, t, m);
    ConcatThree(s, n, t, |t| - m);
  }

  lemma TrimIsMiddle(s: string, n: nat, t: string, m: nat)
    requires n == LeadingSpace(s) && t == s[n..] && m == TrailingSpace(t)
    ensures Trim(s) == t[..|t| - m]
  {
  }

  lemma ConcatThree(s: string, n: nat, t: string, k: nat)
    requires n <= |s| && t == s[n..] && k <= |t|
    ensures s == s[..n] + t[..k] + t[k..]
  {
    assert t == t[..k] + t[k..];
    assert s == s[..n] + t;
  }

  lemma LeadingSpaceRun(s: string, n: nat, p: string)
    requires n == LeadingSpace(s) && p == s[..n]
    ensures AllWhitespace(p)
  {
    LeadingSpaceIsMaximal(s);
  }

  lemma TrailingSpaceRun(s: string, m: nat, q: string)
    requires m == TrailingSpace(s) && q == s[|s| - m..]
    ensures AllWhitespace(q)
  {
    TrailingSpaceIsMaximal(s);
    assert forall i :: 0 <= i < |q| ==> q[i] == s[|s| - m + i];
  }

  /** A string that is all trailing whitespace is all leading whitespace too, and trims to nothing. */
  lemma AllTrailingIsLeading(s: string)
    ensures TrailingSpace(s) == |s| ==> LeadingSpace(s) == |s| && Trim(s) == []
  {
    TrailingSpaceIsMaximal(s);
    LeadingSpaceIsMaximal(s);
  }

  /** A string whose trimmed form is not empty does not end in whitespace only. */
  lemma TrailingSpaceShort(s: string)
    requires Trim(s) != []
    ensures TrailingSpace(s) < |s|
  {
    AllTrailingIsLeading(s);
  }

  lemma TrimNoWhitespace(s: string)
    requires forall c :: c in s ==> !IsWhitespace(c)
    ensures Trim(s) == s
  {
    if s != [] {
      assert s[0] in s && s[|s| - 1] in s;
    }
  }

  /** The trimmed form of a string holds no leading and no trailing whitespace. */
  lemma TrimmedEnds(s: string)
    ensures Trim(s) != [] ==> !IsWhitespace(Trim(s)[0]) && !IsWhitespace(Trim(s)[|Trim(s)| - 1])
  {
    LeadingSpaceIsMaximal(s);
    TrailingSpaceIsMaximal(s[LeadingSpace(s)..]);
  }

  /** Trailing whitespace of `a + b` is that of `b` when `b` has a non-space character. */
  lemma {:induction false} TrailingSpaceConcat(a: string, b: string)
    requires TrailingSpace(b) < |b|
    ensures TrailingSpace(a + b) == TrailingSpace(b)
  {
    if IsWhitespace(b[|b| - 1]) {
      assert (a + b)[..|a + b| - 1] == a + b[..|b| - 1];
      TrailingSpaceConcat(a, b[..|b| - 1]);
    }
  }

  /** Keeps the characters of `s` that satisfy `keep`, in order (`s.replace(/[^...]/g, '')`). */
  function Filter(keep: char -> bool, s: string): (r: string)
    ensures |r| <= |s|
    ensures forall c :: c in r ==> c in s && keep(c)
  {
    if s == [] then [] else (if keep(s[0]) then [s[0]] else []) + Filter(keep, s[1..])
  }

  lemma {:induction false} FilterConcat(keep: char -> bool, a: string, b: string)
    ensures Filter(keep, a + b) == Filter(keep, a) + Filter(keep, b)
  {
    if a == [] {
      assert a + b == b;
    } else {
      assert (a + b)[0] == a[0];
      assert (a + b)[1..] == a[1..] + b;
      FilterConcat(keep, a[1..], b);
    }
  }

  lemma {:induction false} FilterKeepsAll(keep: char -> bool, s: string)
    requires forall c :: c in s ==> keep(c)
    ensures Filter(keep, s) == s
  {
    if s != [] {
      assert forall c :: c in s[1..] ==> c in s;
      FilterKeepsAll(keep, s[1..]);
    }
  }

  lemma {:induction false} FilterDropsAll(keep: char -> bool, s: string)
    requires forall c :: c in s ==> !keep(c)
    ensures Filter(keep, s) == []
  {
    if s != [] {
      assert forall c :: c in s[1..] ==> c in s;
      FilterDropsAll(keep, s[1..]);
    }
  }

  /** Two filters that agree on every character of `s` give the same result. */
  lemma {:induction false} FilterAgree(p: char -> bool, q: char -> bool, s: string)
    requires forall c :: c in s ==> (p(c) <==> q(c))
    ensures Filter(p, s) == Filter(q, s)
  {
    if s != [] {
      assert forall c :: c in s[1..] ==> c in s;
      FilterAgree(p, q, s[1..]);
    }
  }

  predicate StartsWith(s: string, prefix: string) { |prefix| <= |s| && s[..|prefix|] == prefix }

  /** `s.includes(t)`: `t` occurs in `s` as a contiguous substring. */
  predicate Contains(s: string, t: string)
    decreases |s|
  {
    StartsWith(s, t) || (s != [] && Contains(s[1..], t))
  }

  lemma ContainsEmpty(s: string)
    ensures Contains(s, [])
  {
  }

  lemma ContainsSelf(s: string)
    ensures Contains(s, s)
  {
  }

  /** Code-unit lexicographic order, the default comparison of `Array.prototype.sort` on strings. */
  predicate LexLe(a: string, b: string)
    decreases |a|
  {
    if a == [] then true
    else if b == [] then false
    else if a[0] != b[0] then a[0] < b[0]
    else LexLe(a[1..], b[1..])
  }

  lemma {:induction false} LexLeReflexive(a: string)
    ensures LexLe(a, a)
    decreases |a|
  {
    if a != [] {
      LexLeReflexive(a[1..]);
    }
  }

  lemma {:induction false} LexLeTotal(a: string, b: string)
    ensures LexLe(a, b) || LexLe(b, a)
    decreases |a|
  {
    if a != [] && b != [] && a[0] == b[0] {
      LexLeTotal(a[1..], b[1..]);
    }
  }

  lemma {:induction false} LexLeTransitive(a: string, b: string, c: string)
    requires LexLe(a, b) && LexLe(b, c)
    ensures LexLe(a, c)
    decreases |a|
  {
    if a != [] && b != [] && c != [] && a[0] == b[0] && b[0] == c[0] {
      LexLeTransitive(a[1..], b[1..], c[1..]);
    }
  }

  lemma {:induction false} LexLeAntisymmetric(a: string, b: string)
    requires LexLe(a, b) && LexLe(b, a)
    ensures a == b
    decreases |a|
  {
    if a != [] && b != [] {
      LexLeAntisymmetric(a[1..], b[1..]);
      assert a == [a[0]] + a[1..];
      assert b == [b[0]] + b[1..];
    }
  }

  /** `n.toString()` for a non-negative integer. */
  function DecimalString(n: nat): (r: string)
    ensures r != []
    ensures forall c :: c in r ==> IsAsciiDigit(c)
  {
    var d := [(n % 10 + '0' as int) as char];
    if n < 10 then d else DecimalString(n / 10) + d
  }

  /** The number a string of decimal digits denotes. */
  function DigitsValue(s: string): nat
    requires forall c :: c in s ==> IsAsciiDigit(c)
    decreases |s|
  {
    if s == [] then 0
    else
      var d := s[|s| - 1];
      assert d in s && IsAsciiDigit(d);
      DigitsValue(s[..|s| - 1]) * 10 + (d as int - '0' as int)
  }

  /** Reading the digits back gives the number: `toString` loses nothing. */
  lemma {:induction false} DecimalRoundTrip(n: nat)
    ensures DigitsValue(DecimalString(n)) == n
    decreases n
  {
    var d := [(n % 10 + '0' as int) as char];
    if n >= 10 {
      DecimalRoundTrip(n / 10);
      var r := DecimalString(n / 10) + d;
      assert r[..|r| - 1] == DecimalString(n / 10);
    }
  }

  /** Different numbers have different decimal strings. */
  lemma DecimalStringInjective(m: nat, n: nat)
    ensures DecimalString(m) == DecimalString(n) ==> m == n
  {
    DecimalRoundTrip(m);
    DecimalRoundTrip(n);
  }

  /** `s.split(sep)`: the pieces between separators, empty pieces included. */
  function Split(s: string, sep: char): (r: seq<string>)
    ensures |r| >= 1
    decreases |s|
  {
    if s == [] then [[]]
    else
      var w := Split(s[..|s| - 1], sep);
      if s[|s| - 1] == sep then w + [[]]
      else w[..|w| - 1] + [w[|w| - 1] + [s[|s| - 1]]]
  }

  /** `ws.join(sep)` */
  function Join(ws: seq<string>, sep: char): string
    decreases |ws|
  {
    if ws == [] then []
    else if |ws| == 1 then ws[0]
    else Join(ws[..|ws| - 1], sep) + [sep] + ws[|ws| - 1]
  }

  /** Splitting and joining again gives the string back. */
  lemma {:induction false} SplitJoin(s: string, sep: char)
    ensures Join(Split(s, sep), sep) == s
    decreases |s|
  {
    if s != [] {
      var p := s[..|s| - 1];
      var c := s[|s| - 1];
      var w := Split(p, sep);
      SplitJoin(p, sep);
      if c == sep {
        assert (w + [[]])[..|w|] == w;
        assert s == p + [c];
      } else {
        JoinExtendLast(w, sep, c);
        assert s == p + [c];
      }
    }
  }

  /** Appending a character to the last piece appends it to the joined string. */
  lemma JoinExtendLast(w: seq<string>, sep: char, c: char)
    requires |w| >= 1
    ensures Join(w[..|w| - 1] + [w[|w| - 1] + [c]], sep) == Join(w, sep) + [c]
  {
    var n := |w|;
    var last := w[n - 1] + [c];
    var v := w[..n - 1] + [last];
    assert |v| == n && v[n - 1] == last;
    if n == 1 {
      assert v == [last];
    } else {
      assert v[..n - 1] == w[..n - 1];
      assert Join(v, sep) == Join(w[..n - 1], sep) + [sep] + last;
      assert Join(w, sep) == Join(w[..n - 1], sep) + [sep] + w[n - 1];
    }
  }

  /** No piece holds the separator. */
  lemma {:induction false} SplitNoSeparator(s: string, sep: char)
    ensures forall w :: w in Split(s, sep) ==> sep !in w
    decreases |s|
  {
    if s != [] {
      var p := s[..|s| - 1];
      var c := s[|s| - 1];
      var w := Split(p, sep);
      SplitNoSeparator(p, sep);
      if c != sep {
        var n := |w|;
        var v := w[..n - 1] + [w[n - 1] + [c]];
        assert w[n - 1] in w;
        forall x | x in v ensures sep !in x {
          if x != w[n - 1] + [c] {
            var i :| 0 <= i < n - 1 && v[i] == x;
            assert x == w[i];
          }
        }
      }
    }
  }

  /** There are at least two pieces exactly when the separator occurs. */
  lemma {:induction false} SplitCount(s: string, sep: char)
    ensures |Split(s, sep)| >= 2 <==> sep in s
    decreases |s|
  {
    if s != [] {
      var p := s[..|s| - 1];
      SplitCount(p, sep);
      assert s == p + [s[|s| - 1]];
    }
  }

  /** `w.charAt(0)`: the first character, or the empty string. */
  function FirstChar(w: string): string {
    if w == [] then [] else [w[0]]
  }

  /** Lower-casing never produces a space from anything but a space. */
  lemma LowerCharSpace(c: char)
    ensures LowerChar(c) == ' ' <==> c == ' '
  {
  }
}
