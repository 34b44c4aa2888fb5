/**
 * The build-time canonicalizer and the first/last letter extraction of the dataset compiler.
 * The same function is written out in the countries build, the cities build and the
 * countries query layer; it is modelled once here.
 */
module Canon {
  import opened Wrappers
  import opened Text

  /**
   * Canonical decomposition (NFD) of the Latin-1 precomposed lower-case letters into a base
   * letter and a combining mark. Characters without an entry decompose to themselves.
   */
  const LatinDecomposition: map<char, (char, char)> := map[
    '\U{E0}' := ('a', '\U{300}'), '\U{E1}' := ('a', '\U{301}'), '\U{E2}' := ('a', '\U{302}'),
    '\U{E3}' := ('a', '\U{303}'), '\U{E4}' := ('a', '\U{308}'), '\U{E5}' := ('a', '\U{30A}'),
    '\U{E7}' := ('c', '\U{327}'),
    '\U{E8}' := ('e', '\U{300}'), '\U{E9}' := ('e', '\U{301}'), '\U{EA}' := ('e', '\U{302}'),
    '\U{EB}' := ('e', '\U{308}'),
    '\U{EC}' := ('i', '\U{300}'), '\U{ED}' := ('i', '\U{301}'), '\U{EE}' := ('i', '\U{302}'),
    '\U{EF}' := ('i', '\U{308}'),
    '\U{F1}' := ('n', '\U{303}'),
    '\U{F2}' := ('o', '\U{300}'), '\U{F3}' := ('o', '\U{301}'), '\U{F4}' := ('o', '\U{302}'),
    '\U{F5}' := ('o', '\U{303}'), '\U{F6}' := ('o', '\U{308}'),
    '\U{F9}' := ('u', '\U{300}'), '\U{FA}' := ('u', '\U{301}'), '\U{FB}' := ('u', '\U{302}'),
    '\U{FC}' := ('u', '\U{308}'),
    '\U{FD}' := ('y', '\U{301}'), '\U{FF}' := ('y', '\U{308}')
  ]

  /** NFD of one character; the identity on ASCII and on whitespace. */
  function Decompose(c: char): (d: string)
    ensures 1 <= |d| <= 2
    ensures forall x :: x in d ==> x == c || IsAsciiLetter(x) || IsCombiningMark(x)
    ensures c < '\U{80}' || IsWhitespace(c) ==> d == [c]
  {
    if c in LatinDecomposition then [LatinDecomposition[c].0, LatinDecomposition[c].1] else [c]
  }

  /** `s.normalize('NFD')`, one character at a time. */
  function Nfd(s: string): (r: string)
    ensures forall x :: x in r ==> x in s || IsAsciiLetter(x) || IsCombiningMark(x)
  {
    if s == [] then [] else Decompose(s[0]) + Nfd(s[1..])
  }

  predicate NotMark(c: char) { !IsCombiningMark(c) }

  /** `.replace(/[̀-ͯ]/g, '')` followed by `.replace(/[^a-z]/g, '')`, after NFD. */
  function Letters(s: string): (r: string)
  {
    Filter(IsAsciiLetter, Filter(NotMark, Nfd(s)))
  }

  /** A canonical key: nothing but the letters `a`-`z`. */
  predicate IsKey(s: string) { forall c :: c in s ==> IsAsciiLetter(c) }

  const Article: string := "the "

  /** `lower.startsWith('the ') ? lower.slice(4) : lower` */
  function StripArticle(s: string): (r: string)
  {
    if StartsWith(s, Article) then s[|Article|..] else s
  }

  /**
   * The build canonicalizer: empty input gives the empty key; otherwise lower-case, trim,
   * drop one leading "the ", decompose, drop combining marks and keep only `a`-`z`.
   */
  function Canonicalize(raw: string): (key: string)
    ensures IsKey(key)
    ensures raw == [] ==> key == []
  {
    if raw == [] then [] else Letters(StripArticle(Trim(Lower(raw))))
  }

  /** `canonical.match(/[a-z]/)`: the first letter `a`-`z` of `s`, if any. */
  function FirstLetter(s: string): Option<char>
    decreases |s|
  {
    if s == [] then None
    else if IsAsciiLetter(s[0]) then Some(s[0])
    else FirstLetter(s[1..])
  }

  /** `FirstLetter` finds the leftmost letter, and finds none exactly when there is none. */
  lemma {:induction false} FirstLetterSpec(s: string)
    ensures FirstLetter(s).None? <==> forall i :: 0 <= i < |s| ==> !IsAsciiLetter(s[i])
    ensures FirstLetter(s).Some? ==>
              exists i :: 0 <= i < |s| && s[i] == FirstLetter(s).value && IsAsciiLetter(s[i])
                          && forall j :: 0 <= j < i ==> !IsAsciiLetter(s[j])
    decreases |s|
  {
    if s != [] && !IsAsciiLetter(s[0]) {
      FirstLetterSpec(s[1..]);
      assert forall i :: 1 <= i < |s| ==> s[i] == s[1..][i - 1];
      if FirstLetter(s).Some? {
        var i :| 0 <= i < |s[1..]| && s[1..][i] == FirstLetter(s).value && IsAsciiLetter(s[1..][i])
                 && forall j :: 0 <= j < i ==> !IsAsciiLetter(s[1..][j]);
        assert s[i + 1] == FirstLetter(s).value;
        assert forall j :: 0 <= j < i + 1 ==> !IsAsciiLetter(s[j]) by {
          forall j | 0 <= j < i + 1 ensures !IsAsciiLetter(s[j]) {
            if j > 0 {
              assert s[j] == s[1..][j - 1];
            }
          }
        }
      }
    }
  }

  /**
   * `canonical.match(/[a-z](?=[^a-z]*$)/)`: the letter `a`-`z` followed only by non-letters,
   * that is the last letter of `s`, if any. The game pages use the same expression.
   */
  function LastLetter(s: string): Option<char>
    decreases |s|
  {
    if s == [] then None
    else if IsAsciiLetter(s[|s| - 1]) then Some(s[|s| - 1])
    else LastLetter(s[..|s| - 1])
  }

  /** `LastLetter` finds the rightmost letter, and finds none exactly when there is none. */
  lemma {:induction false} LastLetterSpec(s: string)
    ensures LastLetter(s).None? <==> forall i :: 0 <= i < |s| ==> !IsAsciiLetter(s[i])
    ensures LastLetter(s).Some? ==>
              exists i :: 0 <= i < |s| && s[i] == LastLetter(s).value && IsAsciiLetter(s[i])
                          && forall j :: i < j < |s| ==> !IsAsciiLetter(s[j])
    decreases |s|
  {
    if s != [] && !IsAsciiLetter(s[|s| - 1]) {
      var p := s[..|s| - 1];
      LastLetterSpec(p);
      assert forall i :: 0 <= i < |p| ==> s[i] == p[i];
      if LastLetter(s).Some? {
        var i :| 0 <= i < |p| && p[i] == LastLetter(s).value && IsAsciiLetter(p[i])
                 && forall j :: i < j < |p| ==> !IsAsciiLetter(p[j]);
        assert s[i] == p[i];
      }
    }
  }

  lemma {:induction false} NfdConcat(a: string, b: string)
    ensures Nfd(a + b) == Nfd(a) + Nfd(b)
  {
    if a == [] {
      assert a + b == b;
    } else {
      assert (a + b)[0] == a[0];
      assert (a + b)[1..] == a[1..] + b;
      NfdConcat(a[1..], b);
    }
  }

  lemma LettersConcat(a: string, b: string)
    ensures Letters(a + b) == Letters(a) + Letters(b)
  {
    NfdConcat(a, b);
    FilterConcat(NotMark, Nfd(a), Nfd(b));
    FilterConcat(IsAsciiLetter, Filter(NotMark, Nfd(a)), Filter(NotMark, Nfd(b)));
  }

  lemma {:induction false} NfdIdentity(s: string)
    requires forall c :: c in s ==> c < '\U{80}' || IsWhitespace(c)
    ensures Nfd(s) == s
  {
    if s != [] {
      assert forall c :: c in s[1..] ==> c in s;
      NfdIdentity(s[1..]);
      assert s == [s[0]] + s[1..];
    }
  }

  /** A key passes through the letter filter unchanged. */
  lemma LettersOfKey(k: string)
    requires IsKey(k)
    ensures Letters(k) == k
  {
    NfdIdentity(k);
    FilterKeepsAll(NotMark, k);
    FilterKeepsAll(IsAsciiLetter, k);
  }

  /** Whitespace contributes nothing to a key. */
  lemma LettersOfWhitespace(w: string)
    requires AllWhitespace(w)
    ensures Letters(w) == []
  {
    assert forall c :: c in w ==> IsWhitespace(c);
    NfdIdentity(w);
    forall c | c in w
      ensures NotMark(c) && !IsAsciiLetter(c)
    {
      WhitespaceIsNoLetter(c);
    }
    FilterKeepsAll(NotMark, w);
    FilterDropsAll(IsAsciiLetter, w);
  }

  lemma WhitespaceIsNoLetter(c: char)
    requires IsWhitespace(c)
    ensures !IsCombiningMark(c) && !IsAsciiLetter(c)
  {
  }

  /** Trimming never changes the letters of a string. */
  lemma LettersIgnoreTrim(s: string)
    ensures Letters(Trim(s)) == Letters(s)
  {
    var p, q := TrimSplits(s);
    LettersConcat(p + Trim(s), q);
    LettersConcat(p, Trim(s));
    LettersOfWhitespace(p);
    LettersOfWhitespace(q);
  }

  /** A key canonicalizes to itself. */
  lemma CanonicalizeKey(k: string)
    requires IsKey(k)
    ensures Canonicalize(k) == k
  {
    if k != [] {
      LowerOfLowercase(k);
      assert Lower(k) == k;
      assert forall c :: c in k ==> !IsWhitespace(c) by {
        forall c | c in k ensures !IsWhitespace(c) {
          assert IsAsciiLetter(c);
        }
      }
      TrimNoWhitespace(k);
      assert Trim(k) == k;
      if |k| >= |Article| {
        assert k[3] in k;
      }
      assert !StartsWith(k, Article);
      assert StripArticle(k) == k;
      LettersOfKey(k);
    }
  }

  /** Canonicalization is idempotent. */
  lemma CanonicalizeIdempotent(raw: string)
    ensures Canonicalize(Canonicalize(raw)) == Canonicalize(raw)
  {
    CanonicalizeKey(Canonicalize(raw));
  }

  lemma LowerWithArticle(x: string)
    ensures Lower("The " + x) == Article + Lower(x)
  {
    LowerConcat("The ", x);
    assert Lower("The ") == Article;
  }

  /** Trimming "the " + s keeps the article; only trailing whitespace goes. */
  lemma TrimAfterArticle(s: string, n: nat)
    requires n == TrailingSpace(Article + s) && n < |s|
    ensures Trim(Article + s) == Article + s[..|s| - n]
  {
    var t := Article + s;
    assert t[0] == 't';
    assert LeadingSpace(t) == 0;
    assert t[0..] == t;
    assert t[..|t| - n] == Article + s[..|s| - n];
  }

  /** Without a leading article, the key is just the letters of the lower-cased input. */
  lemma CanonicalizeNoArticle(x: string)
    requires x != []
    requires !StartsWith(Trim(Lower(x)), Article)
    ensures Canonicalize(x) == Letters(Lower(x))
  {
    assert StripArticle(Trim(Lower(x))) == Trim(Lower(x));
    LettersIgnoreTrim(Lower(x));
  }

  /** `StripArticle` removes exactly one leading "the ". */
  lemma StripArticleOnce(body: string)
    ensures StripArticle(Article + body) == body
  {
    assert (Article + body)[..|Article|] == Article;
    assert (Article + body)[|Article|..] == body;
  }

  /** Trimming the lower-cased "The " + x keeps the article and x's leading spaces. */
  lemma TrimWithArticle(x: string, n: nat)
    requires n == TrailingSpace(Lower(x)) && n < |Lower(x)|
    ensures Trim(Lower("The " + x)) == Article + Lower(x)[..|Lower(x)| - n]
  {
    LowerWithArticle(x);
    TrailingSpaceConcat(Article, Lower(x));
    TrimAfterArticle(Lower(x), n);
  }

  /** The key of a non-empty input is the letters of its stripped, trimmed, lower-cased form. */
  lemma CanonicalizeOf(raw: string, t: string)
    requires raw != [] && StripArticle(Trim(Lower(raw))) == t
    ensures Canonicalize(raw) == Letters(t)
  {
  }

  /** The trailing whitespace run of `s` is whitespace. */
  lemma TrailingRunIsWhitespace(s: string, n: nat)
    requires n == TrailingSpace(s)
    ensures AllWhitespace(s[|s| - n..])
  {
    TrailingSpaceIsMaximal(s);
    var tail := s[|s| - n..];
    assert forall i :: 0 <= i < |tail| ==> tail[i] == s[|s| - n + i];
  }

  /** Dropping trailing whitespace keeps the letters. */
  lemma LettersDropTrailing(s: string, n: nat)
    requires n == TrailingSpace(s)
    ensures Letters(s[..|s| - n]) == Letters(s)
  {
    var body, tail := s[..|s| - n], s[|s| - n..];
    assert s == body + tail;
    LettersConcat(body, tail);
    TrailingRunIsWhitespace(s, n);
    LettersOfWhitespace(tail);
  }

  /** With "The " in front, the key is the letters of the lower-cased rest. */
  lemma CanonicalizeArticleLetters(x: string, n: nat)
    requires n == TrailingSpace(Lower(x)) && n < |Lower(x)|
    ensures Canonicalize("The " + x) == Letters(Lower(x))
  {
    var body := Lower(x)[..|Lower(x)| - n];
    TrimWithArticle(x, n);
    StripArticleOnce(body);
    CanonicalizeOf("The " + x, body);
    LettersDropTrailing(Lower(x), n);
  }

  /**
   * A leading article is ignored: "The X" and "X" give the same key, provided the trimmed,
   * lower-cased X is not empty and does not itself start with "the " (only one article is dropped).
   */
  lemma CanonicalizeDropsArticle(x: string)
    requires Trim(Lower(x)) != []
    requires !StartsWith(Trim(Lower(x)), Article)
    ensures Canonicalize("The " + x) == Canonicalize(x)
  {
    TrailingSpaceShort(Lower(x));
    CanonicalizeArticleLetters(x, TrailingSpace(Lower(x)));
    CanonicalizeNoArticle(x);
  }

  /** On a key, the first and last letters are its first and last characters, and absent iff it is empty. */
  lemma KeyLetters(k: string)
    requires IsKey(k)
    ensures FirstLetter(k).None? <==> k == []
    ensures LastLetter(k).None? <==> k == []
    ensures k != [] ==> FirstLetter(k) == Some(k[0]) && LastLetter(k) == Some(k[|k| - 1])
  {
    if k != [] {
      assert IsAsciiLetter(k[0]);
      assert IsAsciiLetter(k[|k| - 1]);
    }
  }
}
