/** The parts of Rust's string library that `Mesh::load` relies on:
    `char::is_whitespace`, `str::trim` and `str::split_whitespace`. */
module Text {

  /** `char::is_whitespace`: the characters with the Unicode White_Space property. */
  predicate IsWhitespace(c: char)
  {
    || c == ' ' || c == '\t' || c == '\n' || c == '\r'
    || c == '\U{000B}' || c == '\U{000C}' || c == '\U{0085}' || c == '\U{00A0}'
    || c == '\U{1680}' || ('\U{2000}' <= c <= '\U{200A}')
    || c == '\U{2028}' || c == '\U{2029}' || c == '\U{202F}' || c == '\U{205F}'
    || c == '\U{3000}'
  }

  /** `trim_start`: drop the leading whitespace. */
  function TrimStart(s: string): string
    decreases |s|
  {
    if s != [] && IsWhitespace(s[0]) then TrimStart(s[1..]) else s
  }

  /** `trim_start` drops exactly the leading run of whitespace: what is left
      is a suffix that is empty or starts with a non-whitespace character. */
  lemma {:induction false} TrimStartDropsLeadingWhitespace(s: string)
    ensures var r := TrimStart(s);
            && |r| <= |s| && r == s[|s| - |r|..]
            && (forall k | 0 <= k < |s| - |r| :: IsWhitespace(s[k]))
            && (r == [] || !IsWhitespace(r[0]))
    decreases |s|
  {
    if s != [] && IsWhitespace(s[0]) {
      TrimStartDropsLeadingWhitespace(s[1..]);
    }
  }

  /** `trim_end`: drop the trailing whitespace. */
  function TrimEnd(s: string): string
    decreases |s|
  {
    if s != [] && IsWhitespace(s[|s| - 1]) then TrimEnd(s[..|s| - 1]) else s
  }

  /** `trim_end` drops exactly the trailing run of whitespace. */
  lemma {:induction false} TrimEndDropsTrailingWhitespace(s: string)
    ensures var r := TrimEnd(s);
            && |r| <= |s| && r == s[..|r|]
            && (forall k | |r| <= k < |s| :: IsWhitespace(s[k]))
            && (r == [] || !IsWhitespace(r[|r| - 1]))
    decreases |s|
  {
    if s != [] && IsWhitespace(s[|s| - 1]) {
      TrimEndDropsTrailingWhitespace(s[..|s| - 1]);
    }
  }

  /** `str::trim`. */
  function Trim(s: string): string
  {
    TrimEnd(TrimStart(s))
  }

  /** `trim` keeps a slice of the line that neither starts nor ends with
      whitespace and drops only whitespace around it. */
  lemma TrimKeepsInnerSlice(s: string)
    ensures exists i, j | 0 <= i <= j <= |s| ::
              && Trim(s) == s[i..j]
              && (forall k | 0 <= k < i :: IsWhitespace(s[k]))
              && (forall k | j <= k < |s| :: IsWhitespace(s[k]))
    ensures Trim(s) == [] || (!IsWhitespace(Trim(s)[0]) && !IsWhitespace(Trim(s)[|Trim(s)| - 1]))
  {
    var front := TrimStart(s);
    TrimStartDropsLeadingWhitespace(s);
    TrimEndDropsTrailingWhitespace(front);
    var i := |s| - |front|;
    var j := i + |TrimEnd(front)|;
    assert Trim(s) == s[i..j];
  }

  /** The length of the word at the start of `s`: its longest prefix without whitespace. */
  function WordLength(s: string): (n: nat)
    ensures n <= |s|
    decreases |s|
  {
    if s == [] || IsWhitespace(s[0]) then 0 else 1 + WordLength(s[1..])
  }

  lemma {:induction false} WordLengthIsMaximal(s: string)
    ensures var n := WordLength(s);
            && (forall k | 0 <= k < n :: !IsWhitespace(s[k]))
            && (n == |s| || IsWhitespace(s[n]))
    decreases |s|
  {
    if s != [] && !IsWhitespace(s[0]) {
      WordLengthIsMaximal(s[1..]);
    }
  }

  /** `str::split_whitespace`: the maximal runs of non-whitespace, in order. */
  function SplitWhitespace(s: string): seq<string>
    decreases |s|
  {
    if s == [] then []
    else if IsWhitespace(s[0]) then SplitWhitespace(s[1..])
    else
      var n := WordLength(s);
      [s[..n]] + SplitWhitespace(s[n..])
  }

  /** The characters of `s` that are not whitespace, in order. */
  function NonWhitespace(s: string): string
    decreases |s|
  {
    if s == [] then []
    else (if IsWhitespace(s[0]) then [] else [s[0]]) + NonWhitespace(s[1..])
  }

  function Concat(words: seq<string>): string
    decreases |words|
  {
    if words == [] then [] else words[0] + Concat(words[1..])
  }

  lemma {:induction false} NonWhitespaceAppend(a: string, b: string)
    ensures NonWhitespace(a + b) == NonWhitespace(a) + NonWhitespace(b)
    decreases |a|
  {
    if a != [] {
      assert (a + b)[1..] == a[1..] + b;
      NonWhitespaceAppend(a[1..], b);
    } else {
      assert a + b == b;
    }
  }

  lemma {:induction false} NonWhitespaceOfWord(s: string)
    requires forall k | 0 <= k < |s| :: !IsWhitespace(s[k])
    ensures NonWhitespace(s) == s
    decreases |s|
  {
    if s != [] {
      NonWhitespaceOfWord(s[1..]);
    }
  }

  /** `split_whitespace` yields non-empty words without whitespace. */
  lemma {:induction false} SplitWhitespaceYieldsWords(s: string)
    ensures forall w | w in SplitWhitespace(s) :: w != [] && forall k | 0 <= k < |w| :: !IsWhitespace(w[k])
    decreases |s|
  {
    if s != [] {
      if IsWhitespace(s[0]) {
        SplitWhitespaceYieldsWords(s[1..]);
      } else {
        var n := WordLength(s);
        WordLengthIsMaximal(s);
        SplitWhitespaceYieldsWords(s[n..]);
        assert SplitWhitespace(s) == [s[..n]] + SplitWhitespace(s[n..]);
      }
    }
  }

  lemma NonWhitespaceOfWordAndTail(rest: string, n: nat)
    requires n <= |rest|
    requires forall k | 0 <= k < n :: !IsWhitespace(rest[k])
    ensures NonWhitespace(rest) == rest[..n] + NonWhitespace(rest[n..])
  {
    assert rest == rest[..n] + rest[n..];
    NonWhitespaceAppend(rest[..n], rest[n..]);
    NonWhitespaceOfWord(rest[..n]);
  }

  /** `split_whitespace` loses nothing but whitespace: joined, its words are
      the non-whitespace characters of the line, in order. */
  lemma {:induction false} SplitWhitespaceKeepsText(s: string)
    ensures Concat(SplitWhitespace(s)) == NonWhitespace(s)
    decreases |s|
  {
    if s != [] {
      if IsWhitespace(s[0]) {
        SplitWhitespaceKeepsText(s[1..]);
      } else {
        var n := WordLength(s);
        WordLengthIsMaximal(s);
        SplitWhitespaceKeepsText(s[n..]);
        NonWhitespaceOfWordAndTail(s, n);
        var words := SplitWhitespace(s);
        assert words == [s[..n]] + SplitWhitespace(s[n..]);
        assert words[1..] == SplitWhitespace(s[n..]);
      }
    }
  }

  /** A word: a non-empty run of characters none of which is whitespace. */
  predicate IsWord(w: string)
  {
    w != [] && forall k | 0 <= k < |w| :: !IsWhitespace(w[k])
  }

  /** A word followed by the end of the line or by whitespace is read whole. */
  lemma {:induction false} WordLengthOfWord(w: string, s: string)
    requires forall k | 0 <= k < |w| :: !IsWhitespace(w[k])
    requires s == [] || IsWhitespace(s[0])
    ensures WordLength(w + s) == |w|
    decreases |w|
  {
    if w == [] {
      assert w + s == s;
    } else {
      assert (w + s)[0] == w[0];
      assert (w + s)[1..] == w[1..] + s;
      WordLengthOfWord(w[1..], s);
    }
  }

  /** `split_whitespace` skips a whitespace character. */
  lemma SplitWhitespaceSkipsWhitespace(c: char, s: string)
    requires IsWhitespace(c)
    ensures SplitWhitespace([c] + s) == SplitWhitespace(s)
  {
    assert ([c] + s)[1..] == s;
  }

  /** A word followed by the end of the line or by whitespace is the next
      item of `split_whitespace`, whole: words are maximal runs. */
  lemma SplitWhitespaceTakesWholeWord(w: string, s: string)
    requires IsWord(w)
    requires s == [] || IsWhitespace(s[0])
    ensures SplitWhitespace(w + s) == [w] + SplitWhitespace(s)
  {
    WordLengthOfWord(w, s);
    var line := w + s;
    assert line[0] == w[0];
    assert line[..|w|] == w;
    assert line[|w|..] == s;
  }

  /** A line of blanks has no words. */
  lemma {:induction false} SplitWhitespaceOfBlank(s: string)
    requires forall k | 0 <= k < |s| :: IsWhitespace(s[k])
    ensures SplitWhitespace(s) == []
    decreases |s|
  {
    if s != [] {
      SplitWhitespaceOfBlank(s[1..]);
    }
  }

  /** A word and then a whitespace character: the word is the next item. */
  lemma SplitWordThenBlank(w: string, c: char, s: string)
    requires IsWord(w) && IsWhitespace(c)
    ensures SplitWhitespace(w + ([c] + s)) == [w] + SplitWhitespace(s)
  {
    SplitWhitespaceTakesWholeWord(w, [c] + s);
    SplitWhitespaceSkipsWhitespace(c, s);
  }

  /** Three words separated by single whitespace characters are the first
      three items, whatever follows a whitespace character after them. */
  lemma SplitThreeWords(w0: string, c0: char, w1: string, c1: char, w2: string, rest: string)
    requires IsWord(w0) && IsWord(w1) && IsWord(w2)
    requires IsWhitespace(c0) && IsWhitespace(c1)
    requires rest == [] || IsWhitespace(rest[0])
    ensures SplitWhitespace(w0 + ([c0] + (w1 + ([c1] + (w2 + rest))))) == [w0, w1, w2] + SplitWhitespace(rest)
  {
    var after := SplitWhitespace(rest);
    assert [w0] + ([w1] + ([w2] + after)) == [w0, w1, w2] + after;
    SplitWhitespaceTakesWholeWord(w2, rest);
    SplitWordThenBlank(w1, c1, w2 + rest);
    SplitWordThenBlank(w0, c0, w1 + ([c1] + (w2 + rest)));
  }
}
