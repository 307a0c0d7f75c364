/**
 * `utils/tokenizer.py`: `tokenize_string` and the text path of
 * `TokenEncoder.compute_word_frequency`.
 *
 * The source works in three stages: rewrite each character (ASCII
 * alphanumerics kept, other ASCII characters turned into spaces, non-ASCII
 * characters deleted), split on whitespace, then keep the all-alphanumeric
 * words lowercased.  `Runs` is an independent one-pass reading of the same
 * behaviour ("the maximal runs of ASCII alphanumerics, lowercased, after
 * deleting non-ASCII characters"), and `TokenizeIsRuns` proves the two agree;
 * the algebraic laws below then characterise the tokenizer completely.
 */
module Tokenizer {
  import opened Strings
  import opened Numbers
  import Counter

  /** A token as the tokenizer emits it: non-empty, every character in `a-z0-9`. */
  predicate IsToken(w: string) {
    |w| > 0 && forall i :: 0 <= i < |w| ==> IsLowerAlnum(w[i])
  }

  predicate AllAlnum(w: string) {
    forall i :: 0 <= i < |w| ==> IsAsciiAlnum(w[i])
  }

  /** The per-character rewrite inside the join at tokenizer.py:7-10. */
  function Rewrite(c: char): string {
    if IsAsciiAlnum(c) then [c] else if IsAscii(c) then " " else ""
  }

  function Normalized(text: string): (r: string)
    ensures |r| <= |text|
  {
    if text == [] then [] else Rewrite(text[0]) + Normalized(text[1..])
  }

  /** The word under construction, emitted if non-empty. */
  function Flush(cur: string): seq<string> {
    if cur == [] then [] else [cur]
  }

  /**
   * `str.split()` without arguments: the maximal runs of non-whitespace
   * characters, in order; `cur` is the run read so far.
   */
  function WordsFrom(s: string, cur: string): seq<string>
    decreases |s|
  {
    if s == [] then Flush(cur)
    else if IsAsciiSpace(s[0]) then Flush(cur) + WordsFrom(s[1..], [])
    else WordsFrom(s[1..], cur + [s[0]])
  }

  /** The loop at tokenizer.py:12-14: keep the non-empty all-alphanumeric words, lowercased. */
  function KeepTokens(words: seq<string>): (tokens: seq<string>)
    ensures forall k :: 0 <= k < |tokens| ==> IsToken(tokens[k])
  {
    if words == [] then []
    else
      (if words[0] != [] && AllAlnum(words[0]) then [Lower(words[0])] else [])
      + KeepTokens(words[1..])
  }

  /** `tokenize_string` applied to a `str`. */
  function TokenizeString(text: string): (tokens: seq<string>)
    ensures text == [] ==> tokens == []
    ensures forall k :: 0 <= k < |tokens| ==> IsToken(tokens[k])
  {
    if text == [] then [] else KeepTokens(WordsFrom(Normalized(text), []))
  }

  /**
   * `tokenize_string` on an arbitrary argument: `None` stands for any value
   * that is not a `str` (including Python's `None`).
   */
  function Tokenize(v: Option<string>): (tokens: seq<string>)
    ensures v.None? ==> tokens == []
  {
    match v
    case None => []
    case Some(text) => TokenizeString(text)
  }

  /**
   * Reference definition: one pass over the raw text.  An ASCII alphanumeric
   * extends the current run (lowercased), any other ASCII character ends it,
   * and a non-ASCII character is skipped without ending it.
   */
  function Runs(t: string, cur: string): seq<string>
    decreases |t|
  {
    if t == [] then Flush(cur)
    else if IsAsciiAlnum(t[0]) then Runs(t[1..], cur + [LowerChar(t[0])])
    else if IsAscii(t[0]) then Flush(cur) + Runs(t[1..], [])
    else Runs(t[1..], cur)
  }

  lemma {:induction false} KeepTokensAppend(a: seq<string>, b: seq<string>)
    ensures KeepTokens(a + b) == KeepTokens(a) + KeepTokens(b)
  {
    if a == [] {
      assert a + b == b;
    } else {
      assert (a + b)[0] == a[0] && (a + b)[1..] == a[1..] + b;
      KeepTokensAppend(a[1..], b);
      var h := if a[0] != [] && AllAlnum(a[0]) then [Lower(a[0])] else [];
      assert KeepTokens(a + b) == h + KeepTokens(a[1..] + b);
      assert KeepTokens(a) == h + KeepTokens(a[1..]);
    }
  }

  lemma {:induction false} LowerSnoc(w: string, c: char)
    ensures Lower(w + [c]) == Lower(w) + [LowerChar(c)]
  {
  }

  lemma {:induction false} PipelineIsRuns(t: string, cur: string)
    requires AllAlnum(cur)
    ensures KeepTokens(WordsFrom(Normalized(t), cur)) == Runs(t, Lower(cur))
    decreases |t|
  {
    if t == [] {
      assert KeepTokens(Flush(cur)) == Flush(Lower(cur));
    } else {
      var c, rest := t[0], Normalized(t[1..]);
      assert Normalized(t) == Rewrite(c) + rest;
      if IsAsciiAlnum(c) {
        assert ([c] + rest)[0] == c && ([c] + rest)[1..] == rest;
        PipelineIsRuns(t[1..], cur + [c]);
        LowerSnoc(cur, c);
      } else if IsAscii(c) {
        assert (" " + rest)[0] == ' ' && (" " + rest)[1..] == rest;
        assert WordsFrom(Normalized(t), cur) == Flush(cur) + WordsFrom(rest, []);
        KeepTokensAppend(Flush(cur), WordsFrom(rest, []));
        assert KeepTokens(Flush(cur)) == Flush(Lower(cur));
        PipelineIsRuns(t[1..], []);
      } else {
        assert Normalized(t) == rest;
        PipelineIsRuns(t[1..], cur);
      }
    }
  }

  /** The three-stage pipeline of the source is the one-pass run reading. */
  lemma TokenizeIsRuns(t: string)
    ensures TokenizeString(t) == Runs(t, [])
  {
    PipelineIsRuns(t, []);
  }

  lemma {:induction false} RunsSeparator(x: string, sep: char, y: string, cur: string)
    requires IsAscii(sep) && !IsAsciiAlnum(sep)
    ensures Runs(x + [sep] + y, cur) == Runs(x, cur) + Runs(y, [])
    decreases |x|
  {
    AlnumIsAscii(sep);
    if x == [] {
      assert x + [sep] + y == [sep] + y;
      assert ([sep] + y)[0] == sep && ([sep] + y)[1..] == y;
    } else {
      assert (x + [sep] + y)[0] == x[0] && (x + [sep] + y)[1..] == x[1..] + [sep] + y;
      if IsAsciiAlnum(x[0]) {
        RunsSeparator(x[1..], sep, y, cur + [LowerChar(x[0])]);
      } else if IsAscii(x[0]) {
        RunsSeparator(x[1..], sep, y, []);
      } else {
        RunsSeparator(x[1..], sep, y, cur);
      }
    }
  }

  lemma {:induction false} RunsNonAscii(x: string, c: char, y: string, cur: string)
    requires !IsAscii(c)
    ensures Runs(x + [c] + y, cur) == Runs(x + y, cur)
    decreases |x|
  {
    AlnumIsAscii(c);
    if x == [] {
      assert x + [c] + y == [c] + y && x + y == y;
      assert ([c] + y)[0] == c && ([c] + y)[1..] == y;
    } else {
      assert (x + [c] + y)[0] == x[0] && (x + [c] + y)[1..] == x[1..] + [c] + y;
      assert (x + y)[0] == x[0] && (x + y)[1..] == x[1..] + y;
      if IsAsciiAlnum(x[0]) {
        RunsNonAscii(x[1..], c, y, cur + [LowerChar(x[0])]);
      } else if IsAscii(x[0]) {
        RunsNonAscii(x[1..], c, y, []);
      } else {
        RunsNonAscii(x[1..], c, y, cur);
      }
    }
  }

  /** A stretch of alphanumerics extends the current token by its lowered text. */
  lemma {:induction false} RunsOfAlnums(w: string, cur: string)
    requires AllAlnum(w)
    ensures Runs(w, cur) == Flush(cur + Lower(w))
    decreases |w|
  {
    if w == [] {
      assert cur + Lower(w) == cur;
    } else {
      AlnumIsAscii(w[0]);
      RunsOfAlnums(w[1..], cur + [LowerChar(w[0])]);
      assert cur + [LowerChar(w[0])] + Lower(w[1..]) == cur + Lower(w);
    }
  }

  lemma RunsOfWord(w: string, cur: string)
    requires |w| > 0 && AllAlnum(w)
    ensures Runs(w, cur) == [cur + Lower(w)]
  {
    RunsOfAlnums(w, cur);
  }

  /** An ASCII non-alphanumeric character separates: the text splits into two independent halves. */
  lemma SeparatorSplits(x: string, sep: char, y: string)
    requires IsAscii(sep) && !IsAsciiAlnum(sep)
    ensures TokenizeString(x + [sep] + y) == TokenizeString(x) + TokenizeString(y)
  {
    TokenizeIsRuns(x + [sep] + y);
    TokenizeIsRuns(x);
    TokenizeIsRuns(y);
    RunsSeparator(x, sep, y, []);
  }

  /** A non-ASCII character is deleted and does not separate: its neighbours join. */
  lemma NonAsciiIsDeleted(x: string, c: char, y: string)
    requires !IsAscii(c)
    ensures TokenizeString(x + [c] + y) == TokenizeString(x + y)
  {
    TokenizeIsRuns(x + [c] + y);
    TokenizeIsRuns(x + y);
    RunsNonAscii(x, c, y, []);
  }

  /** A non-empty run of ASCII alphanumerics is one token, lowercased. */
  lemma WordIsOneToken(w: string)
    requires |w| > 0 && AllAlnum(w)
    ensures TokenizeString(w) == [Lower(w)]
  {
    TokenizeIsRuns(w);
    RunsOfWord(w, []);
    assert [] + Lower(w) == Lower(w);
  }

  /** `' '.join(tokens)` */
  function JoinSpace(tokens: seq<string>): string {
    if tokens == [] then []
    else if |tokens| == 1 then tokens[0]
    else tokens[0] + " " + JoinSpace(tokens[1..])
  }

  lemma {:induction false} RetokenizeTokens(tokens: seq<string>)
    requires forall k :: 0 <= k < |tokens| ==> IsToken(tokens[k])
    ensures TokenizeString(JoinSpace(tokens)) == tokens
  {
    if tokens != [] {
      var w := tokens[0];
      assert AllAlnum(w) by {
        forall i | 0 <= i < |w| ensures IsAsciiAlnum(w[i]) { assert IsLowerAlnum(w[i]); }
      }
      assert Lower(w) == w;
      WordIsOneToken(w);
      if |tokens| > 1 {
        RetokenizeTokens(tokens[1..]);
        assert JoinSpace(tokens) == w + [' '] + JoinSpace(tokens[1..]);
        SeparatorSplits(w, ' ', JoinSpace(tokens[1..]));
      }
    }
  }

  /** Re-tokenising the space-joined token list gives the same list back. */
  lemma TokenizeFixedPoint(text: string)
    ensures TokenizeString(JoinSpace(TokenizeString(text))) == TokenizeString(text)
  {
    RetokenizeTokens(TokenizeString(text));
  }

  /** All tokens glued together. */
  function Concat(tokens: seq<string>): string {
    if tokens == [] then [] else tokens[0] + Concat(tokens[1..])
  }

  /** The ASCII alphanumeric characters of `t`, lowercased, in order. */
  function LowerAlnum(t: string): (r: string)
    ensures |r| <= |t|
  {
    if t == [] then []
    else (if IsAsciiAlnum(t[0]) then [LowerChar(t[0])] else []) + LowerAlnum(t[1..])
  }

  lemma {:induction false} ConcatAppend(a: seq<string>, b: seq<string>)
    ensures Concat(a + b) == Concat(a) + Concat(b)
  {
    if a == [] {
      assert a + b == b;
    } else {
      assert (a + b)[0] == a[0] && (a + b)[1..] == a[1..] + b;
      ConcatAppend(a[1..], b);
      assert Concat(a + b) == a[0] + Concat(a[1..] + b);
    }
  }

  lemma {:induction false} RunsContent(t: string, cur: string)
    ensures Concat(Runs(t, cur)) == cur + LowerAlnum(t)
    decreases |t|
  {
    if t != [] {
      var c := t[0];
      if IsAsciiAlnum(c) {
        RunsContent(t[1..], cur + [LowerChar(c)]);
        assert cur + [LowerChar(c)] + LowerAlnum(t[1..]) == cur + ([LowerChar(c)] + LowerAlnum(t[1..]));
      } else if IsAscii(c) {
        RunsContent(t[1..], []);
        ConcatAppend(Flush(cur), Runs(t[1..], []));
        assert Concat(Flush(cur)) == cur;
      } else {
        RunsContent(t[1..], cur);
      }
    }
  }

  /** The tokens, glued together, are exactly the text's ASCII alphanumerics, lowercased. */
  lemma TokensSpellAlnumChars(text: string)
    ensures Concat(TokenizeString(text)) == LowerAlnum(text)
    ensures |Concat(TokenizeString(text))| <= |text|
  {
    TokenizeIsRuns(text);
    RunsContent(text, []);
  }

  /**
   * `TokenEncoder(text=v).compute_word_frequency()`: the tokens counted; the
   * `if self._text` guard sends a missing or empty text to the empty list.
   */
  function WordFrequency(v: Option<string>): (freq: Counter.Counts)
    ensures var tokens := Tokenize(v);
      && (forall w :: Counter.Get(freq, w) == multiset(tokens)[w])
      && Counter.Total(freq) == |tokens|
      && (forall w :: w in Counter.Keys(freq) <==> w in tokens)
      && Counter.AllPositive(freq)
  {
    Counter.Of(if v.Some? && v.value != [] then TokenizeString(v.value) else [])
  }
}
