/**
 * Character classes and string helpers shared by the crawler model.
 *
 * Every character predicate is the ASCII reading of the corresponding Python
 * predicate (`str.isdigit`, `str.isalnum`, regex `\w` and `\d`, `str.lower`);
 * the model assumes URL components and page text are judged by their ASCII
 * characters only.  Substring and prefix tests are written as index-based
 * recursions so that they can be unfolded on concrete strings, and each comes
 * with a lemma relating it to the slice formulation.
 */
module Strings {

  predicate IsAscii(c: char) { c as int < 128 }

  predicate IsDigit(c: char) { '0' <= c <= '9' }

  predicate IsAsciiLetter(c: char) { 'a' <= c <= 'z' || 'A' <= c <= 'Z' }

  /** `str.isalnum` restricted to ASCII. */
  predicate IsAsciiAlnum(c: char) { IsDigit(c) || IsAsciiLetter(c) }

  /** Regex `\w` restricted to ASCII. */
  predicate IsWordChar(c: char) { IsAsciiAlnum(c) || c == '_' }

  /** The ASCII characters for which `str.isspace` holds. */
  predicate IsAsciiSpace(c: char) {
    c == ' ' || 9 <= c as int <= 13 || 28 <= c as int <= 31
  }

  lemma AlnumIsAscii(c: char)
    ensures IsAsciiAlnum(c) ==> IsAscii(c)
  {
  }

  /** A character in `a-z0-9`: what the tokenizer emits. */
  predicate IsLowerAlnum(c: char) { IsDigit(c) || 'a' <= c <= 'z' }

  function LowerChar(c: char): (r: char)
    ensures IsAsciiLetter(c) ==> 'a' <= r <= 'z'
    ensures !IsAsciiLetter(c) ==> r == c
    ensures IsAsciiAlnum(c) <==> IsAsciiAlnum(r)
    ensures IsAscii(c) <==> IsAscii(r)
    ensures IsAsciiAlnum(c) ==> IsLowerAlnum(r)
  {
    if 'A' <= c <= 'Z' then (c as int + 32) as char else c
  }

  /** `str.lower` on ASCII letters; every other character is left alone. */
  function Lower(s: string): (r: string)
    ensures |r| == |s|
    ensures forall i :: 0 <= i < |s| ==> r[i] == LowerChar(s[i])
    decreases |s|
  {
    if s == [] then [] else [LowerChar(s[0])] + Lower(s[1..])
  }

  lemma LowerAppend(a: string, b: string)
    ensures Lower(a + b) == Lower(a) + Lower(b)
  {
    forall i | 0 <= i < |a + b| ensures Lower(a + b)[i] == (Lower(a) + Lower(b))[i] {
      if i < |a| {
        assert (a + b)[i] == a[i];
      } else {
        assert (a + b)[i] == b[i - |a|];
      }
    }
  }

  lemma LowerIdempotent(s: string)
    ensures Lower(Lower(s)) == Lower(s)
  {
  }

  /** Lowering commutes with splitting at a separator that is not a letter. */
  lemma {:induction false} SplitLower(s: string, sep: char)
    requires !IsAsciiLetter(sep)
    ensures Split(Lower(s), sep) == LowerAll(Split(s, sep))
  {
    if s != [] {
      SplitLower(s[1..], sep);
      assert Lower(s)[1..] == Lower(s[1..]);
      var rest := Split(s[1..], sep);
      if s[0] != sep {
        assert Lower([s[0]] + rest[0]) == [LowerChar(s[0])] + Lower(rest[0]);
        assert LowerAll([[s[0]] + rest[0]] + rest[1..])[1..] == LowerAll(rest[1..]);
        assert LowerAll(rest)[1..] == LowerAll(rest[1..]);
      } else {
        assert LowerAll([[]] + rest)[1..] == LowerAll(rest);
      }
    }
  }

  /** `p` occurs in `s` starting at index `i`. */
  predicate StartsAt(s: string, p: string, i: nat)
    decreases |p|
  {
    i <= |s| && (|p| == 0 || (i < |s| && s[i] == p[0] && StartsAt(s, p[1..], i + 1)))
  }

  lemma {:induction false} StartsAtIff(s: string, p: string, i: nat)
    ensures StartsAt(s, p, i) <==> i + |p| <= |s| && s[i..i + |p|] == p
    decreases |p|
  {
    if |p| > 0 {
      StartsAtIff(s, p[1..], i + 1);
      if StartsAt(s, p, i) {
        assert s[i..i + |p|] == [s[i]] + s[i + 1..i + |p|];
        assert p == [p[0]] + p[1..];
      }
      if i + |p| <= |s| && s[i..i + |p|] == p {
        assert s[i] == s[i..i + |p|][0];
        assert s[i + 1..i + |p|] == s[i..i + |p|][1..];
        assert s[i + 1..i + 1 + |p[1..]|] == p[1..];
      }
    }
  }

  lemma StartsAtConcat(x: string, p: string, y: string)
    ensures StartsAt(x + p + y, p, |x|)
  {
    StartsAtIff(x + p + y, p, |x|);
    assert (x + p + y)[|x|..|x| + |p|] == p;
  }

  /** An occurrence of `p + q` is an occurrence of `p` followed by one of `q`. */
  lemma StartsAtSplit(s: string, p: string, q: string, i: nat)
    requires StartsAt(s, p + q, i)
    ensures StartsAt(s, p, i) && StartsAt(s, q, i + |p|)
  {
    StartsAtIff(s, p + q, i);
    StartsAtIff(s, p, i);
    StartsAtIff(s, q, i + |p|);
    assert s[i..i + |p|] == (p + q)[..|p|];
    assert s[i + |p|..i + |p| + |q|] == (p + q)[|p|..];
  }

  predicate StartsWith(s: string, p: string) { StartsAt(s, p, 0) }

  predicate EndsWith(s: string, p: string) { |p| <= |s| && StartsAt(s, p, |s| - |p|) }

  /** Some occurrence of `sub` in `s` starts at an index `>= i`. */
  predicate ContainsFrom(s: string, sub: string, i: nat)
    decreases |s| - i
  {
    i + |sub| <= |s| && (StartsAt(s, sub, i) || ContainsFrom(s, sub, i + 1))
  }

  /** Python's `sub in s`. */
  predicate Contains(s: string, sub: string) { ContainsFrom(s, sub, 0) }

  /** An occurrence at `j >= i` is found by the scan from `i`. */
  lemma {:induction false} ContainsFromWitness(s: string, sub: string, i: nat, j: nat)
    requires i <= j && j + |sub| <= |s| && StartsAt(s, sub, j)
    ensures ContainsFrom(s, sub, i)
    decreases j - i
  {
    if i < j {
      ContainsFromWitness(s, sub, i + 1, j);
    }
  }

  /** The scan from `i` only succeeds on an occurrence at some `j >= i`. */
  lemma {:induction false} ContainsFromSound(s: string, sub: string, i: nat) returns (j: nat)
    requires ContainsFrom(s, sub, i)
    ensures i <= j && j + |sub| <= |s| && StartsAt(s, sub, j)
    decreases |s| - i
  {
    if StartsAt(s, sub, i) {
      j := i;
    } else {
      j := ContainsFromSound(s, sub, i + 1);
    }
  }

  /** The slice reading of `sub in s`. */
  lemma ContainsIff(s: string, sub: string)
    ensures Contains(s, sub) ==> exists j: nat :: j + |sub| <= |s| && StartsAt(s, sub, j)
    ensures (exists j: nat :: j + |sub| <= |s| && StartsAt(s, sub, j)) ==> Contains(s, sub)
  {
    if Contains(s, sub) {
      var j := ContainsFromSound(s, sub, 0);
      assert j + |sub| <= |s| && StartsAt(s, sub, j);
    } else {
      forall j: nat | j + |sub| <= |s| && StartsAt(s, sub, j)
        ensures false
      {
        ContainsFromWitness(s, sub, 0, j);
      }
    }
  }

  /** Some element of `subs` at index `>= k` occurs in `s`. */
  predicate ContainsAnyFrom(s: string, subs: seq<string>, k: nat)
    decreases |subs| - k
  {
    k < |subs| && (Contains(s, subs[k]) || ContainsAnyFrom(s, subs, k + 1))
  }

  /** Python's `any(p in s for p in subs)`. */
  predicate ContainsAny(s: string, subs: seq<string>) { ContainsAnyFrom(s, subs, 0) }

  lemma {:induction false} ContainsAnyFromIff(s: string, subs: seq<string>, k: nat)
    ensures ContainsAnyFrom(s, subs, k) <==> exists j :: k <= j < |subs| && Contains(s, subs[j])
    decreases |subs| - k
  {
    if k < |subs| {
      ContainsAnyFromIff(s, subs, k + 1);
    }
  }

  lemma ContainsAnyIff(s: string, subs: seq<string>)
    ensures ContainsAny(s, subs) <==> exists j :: 0 <= j < |subs| && Contains(s, subs[j])
  {
    ContainsAnyFromIff(s, subs, 0);
  }

  /** Python's `str.isdigit` on ASCII: non-empty and all decimal digits. */
  predicate AllDigits(s: string) { |s| > 0 && forall i :: 0 <= i < |s| ==> IsDigit(s[i]) }

  /** The value of the decimal numeral `s[..n]`; `int(s)` when `n == |s|`. */
  function PrefixValue(s: string, n: nat): nat
    requires n <= |s|
  {
    if n == 0 then 0
    else PrefixValue(s, n - 1) * 10 + (if IsDigit(s[n - 1]) then s[n - 1] as int - '0' as int else 0)
  }

  function DigitsValue(s: string): nat { PrefixValue(s, |s|) }

  /** Python's `s.split(sep)`: the pieces between separators, in order. */
  function Split(s: string, sep: char): (parts: seq<string>)
    ensures |parts| >= 1
    ensures forall k :: 0 <= k < |parts| ==> sep !in parts[k]
  {
    if s == [] then [[]]
    else
      var rest := Split(s[1..], sep);
      if s[0] == sep then [[]] + rest
      else [[s[0]] + rest[0]] + rest[1..]
  }

  /** Python's `sep.join(parts)`. */
  function Join(parts: seq<string>, sep: char): string
    requires |parts| >= 1
  {
    if |parts| == 1 then parts[0] else parts[0] + [sep] + Join(parts[1..], sep)
  }

  /** Joining the pieces gives back the string. */
  lemma {:induction false} SplitJoin(s: string, sep: char)
    ensures Join(Split(s, sep), sep) == s
  {
    if s != [] {
      SplitJoin(s[1..], sep);
      var rest := Split(s[1..], sep);
      if s[0] != sep {
        if |rest| > 1 {
          assert Join(rest, sep) == rest[0] + [sep] + Join(rest[1..], sep);
          assert ([[s[0]] + rest[0]] + rest[1..])[1..] == rest[1..];
        }
      }
    }
  }

  /** A separator splits the string into the pieces on either side of it. */
  lemma {:induction false} SplitAppend(a: string, sep: char, b: string)
    ensures Split(a + [sep] + b, sep) == Split(a, sep) + Split(b, sep)
  {
    if a == [] {
      assert a + [sep] + b == [sep] + b;
      assert ([sep] + b)[1..] == b;
    } else {
      assert (a + [sep] + b)[0] == a[0];
      assert (a + [sep] + b)[1..] == a[1..] + [sep] + b;
      SplitAppend(a[1..], sep, b);
    }
  }

  lemma {:induction false} SplitNoSeparator(s: string, sep: char)
    requires sep !in s
    ensures Split(s, sep) == [s]
  {
    if s != [] {
      SplitNoSeparator(s[1..], sep);
      assert s[0] != sep;
      assert s == [s[0]] + s[1..];
    }
  }

  /** Splitting a join of separator-free pieces gives the pieces back. */
  lemma {:induction false} JoinSplit(parts: seq<string>, sep: char)
    requires |parts| >= 1
    requires forall k :: 0 <= k < |parts| ==> sep !in parts[k]
    ensures Split(Join(parts, sep), sep) == parts
  {
    SplitNoSeparator(parts[0], sep);
    if |parts| > 1 {
      JoinSplit(parts[1..], sep);
      SplitAppend(parts[0], sep, Join(parts[1..], sep));
    }
  }

  /** The non-empty strings of `parts`, in order. */
  function NonEmpty(parts: seq<string>): (r: seq<string>)
    ensures forall k :: 0 <= k < |r| ==> r[k] != [] && r[k] in parts
    ensures forall w :: w in parts && w != [] ==> w in r
  {
    if parts == [] then []
    else (if parts[0] == [] then [] else [parts[0]]) + NonEmpty(parts[1..])
  }

  /** `[seg for seg in path.split('/') if seg]`. */
  function Segments(path: string): seq<string> { NonEmpty(Split(path, '/')) }

  /** `[w.lower() for w in ws]`. */
  function LowerAll(ws: seq<string>): (r: seq<string>)
    ensures |r| == |ws|
    ensures forall k :: 0 <= k < |ws| ==> r[k] == Lower(ws[k])
  {
    if ws == [] then [] else [Lower(ws[0])] + LowerAll(ws[1..])
  }

  lemma LowerAllIdempotent(ws: seq<string>)
    ensures LowerAll(LowerAll(ws)) == LowerAll(ws)
  {
    forall k | 0 <= k < |ws| ensures LowerAll(LowerAll(ws))[k] == LowerAll(ws)[k] {
      LowerIdempotent(ws[k]);
    }
  }

  /** Lowering keeps empty strings empty, so it commutes with dropping them. */
  lemma {:induction false} NonEmptyLowerAll(parts: seq<string>)
    ensures NonEmpty(LowerAll(parts)) == LowerAll(NonEmpty(parts))
  {
    if parts != [] {
      NonEmptyLowerAll(parts[1..]);
      assert LowerAll(parts)[1..] == LowerAll(parts[1..]);
      var head := if parts[0] == [] then [] else [parts[0]];
      assert LowerAll(head + NonEmpty(parts[1..])) == LowerAll(head) + LowerAll(NonEmpty(parts[1..]));
    }
  }
}
