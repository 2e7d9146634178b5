/** Tokenisation of a cleaned text: `re.split(r"\W+", text)` followed by the
    guard `len(token) > eta`.
    Line numbers in these comments refer to `data/saxo_books/make_data.py`. */
module Tokens {
  import opened Seqs
  import opened Chars

  /** The minimum-length threshold: a token is kept when longer than `Eta`. */
  const Eta: nat := 1

  /** The length of the maximal run of non-word characters at the front of
      `s`. */
  function SeparatorRun(isWord: char -> bool, s: string): (n: nat)
    ensures n <= |s|
    ensures forall i :: 0 <= i < n ==> !isWord(s[i])
    ensures n == |s| || isWord(s[n])
    decreases |s|
  {
    if s == [] || isWord(s[0]) then 0 else 1 + SeparatorRun(isWord, s[1..])
  }

  /** `re.split(r"\W+", s)`: the pieces of `s` between maximal runs of
      non-word characters. A separator at the very front or back yields an
      empty first or last piece; no other piece is empty. */
  function SplitNonWord(isWord: char -> bool, s: string): (r: seq<string>)
    ensures |r| >= 1
    ensures forall k :: 0 <= k < |r| ==> AllWord(isWord, r[k])
    ensures forall k :: 0 < k < |r| - 1 ==> r[k] != []
    ensures s != [] && isWord(s[0]) ==> r[0] != []
    ensures s == [] <==> r == [[]]
    decreases |s|
  {
    if s == [] then [[]]
    else if isWord(s[0]) then
      var rest := SplitNonWord(isWord, s[1..]);
      [[s[0]] + rest[0]] + rest[1..]
    else
      [[]] + SplitNonWord(isWord, s[SeparatorRun(isWord, s)..])
  }

  /** The separator runs `re.split` discards, in order; the companion of
      `SplitNonWord` that makes the split reversible. */
  function Separators(isWord: char -> bool, s: string): (q: seq<string>)
    ensures |q| == |SplitNonWord(isWord, s)| - 1
    ensures forall k :: 0 <= k < |q| ==> q[k] != [] && AllSeparator(isWord, q[k])
    decreases |s|
  {
    if s == [] then []
    else if isWord(s[0]) then Separators(isWord, s[1..])
    else
      var n := SeparatorRun(isWord, s);
      [s[..n]] + Separators(isWord, s[n..])
  }

  /** The text made of the pieces `p` with the separators `q` between them. */
  function Weave(p: seq<string>, q: seq<string>): string
    requires |p| == |q| + 1
    decreases |q|
  {
    if q == [] then p[0] else p[0] + q[0] + Weave(p[1..], q[1..])
  }

  /** `s` is cut into word pieces `p` by non-empty separator runs `q`, with
      only the outermost pieces allowed to be empty: exactly the shape of a
      split on maximal non-word runs. */
  predicate IsSplitOf(isWord: char -> bool, s: string, p: seq<string>, q: seq<string>)
  {
    && |p| == |q| + 1
    && (forall k :: 0 <= k < |p| ==> AllWord(isWord, p[k]))
    && (forall k :: 0 < k < |p| - 1 ==> p[k] != [])
    && (forall k :: 0 <= k < |q| ==> q[k] != [] && AllSeparator(isWord, q[k]))
    && Weave(p, q) == s
  }

  /** Prepending to the first piece prepends to the woven text. */
  lemma WeavePrefixFirst(a: string, p: seq<string>, q: seq<string>)
    requires |p| == |q| + 1
    ensures Weave([a + p[0]] + p[1..], q) == a + Weave(p, q)
  {
    var p' := [a + p[0]] + p[1..];
    assert p'[0] == a + p[0] && p'[1..] == p[1..];
  }

  /** A separator run followed by a word character (or by nothing) is
      exactly the run `SeparatorRun` measures. */
  lemma {:induction false} SeparatorRunOf(isWord: char -> bool, a: string, b: string)
    requires AllSeparator(isWord, a)
    requires b == [] || isWord(b[0])
    ensures SeparatorRun(isWord, a + b) == |a|
    decreases |a|
  {
    if a == [] {
      assert a + b == b;
    } else {
      assert (a + b)[1..] == a[1..] + b;
      SeparatorRunOf(isWord, a[1..], b);
    }
  }

  /** Weaving a leading piece and separator in front. */
  lemma WeaveCons(a: string, sep: string, p: seq<string>, q: seq<string>)
    requires |p| == |q| + 1
    ensures Weave([a] + p, [sep] + q) == a + sep + Weave(p, q)
  {
    assert ([a] + p)[1..] == p && ([sep] + q)[1..] == q;
  }

  /** The pieces and the discarded separators of a split reassemble into
      the original text. */
  lemma {:induction false} SplitWeave(isWord: char -> bool, s: string)
    ensures Weave(SplitNonWord(isWord, s), Separators(isWord, s)) == s
    decreases |s|
  {
    if s == [] {
    } else if isWord(s[0]) {
      var rest := SplitNonWord(isWord, s[1..]);
      var q := Separators(isWord, s[1..]);
      assert SplitNonWord(isWord, s) == [[s[0]] + rest[0]] + rest[1..];
      assert Separators(isWord, s) == q;
      SplitWeave(isWord, s[1..]);
      WeavePrefixFirst([s[0]], rest, q);
      assert [s[0]] + s[1..] == s;
    } else {
      var n := SeparatorRun(isWord, s);
      var w, sep := s[n..], s[..n];
      assert SplitNonWord(isWord, s) == [[]] + SplitNonWord(isWord, w);
      assert Separators(isWord, s) == [sep] + Separators(isWord, w);
      SplitWeave(isWord, w);
      WeaveCons([], sep, SplitNonWord(isWord, w), Separators(isWord, w));
      assert sep + w == s;
    }
  }

  /** Existence: `re.split` and the separators it discards form a
      decomposition of the text in the shape `IsSplitOf` demands. */
  lemma {:induction false} SplitWeaves(isWord: char -> bool, s: string)
    ensures IsSplitOf(isWord, s, SplitNonWord(isWord, s), Separators(isWord, s))
  {
    SplitWeave(isWord, s);
  }

  /** Uniqueness: any decomposition of `s` in the shape of a split is the
      one `re.split` returns. */
  lemma {:induction false} SplitUnique(isWord: char -> bool, s: string, p: seq<string>, q: seq<string>)
    requires IsSplitOf(isWord, s, p, q)
    ensures SplitNonWord(isWord, s) == p
    decreases |s|
  {
    if p[0] != [] {
      var c := p[0][0];
      var p' := [p[0][1..]] + p[1..];
      assert p == [[c] + p'[0]] + p'[1..] by {
        assert p[0] == [c] + p[0][1..];
      }
      WeavePrefixFirst([c], p', q);
      assert s[0] == c && s[1..] == Weave(p', q);
      assert IsSplitOf(isWord, s[1..], p', q) by {
        assert forall k :: 0 < k < |p'| ==> p'[k] == p[k];
      }
      SplitUnique(isWord, s[1..], p', q);
    } else if q == [] {
      assert s == [];
    } else {
      var w := Weave(p[1..], q[1..]);
      assert p == [[]] + p[1..] && q == [q[0]] + q[1..];
      WeaveCons([], q[0], p[1..], q[1..]);
      assert s == q[0] + w;
      assert w == [] || isWord(w[0]) by {
        if |p| == 2 {
          assert w == p[1];
        } else {
          assert p[1] != [];
          assert p[1..] == [p[1]] + p[2..] && q[1..] == [q[1]] + q[2..];
          WeaveCons(p[1], q[1], p[2..], q[2..]);
        }
      }
      SeparatorRunOf(isWord, q[0], w);
      assert s[|q[0]|..] == w;
      assert IsSplitOf(isWord, w, p[1..], q[1..]);
      SplitUnique(isWord, w, p[1..], q[1..]);
    }
  }

  /** The keep-guard of the comprehension: `len(token) > eta`. */
  predicate LongEnough(t: string)
  {
    |t| > Eta
  }

  /** Every token is longer than `Eta` and made of word characters: the
      shape of every token the length guard lets through. */
  predicate WellFormedTokens(isWord: char -> bool, toks: seq<string>)
  {
    forall k :: 0 <= k < |toks| ==> |toks[k]| > Eta && AllWord(isWord, toks[k])
  }

  /** Lines 26-27: split the cleaned text on non-word runs and keep the pieces
      longer than `Eta`, in their original order. */
  function Tokenize(isWord: char -> bool, text: string): (r: seq<string>)
    ensures WellFormedTokens(isWord, r)
    ensures forall t :: t in r <==> t in SplitNonWord(isWord, text) && |t| > Eta
    ensures forall t :: Occurrences(t, r) == if |t| > Eta then Occurrences(t, SplitNonWord(isWord, text)) else 0
    ensures IsSubsequence(r, SplitNonWord(isWord, text))
  {
    FilterOccurrences(LongEnough, SplitNonWord(isWord, text));
    FilterMembers(LongEnough, SplitNonWord(isWord, text));
    Filter(LongEnough, SplitNonWord(isWord, text))
  }

  /** Re-tokenising words joined by separator runs gives the words back,
      when every word is already longer than `Eta`. */
  lemma {:induction false} TokenizeWeave(isWord: char -> bool, toks: seq<string>, q: seq<string>)
    requires |toks| == |q| + 1
    requires WellFormedTokens(isWord, toks)
    requires forall k :: 0 <= k < |q| ==> q[k] != [] && AllSeparator(isWord, q[k])
    ensures Tokenize(isWord, Weave(toks, q)) == toks
  {
    SplitUnique(isWord, Weave(toks, q), toks, q);
    FilterAllKept(LongEnough, toks);
  }
}
