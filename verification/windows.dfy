/** Windowing of a book's token list into consecutive, non-overlapping slices
    of `WindowSize` tokens (the last one possibly shorter), and the
    space-joining of each slice into its row content.
    Line numbers in these comments refer to `data/saxo_books/make_data.py`. */
module Windows {
  import opened Seqs
  import opened Chars
  import opened Tokens

  /** The window size `n`. */
  const WindowSize: nat := 250

  function Min(a: int, b: int): int
  {
    if a <= b then a else b
  }

  /** The number of windows for `len` tokens: the ceiling of `len / WindowSize`. */
  function WindowCount(len: nat): nat
  {
    (len + WindowSize - 1) / WindowSize
  }

  /** The consecutive windows of `toks`, peeled off the front one at a time. */
  function Chunks<T>(toks: seq<T>): (r: seq<seq<T>>)
    ensures |r| == WindowCount(|toks|)
    decreases |toks|
  {
    if toks == [] then []
    else if |toks| <= WindowSize then [toks]
    else [toks[..WindowSize]] + Chunks(toks[WindowSize..])
  }

  /** The window at index `k` is `toks[k*n : k*n + n]`, clamped to the end of
      the list: the windows start at offsets `0, n, 2n, ...`. */
  lemma {:induction false} ChunkAt<T>(toks: seq<T>, k: nat)
    requires k < |Chunks(toks)|
    ensures Chunks(toks)[k] == toks[k * WindowSize .. Min(k * WindowSize + WindowSize, |toks|)]
    decreases |toks|
  {
    if k > 0 {
      var rest := toks[WindowSize..];
      ChunkAt(rest, k - 1);
      assert Chunks(toks)[k] == Chunks(rest)[k - 1];
    }
  }

  /** Laying the windows end to end gives back the token list: nothing is
      lost, duplicated or reordered. */
  lemma {:induction false} ChunksConcat<T>(toks: seq<T>)
    ensures Concat(Chunks(toks)) == toks
    decreases |toks|
  {
    if toks != [] && |toks| > WindowSize {
      var rest := toks[WindowSize..];
      ChunksConcat(rest);
      var r := Chunks(toks);
      assert r[0] == toks[..WindowSize] && r[1..] == Chunks(rest);
      assert toks[..WindowSize] + rest == toks;
    }
  }

  /** Lines 30-32 as written: `for ii in range(0, len(tokens), n)` appending
      the clamped slice `tokens[ii:ii+n]`. */
  method WindowSlices<T>(tokens: seq<T>) returns (slices: seq<seq<T>>)
    ensures |slices| == WindowCount(|tokens|)
    ensures forall k :: 0 <= k < |slices| ==>
      slices[k] == tokens[k * WindowSize .. Min(k * WindowSize + WindowSize, |tokens|)]
    ensures slices == Chunks(tokens)
  {
    slices := [];
    var ii := 0;
    while ii < |tokens|
      invariant ii == |slices| * WindowSize
      invariant ii < |tokens| + WindowSize
      invariant forall k :: 0 <= k < |slices| ==>
        slices[k] == tokens[k * WindowSize .. Min(k * WindowSize + WindowSize, |tokens|)]
      decreases |tokens| - ii
    {
      slices := slices + [tokens[ii .. Min(ii + WindowSize, |tokens|)]];
      ii := ii + WindowSize;
    }
    forall k | 0 <= k < |slices|
      ensures slices[k] == Chunks(tokens)[k]
    {
      ChunkAt(tokens, k);
    }
  }

  /** Every window but the last is full; the last holds between one and
      `WindowSize` tokens; no tokens means no windows, not one empty window. */
  lemma ChunkSizes<T>(toks: seq<T>)
    ensures var r := Chunks(toks);
      && (forall k :: 0 <= k < |r| - 1 ==> |r[k]| == WindowSize)
      && (|r| > 0 ==> 1 <= |r[|r| - 1]| <= WindowSize)
      && (toks == [] <==> r == [])
  {
    var r := Chunks(toks);
    forall k | 0 <= k < |r|
      ensures |r[k]| == Min(k * WindowSize + WindowSize, |toks|) - k * WindowSize
    {
      ChunkAt(toks, k);
    }
  }

  /** `sep.join(toks)`. */
  function Join(sep: string, toks: seq<string>): string
    decreases |toks|
  {
    if toks == [] then []
    else if |toks| == 1 then toks[0]
    else toks[0] + sep + Join(sep, toks[1..])
  }

  /** `n` copies of `sep`. */
  function Repeat(sep: string, n: nat): (r: seq<string>)
    ensures |r| == n && forall k :: 0 <= k < n ==> r[k] == sep
  {
    seq(n, _ => sep)
  }

  /** Joining a non-empty list puts `sep` between consecutive items. */
  lemma {:induction false} JoinIsWeave(sep: string, toks: seq<string>)
    requires toks != []
    ensures Join(sep, toks) == Weave(toks, Repeat(sep, |toks| - 1))
    decreases |toks|
  {
    if |toks| > 1 {
      JoinIsWeave(sep, toks[1..]);
      assert Repeat(sep, |toks| - 1)[1..] == Repeat(sep, |toks| - 2);
    }
  }

  /** Line 34: the content string of every slice. */
  function JoinSlices(slices: seq<seq<string>>): seq<string>
  {
    seq(|slices|, k requires 0 <= k < |slices| => Join(" ", slices[k]))
  }

  /** Re-tokenising a slice's content gives back exactly that slice's
      tokens: tokens are longer than `Eta` and made of word characters, and
      the joining space is a separator. */
  lemma RetokenizeJoin(t: CharTables, toks: seq<string>)
    requires SpaceSeparates(t)
    requires toks != []
    requires WellFormedTokens(t.isWord, toks)
    ensures Tokenize(t.isWord, Join(" ", toks)) == toks
  {
    JoinIsWeave(" ", toks);
    TokenizeWeave(t.isWord, toks, Repeat(" ", |toks| - 1));
  }

  /** `s.split(c)`: the pieces between successive occurrences of `c`. */
  function SplitOn(c: char, s: string): (r: seq<string>)
    ensures |r| >= 1
    decreases |s|
  {
    if s == [] then [[]]
    else
      var rest := SplitOn(c, s[1..]);
      if s[0] == c then [[]] + rest else [[s[0]] + rest[0]] + rest[1..]
  }

  /** A prefix free of `c` lands entirely in the first piece. */
  lemma {:induction false} SplitOnPrefix(c: char, a: string, s: string)
    requires c !in a
    ensures SplitOn(c, a + s) == [a + SplitOn(c, s)[0]] + SplitOn(c, s)[1..]
    decreases |a|
  {
    if a != [] {
      var r := SplitOn(c, s);
      assert (a + s)[0] == a[0] && (a + s)[1..] == a[1..] + s;
      SplitOnPrefix(c, a[1..], s);
      assert [a[0]] + (a[1..] + r[0]) == a + r[0];
    } else {
      var r := SplitOn(c, s);
      assert a + s == s && a + r[0] == r[0];
      assert r == [r[0]] + r[1..];
    }
  }

  /** Splitting a join on its one-character separator gives the list back,
      when no item contains the separator. */
  lemma {:induction false} SplitOnJoin(c: char, toks: seq<string>)
    requires toks != []
    requires forall k :: 0 <= k < |toks| ==> c !in toks[k]
    ensures SplitOn(c, Join([c], toks)) == toks
    decreases |toks|
  {
    if |toks| == 1 {
      SplitOnPrefix(c, toks[0], []);
      assert toks[0] + [] == toks[0];
    } else {
      var j := Join([c], toks[1..]);
      SplitOnJoin(c, toks[1..]);
      assert SplitOn(c, [c] + j) == [[]] + toks[1..] by {
        assert ([c] + j)[1..] == j;
      }
      assert Join([c], toks) == toks[0] + ([c] + j);
      SplitOnPrefix(c, toks[0], [c] + j);
      assert toks[0] + [] == toks[0];
      assert toks == [toks[0]] + toks[1..];
    }
  }

  /** `content.split(" ")` recovers the tokens of the slice the content was
      joined from. */
  lemma {:induction false} SplitContentOnSpace(t: CharTables, toks: seq<string>)
    requires SpaceSeparates(t)
    requires toks != []
    requires forall k :: 0 <= k < |toks| ==> AllWord(t.isWord, toks[k])
    ensures SplitOn(' ', Join(" ", toks)) == toks
  {
    forall k | 0 <= k < |toks|
      ensures ' ' !in toks[k]
    {
      assert AllWord(t.isWord, toks[k]);
    }
    SplitOnJoin(' ', toks);
  }
}
