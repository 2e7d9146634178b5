/** Worked instances of tokenisation on a short literal input, under the
    few facts about the character tables that the instance needs. */
module TokenExamples {
  import opened Seqs
  import opened Chars
  import opened Tokens

  /** `re.split(r"\W+", "a bb c dd")` is `["a", "bb", "c", "dd"]`. */
  lemma SplitExample(isWord: char -> bool, s: string)
    requires s == "a bb c dd"
    requires isWord('a') && isWord('b') && isWord('c') && isWord('d')
    requires !isWord(' ')
    ensures SplitNonWord(isWord, s) == [s[..1], s[2..4], s[5..6], s[7..]]
  {
    var p := [s[..1], s[2..4], s[5..6], s[7..]];
    var q := [s[1..2], s[4..5], s[6..7]];
    assert Weave(p, q) == s by {
      assert Weave(p[3..], q[3..]) == s[7..];
      assert Weave(p[2..], q[2..]) == s[5..];
      assert Weave(p[1..], q[1..]) == s[2..];
    }
    assert forall k :: 0 <= k < |p| ==> AllWord(isWord, p[k]);
    assert forall k :: 0 <= k < |q| ==> q[k] != [] && AllSeparator(isWord, q[k]);
    SplitUnique(isWord, s, p, q);
  }

  /** Single-character tokens are dropped: `"a bb c dd"` tokenises to
      `["bb", "dd"]`. */
  lemma TokenizeExample(isWord: char -> bool, s: string, r: seq<string>)
    requires s == "a bb c dd" && r == ["bb", "dd"]
    requires isWord('a') && isWord('b') && isWord('c') && isWord('d')
    requires !isWord(' ')
    ensures Tokenize(isWord, s) == r
  {
    SplitExample(isWord, s);
    var p := [s[..1], s[2..4], s[5..6], s[7..]];
    assert p[3..][1..] == [] && p[2..][1..] == p[3..] && p[1..][1..] == p[2..];
    assert Filter(LongEnough, p[3..]) == [p[3]];
    assert Filter(LongEnough, p[2..]) == [p[3]];
    assert Filter(LongEnough, p[1..]) == [p[1], p[3]];
    assert p[1] == r[0] by {
      assert |p[1]| == 2 && p[1][0] == s[2] && p[1][1] == s[3];
    }
    assert p[3] == r[1] by {
      assert |p[3]| == 2 && p[3][0] == s[7] && p[3][1] == s[8];
    }
  }
}
