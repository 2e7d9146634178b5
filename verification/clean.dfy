/** `clearstr`: deletion of the nuisance characters from a (lower-cased) book
    text. Each pattern of the removal list is applied in turn by a
    regular-expression substitution with the empty string, in the script
    `data/saxo_books/make_data.py`. */
module Clean {
  import opened Seqs

  /** One entry of the removal list: an escaped literal character, or `\d`. */
  datatype Pattern = Literal(ch: char) | Digit

  /** The full-width ideographic full stop, U+3002. */
  const IdeographicFullStop: char := '\U{3002}'

  /** The removal list, in the order `clearstr` applies it. */
  const Nuisance: seq<Pattern> := [Literal(IdeographicFullStop), Literal('@'), Literal('#'), Digit]

  /** Whether the one-character pattern `p` matches `c`. */
  predicate Matches(isDigit: char -> bool, p: Pattern, c: char)
  {
    match p
    case Literal(x) => c == x
    case Digit => isDigit(c)
  }

  /** Whether some pattern of `pats` matches `c`. */
  predicate MatchesAny(isDigit: char -> bool, pats: seq<Pattern>, c: char)
    decreases |pats|
  {
    pats != [] && (Matches(isDigit, pats[0], c) || MatchesAny(isDigit, pats[1..], c))
  }

  /** The characters `clearstr` deletes, stated directly rather than through
      the removal list. */
  predicate IsNuisance(isDigit: char -> bool, c: char)
  {
    c == IdeographicFullStop || c == '@' || c == '#' || isDigit(c)
  }

  /** `re.sub(p, "", s)` for a one-character pattern `p`: every match is
      deleted and every other character kept, in order. */
  function Remove(isDigit: char -> bool, p: Pattern, s: string): (r: string)
    ensures forall i :: 0 <= i < |r| ==> !Matches(isDigit, p, r[i])
    ensures forall c :: !Matches(isDigit, p, c) ==> multiset(r)[c] == multiset(s)[c]
    ensures IsSubsequence(r, s)
  {
    FilterCounts(c => !Matches(isDigit, p, c), s);
    Filter(c => !Matches(isDigit, p, c), s)
  }

  /** The loop of `clearstr`: the removals of `pats`, first to last. */
  function RemoveEach(isDigit: char -> bool, pats: seq<Pattern>, s: string): string
    decreases |pats|
  {
    if pats == [] then s else RemoveEach(isDigit, pats[1..], Remove(isDigit, pats[0], s))
  }

  /** `clearstr(text)`: the text with every nuisance character deleted and
      every other character kept, with its multiplicity, in its original order. */
  function ClearStr(isDigit: char -> bool, text: string): (r: string)
    ensures forall i :: 0 <= i < |r| ==> !IsNuisance(isDigit, r[i])
    ensures forall c :: !IsNuisance(isDigit, c) ==> multiset(r)[c] == multiset(text)[c]
    ensures IsSubsequence(r, text)
  {
    ClearStrIsFilter(isDigit, text);
    FilterCounts(c => !IsNuisance(isDigit, c), text);
    RemoveEach(isDigit, Nuisance, text)
  }

  /** Applying a list of removals one after another deletes exactly the
      characters some pattern of the list matches. */
  lemma {:induction false} RemoveEachIsFilter(isDigit: char -> bool, pats: seq<Pattern>, s: string)
    ensures RemoveEach(isDigit, pats, s) == Filter(c => !MatchesAny(isDigit, pats, c), s)
    decreases |pats|
  {
    if pats == [] {
      FilterAllKept(c => !MatchesAny(isDigit, pats, c), s);
    } else {
      var first := c => !Matches(isDigit, pats[0], c);
      var rest := c => !MatchesAny(isDigit, pats[1..], c);
      var all := c => !MatchesAny(isDigit, pats, c);
      RemoveEachIsFilter(isDigit, pats[1..], Remove(isDigit, pats[0], s));
      FilterFilter(rest, first, all, s);
    }
  }

  /** The removal list matches exactly the nuisance characters. */
  lemma NuisanceListMatches(isDigit: char -> bool, c: char)
    ensures MatchesAny(isDigit, Nuisance, c) == IsNuisance(isDigit, c)
  {
    var n := Nuisance;
    assert MatchesAny(isDigit, n[3..], c) == isDigit(c) by {
      assert n[3..][1..] == [];
    }
    assert n[2..][1..] == n[3..] && n[1..][1..] == n[2..];
    assert MatchesAny(isDigit, n[2..], c) == (c == '#' || isDigit(c));
    assert MatchesAny(isDigit, n[1..], c) == (c == '@' || c == '#' || isDigit(c));
  }

  /** The four sequential removals of `clearstr` are a single-pass deletion of
      the nuisance characters. */
  lemma ClearStrIsFilter(isDigit: char -> bool, s: string)
    ensures RemoveEach(isDigit, Nuisance, s) == Filter(c => !IsNuisance(isDigit, c), s)
  {
    RemoveEachIsFilter(isDigit, Nuisance, s);
    forall c ensures MatchesAny(isDigit, Nuisance, c) == IsNuisance(isDigit, c) {
      NuisanceListMatches(isDigit, c);
    }
    FilterExt(c => !MatchesAny(isDigit, Nuisance, c), c => !IsNuisance(isDigit, c), s);
  }

  /** `clearstr` is idempotent. */
  lemma ClearStrIdempotent(isDigit: char -> bool, s: string)
    ensures ClearStr(isDigit, ClearStr(isDigit, s)) == ClearStr(isDigit, s)
  {
    var keep := c => !IsNuisance(isDigit, c);
    ClearStrIsFilter(isDigit, s);
    ClearStrIsFilter(isDigit, ClearStr(isDigit, s));
    FilterIdempotent(keep, s);
  }

  /** `clearstr` works character by character: cleaning a concatenation is
      concatenating the cleaned parts. */
  lemma {:induction false} ClearStrAppend(isDigit: char -> bool, a: string, b: string)
    ensures ClearStr(isDigit, a + b) == ClearStr(isDigit, a) + ClearStr(isDigit, b)
  {
    ClearStrIsFilter(isDigit, a);
    ClearStrIsFilter(isDigit, b);
    ClearStrIsFilter(isDigit, a + b);
    FilterAppend(c => !IsNuisance(isDigit, c), a, b);
  }

  /** Any two removals commute. */
  lemma {:induction false} RemovalsCommute(isDigit: char -> bool, p: Pattern, q: Pattern, s: string)
    ensures Remove(isDigit, p, Remove(isDigit, q, s)) == Remove(isDigit, q, Remove(isDigit, p, s))
  {
    var pf := c => !Matches(isDigit, p, c);
    var qf := c => !Matches(isDigit, q, c);
    var both := c => !Matches(isDigit, p, c) && !Matches(isDigit, q, c);
    FilterFilter(pf, qf, both, s);
    FilterFilter(qf, pf, both, s);
  }

  /** `MatchesAny` depends only on which patterns occur in the list. */
  lemma {:induction false} MatchesAnyIn(isDigit: char -> bool, pats: seq<Pattern>, c: char)
    ensures MatchesAny(isDigit, pats, c) <==> exists p :: p in pats && Matches(isDigit, p, c)
    decreases |pats|
  {
    if pats != [] {
      MatchesAnyIn(isDigit, pats[1..], c);
      assert forall p :: p in pats <==> p == pats[0] || p in pats[1..];
    }
  }

  /** The result of a list of removals depends neither on the order of the
      list nor on repetitions in it. */
  lemma {:induction false} RemoveEachOrderInsensitive(isDigit: char -> bool, pats: seq<Pattern>, pats': seq<Pattern>, s: string)
    requires forall p :: p in pats <==> p in pats'
    ensures RemoveEach(isDigit, pats, s) == RemoveEach(isDigit, pats', s)
  {
    RemoveEachIsFilter(isDigit, pats, s);
    RemoveEachIsFilter(isDigit, pats', s);
    forall c ensures MatchesAny(isDigit, pats, c) == MatchesAny(isDigit, pats', c) {
      MatchesAnyIn(isDigit, pats, c);
      MatchesAnyIn(isDigit, pats', c);
    }
    FilterExt(c => !MatchesAny(isDigit, pats, c), c => !MatchesAny(isDigit, pats', c), s);
  }
}
