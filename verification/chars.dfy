/** The character classification the script borrows from Python's Unicode
    tables and regular-expression engine. They are parameters of the model:
    nothing here fixes which characters are word characters or digits, or how
    a text is lower-cased. The script is `data/saxo_books/make_data.py`. */
module Chars {

  /** `isWord` is the class `\w`, `isDigit` the class `\d` and `lower` is
      `str.lower` applied to a whole text (it may change the length, and it
      may depend on context, as Python's final-sigma rule does). */
  datatype CharTables = CharTables(
    isWord: char -> bool,
    isDigit: char -> bool,
    lower: string -> string)

  /** The one assumption the content round trip needs: the space that joins
      the tokens of a slice is itself a non-word character. */
  predicate SpaceSeparates(t: CharTables)
  {
    !t.isWord(' ')
  }

  /** Every character of `s` is a word character. */
  predicate AllWord(isWord: char -> bool, s: string)
  {
    forall i :: 0 <= i < |s| ==> isWord(s[i])
  }

  /** Every character of `s` is a non-word character. */
  predicate AllSeparator(isWord: char -> bool, s: string)
  {
    forall i :: 0 <= i < |s| ==> !isWord(s[i])
  }
}
