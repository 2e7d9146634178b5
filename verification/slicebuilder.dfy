/** The whole transform of the script `data/saxo_books/make_data.py` for an
    ordered list of book texts: lower-case, clean, tokenise, window, join,
    flatten and label. The book number of a text is its 1-based position in
    the list. Line numbers in these comments refer to that file. */
module SliceBuilder {
  import opened Seqs
  import opened Chars
  import opened Clean
  import opened Tokens
  import opened Windows
  import opened Rows

  /** Lines 25-27: the tokens of one book, `clearstr(text.lower())` split on
      non-word runs and filtered by length. */
  function BookTokens(t: CharTables, text: string): (r: seq<string>)
    ensures WellFormedTokens(t.isWord, r)
  {
    Tokenize(t.isWord, ClearStr(t.isDigit, t.lower(text)))
  }

  /** The token list of every book, in input order. */
  function TokenLists(t: CharTables, docs: seq<string>): (books: seq<seq<string>>)
    ensures |books| == |docs|
    ensures forall i :: 0 <= i < |docs| ==> books[i] == BookTokens(t, docs[i])
    ensures forall i :: 0 <= i < |docs| ==> WellFormedTokens(t.isWord, books[i])
  {
    seq(|docs|, i requires 0 <= i < |docs| => BookTokens(t, docs[i]))
  }

  /** Lines 28-34 for every book: `db`, the joined windows of each token
      list, in input order. */
  function Db(books: seq<seq<string>>): seq<seq<string>>
  {
    seq(|books|, i requires 0 <= i < |books| => JoinSlices(Chunks(books[i])))
  }

  /** Lines 28-34 as written, for each book's token list in order: window
      the tokens with the `range` loop and join every window. */
  method BuildDb(books: seq<seq<string>>) returns (db: seq<seq<string>>)
    ensures db == Db(books)
  {
    db := [];
    var i := 0;
    while i < |books|
      invariant i <= |books|
      invariant |db| == i
      invariant forall k :: 0 <= k < i ==> db[k] == JoinSlices(Chunks(books[k]))
    {
      var slices := WindowSlices(books[i]);
      db := db + [JoinSlices(slices)];
      i := i + 1;
    }
  }

  /** Lines 36-57: the rows of the output table for the given token lists. */
  function RowsOf(books: seq<seq<string>>): (rows: seq<Row>)
    ensures |rows| == TotalSlices(Db(books))
  {
    FlatRows(Db(books))
  }

  /** The whole script: the rows of the output table for the book texts. */
  function BuildRows(t: CharTables, docs: seq<string>): seq<Row>
  {
    RowsOf(TokenLists(t, docs))
  }

  /** End to end, from the book texts: window `ii` of the tokens of the
      text at position `i` becomes the row after the windows of the earlier
      books, with book number `i + 1`, slice index `ii`, and content that
      re-tokenises to exactly that window. */
  lemma BuildRowsAt(t: CharTables, docs: seq<string>, i: nat, ii: nat)
    requires SpaceSeparates(t)
    requires i < |docs| && ii < WindowCount(|BookTokens(t, docs[i])|)
    ensures BookStart(Db(TokenLists(t, docs)), i) + ii < |BuildRows(t, docs)|
    ensures BuildRows(t, docs)[BookStart(Db(TokenLists(t, docs)), i) + ii].book == i + 1
    ensures BuildRows(t, docs)[BookStart(Db(TokenLists(t, docs)), i) + ii].sliceId == ii
    ensures Tokenize(t.isWord, BuildRows(t, docs)[BookStart(Db(TokenLists(t, docs)), i) + ii].content)
      == Chunks(BookTokens(t, docs[i]))[ii]
  {
    var books := TokenLists(t, docs);
    assert books[i] == BookTokens(t, docs[i]);
    RowsOfAt(books, i, ii);
    WindowRoundTrip(t, books[i], ii);
  }

  /** The row of window `ii` of the book at position `i` carries book number
      `i + 1`, the label of that number, slice index `ii` and the window's
      tokens joined by single spaces. */
  lemma RowsOfAt(books: seq<seq<string>>, i: nat, ii: nat)
    requires i < |books| && ii < |Chunks(books[i])|
    ensures BookStart(Db(books), i) + ii < |RowsOf(books)|
    ensures RowsOf(books)[BookStart(Db(books), i) + ii]
      == Row(i + 1, Classify(i + 1), ii, Join(" ", Chunks(books[i])[ii]))
  {
    var db := Db(books);
    FlatRowAt(db, i, ii);
    assert db[i][ii] == JoinSlices(Chunks(books[i]))[ii];
  }

  /** Every row is the row of one window of one book, at the place
      `RowsOfAt` gives it, labelled from its own book number. */
  lemma RowsOfOf(books: seq<seq<string>>, j: nat)
    requires j < |RowsOf(books)|
    ensures 1 <= RowsOf(books)[j].book <= |books|
    ensures 0 <= RowsOf(books)[j].sliceId < |Chunks(books[RowsOf(books)[j].book - 1])|
    ensures j == BookStart(Db(books), RowsOf(books)[j].book - 1) + RowsOf(books)[j].sliceId
    ensures RowsOf(books)[j].bookClass == Classify(RowsOf(books)[j].book)
    ensures RowsOf(books)[j].content
      == Join(" ", Chunks(books[RowsOf(books)[j].book - 1])[RowsOf(books)[j].sliceId])
  {
    var db := Db(books);
    var i, ii := FlatRowOf(db, j);
    assert db[i][ii] == JoinSlices(Chunks(books[i]))[ii];
  }

  /** Every window is non-empty. */
  lemma SlicesNonEmpty<T>(toks: seq<T>, k: nat)
    requires k < |Chunks(toks)|
    ensures Chunks(toks)[k] != []
  {
    ChunkSizes(toks);
  }

  /** The windows of a well-formed token list are well-formed. */
  lemma ChunkWellFormed(isWord: char -> bool, toks: seq<string>, k: nat)
    requires WellFormedTokens(isWord, toks)
    requires k < |Chunks(toks)|
    ensures WellFormedTokens(isWord, Chunks(toks)[k])
  {
    ChunkAt(toks, k);
  }

  /** The joined content of a window of a well-formed token list
      re-tokenises to exactly that window, and splitting it on single spaces
      gives it back too. */
  lemma WindowRoundTrip(t: CharTables, toks: seq<string>, k: nat)
    requires SpaceSeparates(t)
    requires WellFormedTokens(t.isWord, toks)
    requires k < |Chunks(toks)|
    ensures Tokenize(t.isWord, Join(" ", Chunks(toks)[k])) == Chunks(toks)[k]
    ensures SplitOn(' ', Join(" ", Chunks(toks)[k])) == Chunks(toks)[k]
  {
    var slice := Chunks(toks)[k];
    SlicesNonEmpty(toks, k);
    ChunkWellFormed(t.isWord, toks, k);
    RetokenizeJoin(t, slice);
    SplitContentOnSpace(t, slice);
  }

  /** For well-formed token lists, as `TokenLists` produces, the content of
      every row re-tokenises to exactly the tokens of its window, and
      splitting it on single spaces gives them back too. */
  lemma ContentRoundTrip(t: CharTables, books: seq<seq<string>>, j: nat)
    requires SpaceSeparates(t)
    requires forall i :: 0 <= i < |books| ==> WellFormedTokens(t.isWord, books[i])
    requires j < |RowsOf(books)|
    ensures var row := RowsOf(books)[j];
      && 1 <= row.book <= |books|
      && 0 <= row.sliceId < |Chunks(books[row.book - 1])|
      && Tokenize(t.isWord, row.content) == Chunks(books[row.book - 1])[row.sliceId]
      && SplitOn(' ', row.content) == Chunks(books[row.book - 1])[row.sliceId]
  {
    RowsOfOf(books, j);
    var row := RowsOf(books)[j];
    WindowRoundTrip(t, books[row.book - 1], row.sliceId);
  }

  /** A book with no surviving token contributes no row at all. */
  lemma EmptyBookNoRows(books: seq<seq<string>>, i: nat, j: nat)
    requires i < |books| && books[i] == []
    requires j < |RowsOf(books)|
    ensures RowsOf(books)[j].book != i + 1
  {
    BookBlock(Db(books), i, j);
  }

  /** 260 tokens make two windows, of 250 and of 10 tokens. */
  lemma ChunksOf260<T>(toks: seq<T>)
    requires |toks| == 260
    ensures |Chunks(toks)| == 2
    ensures |Chunks(toks)[0]| == 250 && |Chunks(toks)[1]| == 10
  {
    assert WindowCount(260) == 2;
    ChunkAt(toks, 0);
    ChunkAt(toks, 1);
  }

  /** Two books of two windows each give four rows: book 1 slices 0 and 1,
      then book 2 slices 0 and 1, all early. */
  lemma TwoBooksOfTwoSlices(books: seq<seq<string>>)
    requires |books| == 2 && |Chunks(books[0])| == 2 && |Chunks(books[1])| == 2
    ensures var rows := RowsOf(books);
      && |rows| == 4
      && rows[0].book == 1 && rows[0].sliceId == 0
      && rows[1].book == 1 && rows[1].sliceId == 1
      && rows[2].book == 2 && rows[2].sliceId == 0
      && rows[3].book == 2 && rows[3].sliceId == 1
      && (forall j :: 0 <= j < 4 ==> rows[j].bookClass == Early)
  {
    var db := Db(books);
    assert |db[0]| == 2 && |db[1]| == 2;
    TwoBookStarts(db);
    RowsOfAt(books, 0, 0);
    RowsOfAt(books, 0, 1);
    RowsOfAt(books, 1, 0);
    RowsOfAt(books, 1, 1);
  }

  /** Two books of 260 tokens each give four rows: book 1 slices 0 and 1,
      then book 2 slices 0 and 1, all early, the first slice of each book
      holding 250 tokens and the second 10. */
  lemma TwoBooksOf260(books: seq<seq<string>>)
    requires |books| == 2 && |books[0]| == 260 && |books[1]| == 260
    ensures var rows := RowsOf(books);
      && |rows| == 4
      && rows[0].book == 1 && rows[0].sliceId == 0
      && rows[1].book == 1 && rows[1].sliceId == 1
      && rows[2].book == 2 && rows[2].sliceId == 0
      && rows[3].book == 2 && rows[3].sliceId == 1
      && (forall j :: 0 <= j < 4 ==> rows[j].bookClass == Early)
      && |Chunks(books[0])[0]| == 250 && |Chunks(books[0])[1]| == 10
  {
    ChunksOf260(books[0]);
    ChunksOf260(books[1]);
    TwoBooksOfTwoSlices(books);
  }
}
