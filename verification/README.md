# Saxo slice builder, modelled in Dafny

This project models the text-to-rows transform of the batch script
`data/saxo_books/make_data.py`. The script reads one text file per book of
Saxo's chronicle, in natural-sort order, and turns each book into fixed-size
windows of tokens. It then writes one table row per window with four fields:

- `book`: the 1-based position of the book;
- `book_class`: an `early`, `uncertain` or `late` label derived from that position;
- `slice_id`: the window's index within its book;
- `content`: the window's tokens joined by single spaces.

The model follows the script's stages, one module each:

| module | stage |
|---|---|
| `Seqs` (seqs.dfy) | order-preserving filtering (`Filter`), shared by the character deletion and the token-length guard |
| `Chars` (chars.dfy) | the character tables the script takes from Python: the word class `\w`, the digit class `\d`, and `str.lower`. They are parameters (`CharTables`) |
| `Clean` (clean.dfy) | `clearstr`: the four `re.sub` deletions of `。`, `@`, `#` and `\d` |
| `Tokens` (tokens.dfy) | `re.split(r"\W+", text)`, including its empty leading and trailing pieces, then the `len(token) > eta` guard with `eta = 1` |
| `Windows` (windows.dfy) | the `range(0, len(tokens), 250)` windowing loop, `" ".join` of each window, and `str.split(" ")` for the round trip |
| `Rows` (rows.dfy) | the nested loops that build the parallel lists `class_book`, `class_slice` and `data`; the label chain that builds `class_data`; the four-column record |
| `SliceBuilder` (slicebuilder.dfy) | the stages composed over an ordered list of book texts |
| `TokenExamples` (examples.dfy) | one worked tokenisation instance |

Each stage is characterised by a second definition (a reference function, an inverse, or a shape predicate) and a lemma relating the two:

- `ClearStr`, the four sequential removals, is one filter by `IsNuisance`.
- `SplitNonWord` is the unique decomposition of the text into pieces of word characters, of which only the first and last may be empty, separated by non-empty runs of non-word characters (`SplitWeaves`, `SplitUnique`). Its partner is `Weave`, which rebuilds the text.
- `WindowSlices`, the loop, equals `Chunks`, the recursive reference. Concatenating the windows gives back the tokens.
- `Join` of a non-empty list of word-character tokens is undone by `SplitOn(' ', …)`, and also by `Tokenize` when every token is longer than `eta`; both need the space character to be a non-word character.
- `Flatten`, the nested loops, equals `Assemble`. Every output row is placed by `BookStart`, the number of slices before its book.
- `LabelBooks`, the loop, agrees entry by entry with `Classify`.

## Model

| member | source | states |
|---|---|---|
| Clean.Remove | data/saxo_books/make_data.py:12 | one substitution deletes every match of its pattern and keeps every other character with its multiplicity, in order |
| Clean.ClearStr | data/saxo_books/make_data.py:9-13 | the cleaned text has no `。`, `@`, `#` or digit, keeps every other character with its full multiplicity, and is a subsequence of the input |
| Clean.RemoveEachIsFilter | data/saxo_books/make_data.py:11-12 | applying a list of removals in turn deletes exactly the characters some pattern of the list matches |
| Clean.NuisanceListMatches | data/saxo_books/make_data.py:10 | the four escaped patterns match exactly the full stop `。`, `@`, `#` and the digits |
| Clean.ClearStrIsFilter | data/saxo_books/make_data.py:9-13 | `clearstr` equals a single pass deleting the nuisance characters |
| Clean.ClearStrIdempotent | data/saxo_books/make_data.py:9-13 | cleaning twice gives the same text as cleaning once |
| Clean.ClearStrAppend | data/saxo_books/make_data.py:9-13 | cleaning a concatenation equals concatenating the cleaned parts |
| Clean.RemovalsCommute | data/saxo_books/make_data.py:11-12 | any two of the removals give the same result in either order |
| Clean.RemoveEachOrderInsensitive | data/saxo_books/make_data.py:10-12 | the loop's result depends only on which patterns the list holds, not on their order or repetitions |
| Tokens.SeparatorRun | data/saxo_books/make_data.py:20 | `\W+` matches a maximal run: every character of it is non-word and the next one, if any, is a word character |
| Tokens.SplitNonWord | data/saxo_books/make_data.py:26 | every piece of the split is all word characters; only the first and last pieces may be empty; empty text splits into one empty piece |
| Tokens.Separators | data/saxo_books/make_data.py:26 | the runs the split discards are one fewer than the pieces, and each is non-empty and all non-word characters |
| Tokens.SplitWeave | data/saxo_books/make_data.py:26 | interleaving the pieces with the discarded runs rebuilds the text exactly |
| Tokens.SplitWeaves | data/saxo_books/make_data.py:26 | the split and its runs form a decomposition of the text in the shape a split on maximal non-word runs must have |
| Tokens.SplitUnique | data/saxo_books/make_data.py:26 | any such decomposition of the text is the one the split returns |
| Tokens.Tokenize | data/saxo_books/make_data.py:26-27 | every token has length at least 2 and only word characters; a string is a token iff it is a piece of the split longer than `eta`; every such piece occurs in the tokens exactly as often as in the split (`Occurrences`, which `Seqs.OccurrencesMultiset` proves is the multiset multiplicity), so nothing is deduplicated; tokens keep the split's order |
| Tokens.TokenizeWeave | data/saxo_books/make_data.py:26-27 | words longer than `eta` joined by any non-empty non-word runs tokenise back to exactly those words |
| TokenExamples.SplitExample | data/saxo_books/make_data.py:26 | `"a bb c dd"` splits into `a`, `bb`, `c`, `dd` |
| TokenExamples.TokenizeExample | data/saxo_books/make_data.py:26-27 | `"a bb c dd"` tokenises to `["bb", "dd"]`: single letters are dropped |
| Windows.Chunks | data/saxo_books/make_data.py:30-32 | there are ceil(L / 250) windows for L tokens |
| Windows.ChunkAt | data/saxo_books/make_data.py:30-32 | window `k` is `tokens[250k : 250k + 250]`, clamped to the end of the list |
| Windows.ChunksConcat | data/saxo_books/make_data.py:30-32 | the windows laid end to end give back the token list, with nothing lost, duplicated or reordered |
| Windows.WindowSlices | data/saxo_books/make_data.py:30-32 | the `range` loop yields ceil(L / 250) slices, slice `k` starting at offset 250k, and equals the recursive reference |
| Windows.ChunkSizes | data/saxo_books/make_data.py:30-32 | all windows but the last hold 250 tokens and the last holds 1 to 250; no tokens means no windows, not one empty window |
| Windows.JoinIsWeave | data/saxo_books/make_data.py:34 | `sep.join` puts `sep` between consecutive tokens and nowhere else |
| Windows.RetokenizeJoin | data/saxo_books/make_data.py:26-34 | re-tokenising a window's content gives back exactly its tokens, given that space is a non-word character |
| Windows.SplitOnJoin | data/saxo_books/make_data.py:34 | splitting a join on its one-character separator gives the list back when no item contains that character |
| Windows.SplitContentOnSpace | data/saxo_books/make_data.py:34 | `content.split(" ")` recovers the window's tokens |
| Rows.LabelsFor | data/saxo_books/make_data.py:46-51 | exactly one branch of the `if`/`elif`/`elif` chain fires for every book number, so each entry of `class_book` adds one label |
| Rows.Classify | data/saxo_books/make_data.py:46-51 | the label is `early` iff the number is at most 8, `uncertain` iff it is 9, and `late` iff it exceeds 9 |
| Rows.ClassifyName | data/saxo_books/make_data.py:46-51 | the `book_class` string written for a book number is `"early"` up to 8, `"uncertain"` for 9 and `"late"` above 9 |
| Rows.ClassifyMonotone | data/saxo_books/make_data.py:46-51 | a larger book number never gets an earlier label |
| Rows.ClassData | data/saxo_books/make_data.py:44-51 | `class_data` has as many entries as `class_book`, each the label of the matching book number |
| Rows.LabelBooks | data/saxo_books/make_data.py:44-51 | the labelling loop keeps `class_data` aligned with `class_book` entry by entry |
| Rows.Assemble | data/saxo_books/make_data.py:36-42 | the three parallel lists have equal length: the total number of slices over all books |
| Rows.AppendBook | data/saxo_books/make_data.py:39-42 | the inner loop appends, for each slice of one book, the book number, the slice index counting from 0, and the slice |
| Rows.Flatten | data/saxo_books/make_data.py:36-42 | the nested loops build exactly the reference columns |
| Rows.AssembleRowAt | data/saxo_books/make_data.py:38-42 | slice `ii` of book position `i` sits at the number of slices before that book plus `ii`, with book number `i + 1` and slice index `ii` |
| Rows.AssembleRowOf | data/saxo_books/make_data.py:38-42 | every entry has a book number between 1 and the number of books, a slice index within that book, and the content of that slice, at the position above |
| Rows.BookStartMonotone | data/saxo_books/make_data.py:38-42 | a later book's rows start no earlier than an earlier book's rows end |
| Rows.PositionOrder | data/saxo_books/make_data.py:38-42 | an earlier position holds an earlier book, or the same book and a smaller slice index |
| Rows.FlatRows | data/saxo_books/make_data.py:36-57 | the table has one record per slice over all books |
| Rows.FlatRowAt | data/saxo_books/make_data.py:38-57 | the record of slice `ii` of book position `i` has book `i + 1`, that number's label, slice index `ii`, and the slice's content |
| Rows.FlatRowOf | data/saxo_books/make_data.py:38-57 | every record is the record of exactly one slice of one book, labelled from its own book number |
| Rows.RowsOrdered | data/saxo_books/make_data.py:38-42 | rows are grouped by book in input order, and slice indices strictly increase within a book |
| Rows.BookBlock | data/saxo_books/make_data.py:38-42 | a book's rows form one contiguous block, and within it `slice_id` runs 0, 1, …, k-1 with no gap or repeat |
| SliceBuilder.BookTokens | data/saxo_books/make_data.py:25-27 | the tokens of a lower-cased, cleaned book text are longer than `eta` and made of word characters |
| SliceBuilder.TokenLists | data/saxo_books/make_data.py:22-27 | one token list per book, in input order, each well-formed |
| SliceBuilder.BuildDb | data/saxo_books/make_data.py:22-34 | the per-book loop, windowing with the `range` loop and joining, builds exactly `db` |
| SliceBuilder.RowsOf | data/saxo_books/make_data.py:36-57 | the output has as many rows as there are windows over all books |
| SliceBuilder.RowsOfAt | data/saxo_books/make_data.py:28-57 | window `ii` of book position `i` becomes a row with book `i + 1`, that number's label, slice index `ii`, and the window's tokens joined by spaces |
| SliceBuilder.RowsOfOf | data/saxo_books/make_data.py:28-57 | every row is exactly one window of one book, with the label of its own book number |
| SliceBuilder.BuildRowsAt | data/saxo_books/make_data.py:22-57 | from the book texts: the row of window `ii` of book position `i` has book `i + 1`, slice index `ii`, and content that re-tokenises to exactly that window of the book's tokens |
| SliceBuilder.SlicesNonEmpty | data/saxo_books/make_data.py:30-32 | no window is empty |
| SliceBuilder.ChunkWellFormed | data/saxo_books/make_data.py:27-32 | windows of well-formed tokens hold only well-formed tokens |
| SliceBuilder.WindowRoundTrip | data/saxo_books/make_data.py:26-34 | a window's joined content re-tokenises, and splits on spaces, to exactly that window |
| SliceBuilder.ContentRoundTrip | data/saxo_books/make_data.py:26-42 | the content of every output row re-tokenises, and splits on spaces, to exactly the tokens of the window it came from |
| SliceBuilder.EmptyBookNoRows | data/saxo_books/make_data.py:30-42 | a book with no surviving tokens contributes no row |
| SliceBuilder.ChunksOf260 | data/saxo_books/make_data.py:30-32 | 260 tokens make two windows, of 250 and 10 tokens |
| SliceBuilder.TwoBooksOfTwoSlices | data/saxo_books/make_data.py:36-51 | two books of two windows give four rows: book 1 slices 0 and 1, then book 2 slices 0 and 1, all early |
| SliceBuilder.TwoBooksOf260 | data/saxo_books/make_data.py:28-51 | two books of 260 tokens give those four rows, with windows of 250 and 10 tokens |

## Left out

- File discovery (`glob`, `natsort`, lines 15-16) and the unused `titles`: the model takes the books as an already ordered list of texts, and the book number is the position in that list.
- Reading the files (lines 23-24): I/O; each book's text is an input string.
- The pandas DataFrame and `to_csv` (lines 53-59): foreign library calls. The model stops at the list of four-field records (`Rows.Row`), and `Rows.Header` names the columns in order.
- The unused counter `flag` (lines 29, 33) and the unused `book_flag` (line 37).
- Python's Unicode tables: `\w`, `\d` and `str.lower` are parameters (`Chars.CharTables`). The general lemmas assume only that the space character is not a word character; the worked examples in `TokenExamples` also assume that `a`, `b`, `c` and `d` are word characters. `str.lower` is treated as a whole-text function about which nothing is assumed, since Python's lower-casing can change the length of the text and depends on context.
- SliceBuilder.BuildRows: the end-to-end composition has no contract of its own. `SliceBuilder.BuildRowsAt` states its round trip per window. Its other properties are the `RowsOf…` and `ContentRoundTrip` lemmas about `RowsOf`, instantiated with `TokenLists`, whose ensures discharge their requirements.
- Rows.LabelsFor: the chain's fall-through case (no branch fires, nothing appended) is modelled, and its contract proves it never happens. The script appends nothing in that case; the chain is total on all integers, not only the positive ones.
- Dafny strings are sequences of Unicode scalar values; a Python `str` may also hold lone surrogate code points, which the script's read of the book files (line 23, the default strict decoding) never produces. No byte encoding is modelled.
