/** Row assembly: the per-book lists of slice contents flattened into the
    parallel columns `class_book`, `class_slice` and `data`, and the
    early/uncertain/late label derived from each book number.
    Line numbers in these comments refer to `data/saxo_books/make_data.py`. */
module Rows {

  /** The period label written to the `book_class` column. */
  datatype Label = Early | Uncertain | Late
  {
    /** The label as it appears in the table. */
    function Name(): string
    {
      match this
      case Early => "early"
      case Uncertain => "uncertain"
      case Late => "late"
    }

    /** Position of the label in time. */
    function Rank(): nat
    {
      match this
      case Early => 0
      case Uncertain => 1
      case Late => 2
    }
  }

  /** The last book number labelled early. */
  const LastEarlyBook: int := 8

  /** The one book number labelled uncertain. */
  const UncertainBook: int := 9

  /** Lines 46-51 for one book number: what the `if`/`elif`/`elif` chain
      appends to `class_data`. The chain has no `else`, yet exactly one of
      its branches fires for every integer. */
  function LabelsFor(book: int): (r: seq<Label>)
    ensures |r| == 1
  {
    if book <= LastEarlyBook then [Early]
    else if book == UncertainBook then [Uncertain]
    else if book > UncertainBook then [Late]
    else []
  }

  /** The single label the chain appends for `book`. */
  function Classify(book: int): (l: Label)
    ensures l == Early <==> book <= 8
    ensures l == Uncertain <==> book == 9
    ensures l == Late <==> book > 9
  {
    LabelsFor(book)[0]
  }

  /** Lines 47-51: the string the chain writes for a book number. */
  lemma ClassifyName(book: int)
    ensures Classify(book).Name()
      == if book <= 8 then "early" else if book == 9 then "uncertain" else "late"
  {
  }

  /** Labels never go back in time as the book number grows. */
  lemma ClassifyMonotone(a: int, b: int)
    requires a <= b
    ensures Classify(a).Rank() <= Classify(b).Rank()
  {
  }

  /** Lines 44-51: `class_data`, one label per entry of `class_book`. It
      stays aligned with `class_book` entry by entry. */
  function ClassData(books: seq<int>): (r: seq<Label>)
    ensures |r| == |books|
    ensures forall k :: 0 <= k < |r| ==> r[k] == Classify(books[k])
    decreases |books|
  {
    if books == [] then [] else LabelsFor(books[0]) + ClassData(books[1..])
  }

  /** Lines 44-51 as written: the loop over `class_book` appending what the
      chain yields for each entry. */
  method LabelBooks(classBook: seq<int>) returns (classData: seq<Label>)
    ensures |classData| == |classBook|
    ensures forall k :: 0 <= k < |classBook| ==> classData[k] == Classify(classBook[k])
  {
    classData := [];
    var k := 0;
    while k < |classBook|
      invariant k <= |classBook|
      invariant |classData| == k
      invariant forall m :: 0 <= m < k ==> classData[m] == Classify(classBook[m])
    {
      classData := classData + LabelsFor(classBook[k]);
      k := k + 1;
    }
  }

  /** The three parallel lists of lines 36-42. */
  datatype Columns = Columns(book: seq<int>, sliceId: seq<int>, content: seq<string>)

  /** The number of slices over all books of `db`. */
  function TotalSlices(db: seq<seq<string>>): nat
    decreases |db|
  {
    if db == [] then 0 else TotalSlices(db[..|db| - 1]) + |db[|db| - 1]|
  }

  /** The row index at which the rows of the book at position `i` begin:
      the number of slices of the books before it. */
  function BookStart(db: seq<seq<string>>, i: nat): nat
    requires i <= |db|
  {
    TotalSlices(db[..i])
  }

  /** Each book starts where the previous one ends. */
  lemma BookStartStep(db: seq<seq<string>>, i: nat)
    requires i < |db|
    ensures BookStart(db, i + 1) == BookStart(db, i) + |db[i]|
  {
    assert db[..i + 1][..i] == db[..i];
  }

  /** With two books of two slices each, the books start at rows 0 and 2
      and there are four rows in all. */
  lemma TwoBookStarts(db: seq<seq<string>>)
    requires |db| == 2 && |db[0]| == 2 && |db[1]| == 2
    ensures BookStart(db, 0) == 0 && BookStart(db, 1) == 2 && TotalSlices(db) == 4
  {
    BookStartStep(db, 0);
    BookStartStep(db, 1);
    assert db[..0] == [] && db[..2] == db;
  }

  /** Dropping later books does not move the start of an earlier one. */
  lemma BookStartPrefix(db: seq<seq<string>>, n: nat, i: nat)
    requires i <= n <= |db|
    ensures BookStart(db[..n], i) == BookStart(db, i)
  {
    assert db[..n][..i] == db[..i];
  }

  /** A later book starts no earlier than an earlier book ends. */
  lemma {:induction false} BookStartMonotone(db: seq<seq<string>>, i: nat, i': nat)
    requires i < i' <= |db|
    ensures BookStart(db, i) + |db[i]| <= BookStart(db, i')
    decreases i' - i
  {
    BookStartStep(db, i);
    if i + 1 < i' {
      BookStartMonotone(db, i + 1, i');
    }
  }

  /** Lines 36-42: for every book in order, and every slice of it in order,
      one entry in each column. */
  function Assemble(db: seq<seq<string>>): (c: Columns)
    ensures |c.book| == |c.sliceId| == |c.content| == TotalSlices(db)
    decreases |db|
  {
    if db == [] then Columns([], [], [])
    else
      var n := |db| - 1;
      var front := Assemble(db[..n]);
      var last := db[n];
      Columns(front.book + seq(|last|, _ => n + 1),
              front.sliceId + seq(|last|, ii => ii),
              front.content + last)
  }

  /** Lines 39-42 for the book at position `i`: one entry per slice appended
      to each column, in slice order. */
  method AppendBook(c: Columns, i: nat, book: seq<string>) returns (c': Columns)
    ensures c'.book == c.book + seq(|book|, _ => i + 1)
    ensures c'.sliceId == c.sliceId + seq(|book|, k => k)
    ensures c'.content == c.content + book
  {
    c' := c;
    var ii := 0;
    while ii < |book|
      invariant ii <= |book|
      invariant c'.book == c.book + seq(ii, _ => i + 1)
      invariant c'.sliceId == c.sliceId + seq(ii, k => k)
      invariant c'.content == c.content + book[..ii]
    {
      assert seq(ii + 1, _ => i + 1) == seq(ii, _ => i + 1) + [i + 1];
      assert seq(ii + 1, k => k) == seq(ii, k => k) + [ii];
      assert book[..ii + 1] == book[..ii] + [book[ii]];
      c' := Columns(c'.book + [i + 1], c'.sliceId + [ii], c'.content + [book[ii]]);
      ii := ii + 1;
    }
    assert book[..ii] == book;
  }

  /** Lines 38-42 as written: the outer `enumerate` loop over the books; it
      computes exactly `Assemble`. */
  method Flatten(db: seq<seq<string>>) returns (c: Columns)
    ensures c == Assemble(db)
  {
    c := Columns([], [], []);
    var i := 0;
    while i < |db|
      invariant i <= |db|
      invariant c == Assemble(db[..i])
    {
      c := AppendBook(c, i, db[i]);
      assert db[..i + 1][..i] == db[..i] && db[..i + 1][i] == db[i];
      i := i + 1;
    }
    assert db[..|db|] == db;
  }

  /** The row at `BookStart(db, i) + ii` holds book number `i + 1`, slice
      index `ii` and the content of that slice. */
  lemma {:induction false} AssembleRowAt(db: seq<seq<string>>, i: nat, ii: nat)
    requires i < |db| && ii < |db[i]|
    ensures BookStart(db, i) + ii < TotalSlices(db)
    ensures Assemble(db).book[BookStart(db, i) + ii] == i + 1
    ensures Assemble(db).sliceId[BookStart(db, i) + ii] == ii
    ensures Assemble(db).content[BookStart(db, i) + ii] == db[i][ii]
    decreases |db|
  {
    var n := |db| - 1;
    var front := Assemble(db[..n]);
    if i < n {
      BookStartPrefix(db, n, i);
      BookStartMonotone(db, i, n);
      assert db[..n][i] == db[i];
      AssembleRowAt(db[..n], i, ii);
    } else {
      assert BookStart(db, n) == |front.book|;
    }
  }

  /** Conversely, every row is the row of some slice of some book, at the
      place `AssembleRowAt` gives it. */
  lemma {:induction false} AssembleRowOf(db: seq<seq<string>>, j: nat)
    requires j < TotalSlices(db)
    ensures 1 <= Assemble(db).book[j] <= |db|
    ensures 0 <= Assemble(db).sliceId[j] < |db[Assemble(db).book[j] - 1]|
    ensures j == BookStart(db, Assemble(db).book[j] - 1) + Assemble(db).sliceId[j]
    ensures Assemble(db).content[j] == db[Assemble(db).book[j] - 1][Assemble(db).sliceId[j]]
    decreases |db|
  {
    var n := |db| - 1;
    var front := Assemble(db[..n]);
    if j < |front.book| {
      AssembleRowOf(db[..n], j);
      var b := front.book[j];
      BookStartPrefix(db, n, b - 1);
      assert db[..n][b - 1] == db[b - 1];
    } else {
      assert BookStart(db, n) == |front.book|;
    }
  }

  /** Distinct positions in the flattened order belong to distinct slices,
      and earlier positions to earlier slices. */
  lemma PositionOrder(db: seq<seq<string>>, i: nat, ii: nat, i': nat, ii': nat)
    requires i < |db| && ii < |db[i]| && i' < |db| && ii' < |db[i']|
    requires BookStart(db, i) + ii < BookStart(db, i') + ii'
    ensures i < i' || (i == i' && ii < ii')
  {
    if i' < i {
      BookStartMonotone(db, i', i);
    }
  }

  /** One output record: the four columns `book`, `book_class`, `slice_id`
      and `content`, in that order. */
  datatype Row = Row(book: int, bookClass: Label, sliceId: int, content: string)

  /** The column names of the table, in order. */
  const Header: seq<string> := ["book", "book_class", "slice_id", "content"]

  /** Lines 53-57: the table built from the columns and the label list, one
      record per index. */
  function Table(c: Columns, labels: seq<Label>): seq<Row>
    requires |c.sliceId| == |c.content| == |labels| == |c.book|
  {
    seq(|c.book|, j requires 0 <= j < |c.book| =>
      Row(c.book[j], labels[j], c.sliceId[j], c.content[j]))
  }

  /** Lines 36-57 for the per-book slice contents `db`: the records of the
      output table, book number, label, slice index and content. */
  function FlatRows(db: seq<seq<string>>): (rows: seq<Row>)
    ensures |rows| == TotalSlices(db)
  {
    var c := Assemble(db);
    Table(c, ClassData(c.book))
  }

  /** The record of slice `ii` of the book at position `i`: book number
      `i + 1`, the label of that number, slice index `ii` and the slice. */
  lemma FlatRowAt(db: seq<seq<string>>, i: nat, ii: nat)
    requires i < |db| && ii < |db[i]|
    ensures BookStart(db, i) + ii < |FlatRows(db)|
    ensures FlatRows(db)[BookStart(db, i) + ii] == Row(i + 1, Classify(i + 1), ii, db[i][ii])
  {
    AssembleRowAt(db, i, ii);
    var c := Assemble(db);
    var j := BookStart(db, i) + ii;
    assert ClassData(c.book)[j] == Classify(i + 1);
    assert FlatRows(db)[j] == Row(c.book[j], ClassData(c.book)[j], c.sliceId[j], c.content[j]);
  }

  /** Every record is the record of one slice of one book: the record at
      `j` is slice `ii` of the book at position `i`, placed where `FlatRowAt`
      puts it. */
  lemma {:induction false} FlatRowOf(db: seq<seq<string>>, j: nat) returns (i: nat, ii: nat)
    requires j < TotalSlices(db)
    ensures i < |db| && ii < |db[i]| && j == BookStart(db, i) + ii
    ensures FlatRows(db)[j].book == i + 1 && FlatRows(db)[j].sliceId == ii
    ensures FlatRows(db)[j].bookClass == Classify(i + 1)
    ensures FlatRows(db)[j].content == db[i][ii]
  {
    AssembleRowOf(db, j);
    var c := Assemble(db);
    i, ii := c.book[j] - 1, c.sliceId[j];
    var labels := ClassData(c.book);
    assert labels[j] == Classify(i + 1);
    assert FlatRows(db)[j] == Row(i + 1, labels[j], ii, c.content[j]);
  }

  /** Rows are grouped by book in input order, and within a book ordered by
      strictly increasing slice index. */
  lemma RowsOrdered(db: seq<seq<string>>, j: nat, j': nat)
    requires j < j' < TotalSlices(db)
    ensures || FlatRows(db)[j].book < FlatRows(db)[j'].book
            || (FlatRows(db)[j].book == FlatRows(db)[j'].book
                && FlatRows(db)[j].sliceId < FlatRows(db)[j'].sliceId)
  {
    var i, ii := FlatRowOf(db, j);
    var i', ii' := FlatRowOf(db, j');
    PositionOrder(db, i, ii, i', ii');
  }

  /** The rows of the book at position `i` are one contiguous block starting
      at `BookStart(db, i)`, and the slice index runs `0, 1, ..., k - 1`
      through it, where `k` is the number of slices of that book. */
  lemma BookBlock(db: seq<seq<string>>, i: nat, j: nat)
    requires i < |db| && j < TotalSlices(db)
    ensures FlatRows(db)[j].book == i + 1
      <==> BookStart(db, i) <= j < BookStart(db, i) + |db[i]|
    ensures FlatRows(db)[j].book == i + 1 ==> FlatRows(db)[j].sliceId == j - BookStart(db, i)
  {
    var i0, ii0 := FlatRowOf(db, j);
    if i0 < i {
      BookStartMonotone(db, i0, i);
    } else if i < i0 {
      BookStartMonotone(db, i, i0);
    }
  }
}
