/** A catalogued book and its two-state availability machine
    (Available / Borrowed). Borrowing and returning are pure functions that
    return the updated book together with the outcome the program reports. */
module Books {
  import opened Text

  /** `id`, `title` and `author` are fixed at construction; only
      `available` ever changes. */
  datatype Book = Book(id: Int32, title: string, author: string, available: bool)

  /** What a borrow or return call reports. `NotAvailable` is the message of
      the user-level borrow path; the other three come from the book itself. */
  datatype Outcome = Borrowed | AlreadyBorrowed | NotAvailable | Returned

  /** The book after an operation, with what the operation reported. */
  datatype Step = Step(book: Book, outcome: Outcome)

  /** Everything but the availability flag agrees. */
  predicate SameRecord(a: Book, b: Book) {
    a.id == b.id && a.title == b.title && a.author == b.author
  }

  /** A freshly constructed book is on the shelf. */
  function NewBook(id: Int32, title: string, author: string): (b: Book)
    ensures b.available
    ensures b.id == id && b.title == title && b.author == author
  {
    Book(id, title, author, true)
  }

  /** The availability query predicts the borrow: a borrow succeeds exactly
      when the query answers yes, and otherwise leaves the book as it is. */
  predicate IsAvailable(b: Book)
    ensures IsAvailable(b) <==> Borrow(b).outcome == Borrowed
    ensures !IsAvailable(b) <==> Borrow(b).book == b
  {
    b.available
  }

  /** After a borrow the book is always out; the outcome tells whether this
      call took it out or found it already gone, and in the latter case
      nothing changed. */
  function Borrow(b: Book): (r: Step)
    ensures SameRecord(b, r.book)
    ensures !r.book.available
    ensures r.outcome == Borrowed <==> b.available
    ensures !b.available ==> r.outcome == AlreadyBorrowed && r.book == b
  {
    if b.available then Step(b.(available := false), Borrowed)
    else Step(b, AlreadyBorrowed)
  }

  /** Returning puts the book back whatever its prior state. */
  function Return(b: Book): (r: Step)
    ensures SameRecord(b, r.book)
    ensures r.book.available
    ensures r.outcome == Returned
  {
    Step(b.(available := true), Returned)
  }

  /** The line the program prints for an outcome on a book with this title.
      The three messages the book itself prints name the title at a fixed
      place; the user-level "not available" line does not name it. */
  function Message(o: Outcome, title: string): (r: string)
    ensures (o == Borrowed || o == Returned) ==> |r| == 15 + |title| && r[15..] == title
    ensures o == AlreadyBorrowed ==> |r| == 28 + |title| && r[7..7 + |title|] == title
    ensures o == NotAvailable ==> |r| == 40
  {
    match o
    case Borrowed => "Book borrowed: " + title
    case AlreadyBorrowed => "Sorry, " + title + " is already borrowed."
    case NotAvailable => "The book is not available for borrowing."
    case Returned => "Book returned: " + title
  }

  const IdLabel := "Book ID: "

  /** The display line of a book: it opens with the id label and ends in
      "true" exactly when the book is on the shelf. */
  function BookToString(b: Book): (r: string)
    ensures |r| >= |IdLabel| + 4 && r[..|IdLabel|] == IdLabel
    ensures b.available <==> r[|r| - 4..] == "true"
  {
    var front := IdLabel + IntToString(b.id) + ", Title: " + b.title + ", Author: " + b.author
                 + ", Available: ";
    var line := front + BoolToString(b.available);
    assert line[|line| - 4..] == (if b.available then "true" else "alse");
    line
  }

  /** Returning twice is the same as returning once. */
  lemma ReturnIdempotent(b: Book)
    ensures Return(Return(b).book) == Return(b)
  {
  }

  /** Borrowing an available book and returning it restores it exactly. */
  lemma BorrowThenReturnRestores(b: Book)
    requires b.available
    ensures Return(Borrow(b).book).book == b
  {
  }

  /** Two borrows in a row: the second finds the book gone and changes nothing. */
  lemma BorrowTwice(b: Book)
    requires b.available
    ensures Borrow(b).outcome == Borrowed
    ensures Borrow(Borrow(b).book).outcome == AlreadyBorrowed
    ensures Borrow(Borrow(b).book).book == Borrow(b).book
  {
  }

  /** The printed line identifies the outcome: different outcomes on the same
      book never print the same line. */
  lemma MessagesDistinct(o1: Outcome, o2: Outcome, title: string)
    requires o1 != o2
    ensures Message(o1, title) != Message(o2, title)
  {
    var m1, m2 := Message(o1, title), Message(o2, title);
    assert m1[0] != m2[0] || m1[5] != m2[5];
  }

  /** The display line shows the book's id right after its label. */
  lemma BookLineShowsId(b: Book)
    ensures ReadLeadingInt(BookToString(b)[|IdLabel|..]) == Some(b.id as int)
  {
    var rest := ", Title: " + b.title + ", Author: " + b.author
                + ", Available: " + BoolToString(b.available);
    assert BookToString(b) == IdLabel + (IntToString(b.id) + rest);
    assert BookToString(b)[|IdLabel|..] == IntToString(b.id) + rest;
    ReadIntToString(b.id, rest);
  }

  /** A scripted operation on one book. */
  datatype Op = BorrowOp | ReturnOp

  function Apply(b: Book, op: Op): Step {
    match op
    case BorrowOp => Borrow(b)
    case ReturnOp => Return(b)
  }

  /** Runs `ops` in order on `b`: the final book and the outcome of each call.
      Whatever happens, only the availability flag can differ. */
  function Run(b: Book, ops: seq<Op>): (r: (Book, seq<Outcome>))
    ensures SameRecord(b, r.0)
    ensures |r.1| == |ops|
    decreases |ops|
  {
    if |ops| == 0 then (b, [])
    else
      var s := Apply(b, ops[0]);
      var rest := Run(s.book, ops[1..]);
      (rest.0, [s.outcome] + rest.1)
  }

  /** After a non-empty run the book is available exactly when the last
      operation was a return. */
  lemma {:induction false} RunEndsWithLastOp(b: Book, ops: seq<Op>)
    requires |ops| > 0
    ensures Run(b, ops).0.available <==> ops[|ops| - 1] == ReturnOp
    decreases |ops|
  {
    if |ops| > 1 {
      RunEndsWithLastOp(Apply(b, ops[0]).book, ops[1..]);
    }
  }

  /** A book cannot be taken out twice without a return in between: in any
      run, the successful borrows number at most the returns, plus one if the
      book started on the shelf. */
  lemma {:induction false} RunBorrowsBounded(b: Book, ops: seq<Op>)
    ensures var outs := Run(b, ops).1;
      multiset(outs)[Borrowed] <= multiset(outs)[Returned] + (if b.available then 1 else 0)
    decreases |ops|
  {
    if |ops| > 0 {
      var s := Apply(b, ops[0]);
      RunBorrowsBounded(s.book, ops[1..]);
      var rest := Run(s.book, ops[1..]).1;
      assert Run(b, ops).1 == [s.outcome] + rest;
      assert multiset([s.outcome] + rest) == multiset([s.outcome]) + multiset(rest);
    }
  }
}
