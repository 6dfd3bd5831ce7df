/** The program's scripted demonstration, replayed on the model: two books
    and two users are registered, the patron borrows and returns the first
    book, and the librarian prints both reports. */
module Scenarios {
  import opened Text
  import opened Books
  import opened Users
  import opened Registry

  const Gatsby := NewBook(1, "The Great Gatsby", "F. Scott Fitzgerald")
  const Orwell := NewBook(2, "1984", "George Orwell")
  const Alok := User("Alok", 24, 105, Patron)
  const Ram := User("Mr. Ram", 40, 200, Librarian)

  /** The registry once both books and both users are registered. */
  const Populated := AddUser(AddUser(AddBook(AddBook(Empty, Gatsby), Orwell), Alok), Ram)

  /** The patron borrows and then returns the first book: the registry
      afterwards and the two printed lines. */
  function BorrowAndReturn(lib: Library): (Library, seq<string>)
    requires |lib.books| > 0
  {
    var borrowed := BorrowAt(lib, Alok, 0);
    var returned := ReturnAt(borrowed.0, Alok, 0);
    (returned.0, [Message(borrowed.1, lib.books[0].title), Message(returned.1, lib.books[0].title)])
  }

  /** The registry and the printed strings (one per `println` call) at the
      end of the demonstration. The borrow and the return cancel out, so the
      registry ends as it was populated. */
  function Demo(): (r: (Library, seq<string>))
    ensures r.0 == Populated
    ensures |r.1| == 5 + (|Populated.books| + 2) + (|Populated.users| + 2)
  {
    BorrowAndReturnRestores();
    var (lib, messages) := BorrowAndReturn(Populated);
    (lib,
     ["\n--- Patron borrowing a book ---", messages[0],
      "--- Patron returning a book ---", messages[1],
      "\n--- Librarian generating reports ---"]
     + BookReport(lib) + UserReport(lib))
  }

  /* The expected display lines. The solver does not settle an equality
     between a long concatenation and one long string literal on its own, so
     the longer book lines are written as two literals, and the lemmas below
     regroup the rendering into those halves step by step. */
  const GatsbyLine := "Book ID: 1, Title: The Great Gatsby" + ", Author: F. Scott Fitzgerald, Available: true"
  const OrwellLine := "Book ID: 2, Title: 1984" + ", Author: George Orwell, Available: true"
  const AlokLine := "User ID: 105, Name: Alok, Age: 24"
  const RamLine := "User ID: 200, Name: Mr. Ram, Age: 40"

  /** The numbers the demonstration prints, rendered. */
  lemma RenderBookIds()
    ensures IntToString(1) == "1" && IntToString(2) == "2"
  {
    assert DigitChar(1) == '1' && DigitChar(2) == '2';
  }

  lemma RenderUserNumbers()
    ensures IntToString(24) == "24" && IntToString(40) == "40"
    ensures IntToString(105) == "105" && IntToString(200) == "200"
  {
    assert DigitChar(0) == '0' && DigitChar(1) == '1' && DigitChar(2) == '2';
    assert DigitChar(4) == '4' && DigitChar(5) == '5';
    assert NatToString(10) == "10";
    assert NatToString(20) == "20";
  }

  lemma GatsbyFields()
    ensures BookToString(Gatsby) == "Book ID: " + "1" + ", Title: " + "The Great Gatsby"
      + ", Author: " + "F. Scott Fitzgerald" + ", Available: " + "true"
  {
    RenderBookIds();
  }

  /** Regrouping an eight-piece concatenation into two halves. */
  lemma Regroup(a: string, b: string, c: string, d: string,
                e: string, f: string, g: string, h: string)
    ensures a + b + c + d + e + f + g + h == (a + b + c + d) + (e + f + g + h)
  {
  }

  lemma GatsbyHead()
    ensures "Book ID: " + "1" + ", Title: " + "The Great Gatsby" == "Book ID: 1, Title: The Great Gatsby"
  {
  }

  lemma GatsbyTail()
    ensures ", Author: " + "F. Scott Fitzgerald" + ", Available: " + "true"
      == ", Author: F. Scott Fitzgerald, Available: true"
  {
  }

  lemma GatsbyPieces()
    ensures "Book ID: " + "1" + ", Title: " + "The Great Gatsby"
      + ", Author: " + "F. Scott Fitzgerald" + ", Available: " + "true" == GatsbyLine
  {
    Regroup("Book ID: ", "1", ", Title: ", "The Great Gatsby",
            ", Author: ", "F. Scott Fitzgerald", ", Available: ", "true");
    GatsbyHead();
    GatsbyTail();
  }

  lemma GatsbyDisplay()
    ensures BookToString(Gatsby) == GatsbyLine
  {
    GatsbyFields();
    GatsbyPieces();
  }

  lemma OrwellFields()
    ensures BookToString(Orwell) == "Book ID: " + "2" + ", Title: " + "1984"
      + ", Author: " + "George Orwell" + ", Available: " + "true"
  {
    RenderBookIds();
  }

  lemma OrwellPieces()
    ensures "Book ID: " + "2" + ", Title: " + "1984"
      + ", Author: " + "George Orwell" + ", Available: " + "true" == OrwellLine
  {
    assert "Book ID: " + "2" + ", Title: " + "1984" == "Book ID: 2, Title: 1984";
    assert ", Author: " + "George Orwell" + ", Available: " + "true"
      == ", Author: George Orwell, Available: true";
  }

  lemma OrwellDisplay()
    ensures BookToString(Orwell) == OrwellLine
  {
    OrwellFields();
    OrwellPieces();
  }

  lemma AlokDisplay()
    ensures UserToString(Alok) == AlokLine
  {
    RenderUserNumbers();
  }

  lemma RamDisplay()
    ensures UserToString(Ram) == RamLine
  {
    RenderUserNumbers();
  }

  /** The patron's borrow succeeds, the return is reported, and the registry
      ends as it started. */
  lemma BorrowAndReturnRestores()
    ensures Populated.books == [Gatsby, Orwell] && Populated.users == [Alok, Ram]
    ensures BorrowAndReturn(Populated).0 == Populated
    ensures BorrowAndReturn(Populated).1
      == ["Book borrowed: The Great Gatsby", "Book returned: The Great Gatsby"]
  {
    assert Populated.books == [Gatsby, Orwell];
    var borrowed := BorrowAt(Populated, Alok, 0);
    assert borrowed.1 == Borrowed;
    assert Message(Borrowed, Gatsby.title) == "Book borrowed: The Great Gatsby";
    assert Message(Returned, Gatsby.title) == "Book returned: The Great Gatsby";
    var returned := ReturnAt(borrowed.0, Alok, 0);
    assert returned.0.books == Populated.books;
  }

  /** The full transcript of the demonstration, line by line. */
  lemma DemoTranscript()
    ensures Demo().0.books == [Gatsby, Orwell]
    ensures Demo().1 ==
      ["\n--- Patron borrowing a book ---",
       "Book borrowed: The Great Gatsby",
       "--- Patron returning a book ---",
       "Book returned: The Great Gatsby",
       "\n--- Librarian generating reports ---",
       "Generating book report...",
       "\nLibrary Books:",
       GatsbyLine,
       OrwellLine,
       "Generating user report...",
       "\nLibrary Users:",
       AlokLine,
       RamLine]
  {
    BorrowAndReturnRestores();
    GatsbyDisplay();
    OrwellDisplay();
    AlokDisplay();
    RamDisplay();
    assert ListBooks(Populated) == [BooksHeader, GatsbyLine, OrwellLine];
    assert ListUsers(Populated) == [UsersHeader, AlokLine, RamLine];
  }
}
