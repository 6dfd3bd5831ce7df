/** The library registry: the ordered list of every book and every user,
    passed around as a value rather than held in a process-wide singleton.
    Books are addressed by their position in the list. */
module Registry {
  import opened Books
  import opened Users

  datatype Library = Library(books: seq<Book>, users: seq<User>)

  /** The registry as first created: nothing registered yet. */
  const Empty := Library([], [])

  /** Registering a book appends it after every earlier one and touches
      nothing else; there is no duplicate check. */
  function AddBook(lib: Library, b: Book): (r: Library)
    ensures |r.books| == |lib.books| + 1
    ensures r.books[..|lib.books|] == lib.books
    ensures r.books[|lib.books|] == b
    ensures r.users == lib.users
  {
    lib.(books := lib.books + [b])
  }

  /** Registering a user appends it after every earlier one and touches
      nothing else. */
  function AddUser(lib: Library, u: User): (r: Library)
    ensures |r.users| == |lib.users| + 1
    ensures r.users[..|lib.users|] == lib.users
    ensures r.users[|lib.users|] == u
    ensures r.books == lib.books
  {
    lib.(users := lib.users + [u])
  }

  /** One display line per entry, in order. */
  function Lines<T>(xs: seq<T>, render: T -> string): (ls: seq<string>)
    ensures |ls| == |xs|
    ensures forall i :: 0 <= i < |xs| ==> ls[i] == render(xs[i])
    decreases |xs|
  {
    if |xs| == 0 then [] else Lines(xs[..|xs| - 1], render) + [render(xs[|xs| - 1])]
  }

  const BooksHeader := "\nLibrary Books:"
  const UsersHeader := "\nLibrary Users:"

  /** The book listing: the header, then each book's display line in the
      order the books were registered. */
  function ListBooks(lib: Library): (out: seq<string>)
    ensures |out| == |lib.books| + 1
    ensures out[0] == BooksHeader
    ensures forall i :: 0 <= i < |lib.books| ==> out[i + 1] == BookToString(lib.books[i])
  {
    [BooksHeader] + Lines(lib.books, BookToString)
  }

  /** The user listing: the header, then each user's display line in the
      order the users were registered. */
  function ListUsers(lib: Library): (out: seq<string>)
    ensures |out| == |lib.users| + 1
    ensures out[0] == UsersHeader
    ensures forall i :: 0 <= i < |lib.users| ==> out[i + 1] == UserToString(lib.users[i])
  {
    [UsersHeader] + Lines(lib.users, UserToString)
  }

  /** A librarian's book report: an announcement, then the book listing of
      the registry it is given. */
  function BookReport(lib: Library): (out: seq<string>)
    ensures |out| == |lib.books| + 2
    ensures out[0] == "Generating book report..."
    ensures out[1..] == ListBooks(lib)
  {
    ["Generating book report..."] + ListBooks(lib)
  }

  /** A librarian's user report: an announcement, then the user listing of
      the registry it is given. */
  function UserReport(lib: Library): (out: seq<string>)
    ensures |out| == |lib.users| + 2
    ensures out[0] == "Generating user report..."
    ensures out[1..] == ListUsers(lib)
  {
    ["Generating user report..."] + ListUsers(lib)
  }

  /** Same books in the same order with the same id, title and author each,
      and the same users: the registry differs at most in availability flags. */
  predicate SameCatalog(a: Library, b: Library) {
    && |a.books| == |b.books|
    && (forall i :: 0 <= i < |a.books| ==> SameRecord(a.books[i], b.books[i]))
    && a.users == b.users
  }

  /** The registry after a registered book is borrowed through `u`, with the
      outcome. Only that book can change, and only in its availability. */
  function BorrowAt(lib: Library, u: User, i: nat): (r: (Library, Outcome))
    requires i < |lib.books|
    ensures SameCatalog(lib, r.0)
    ensures forall j :: 0 <= j < |lib.books| && j != i ==> r.0.books[j] == lib.books[j]
    ensures r.0.books[i] == BorrowBook(u, lib.books[i]).book
    ensures r.1 == BorrowBook(u, lib.books[i]).outcome
  {
    var s := BorrowBook(u, lib.books[i]);
    (lib.(books := lib.books[i := s.book]), s.outcome)
  }

  /** The registry after a registered book is returned through `u`, with the
      outcome. Only that book can change, and it ends up available. */
  function ReturnAt(lib: Library, u: User, i: nat): (r: (Library, Outcome))
    requires i < |lib.books|
    ensures SameCatalog(lib, r.0)
    ensures forall j :: 0 <= j < |lib.books| && j != i ==> r.0.books[j] == lib.books[j]
    ensures r.0.books[i].available
    ensures r.1 == Returned
  {
    var s := ReturnBook(u, lib.books[i]);
    (lib.(books := lib.books[i := s.book]), s.outcome)
  }

  /** Registering a book extends the book listing by exactly that book's
      line and leaves the user listing alone. */
  lemma ListAfterAddBook(lib: Library, b: Book)
    ensures ListBooks(AddBook(lib, b)) == ListBooks(lib) + [BookToString(b)]
    ensures ListUsers(AddBook(lib, b)) == ListUsers(lib)
  {
  }

  /** Registering a user extends the user listing by exactly that user's
      line and leaves the book listing alone. */
  lemma ListAfterAddUser(lib: Library, u: User)
    ensures ListUsers(AddUser(lib, u)) == ListUsers(lib) + [UserToString(u)]
    ensures ListBooks(AddUser(lib, u)) == ListBooks(lib)
  {
  }

  /** Registers the books of `bs` one after another. */
  function AddBooks(lib: Library, bs: seq<Book>): (r: Library)
    ensures r.users == lib.users
    decreases |bs|
  {
    if |bs| == 0 then lib else AddBooks(AddBook(lib, bs[0]), bs[1..])
  }

  /** Registering books one after another keeps the earlier books and
      appends the new ones in the order they were registered. */
  lemma {:induction false} AddBooksKeepsOrder(lib: Library, bs: seq<Book>)
    ensures AddBooks(lib, bs).books == lib.books + bs
    decreases |bs|
  {
    if |bs| > 0 {
      AddBooksKeepsOrder(AddBook(lib, bs[0]), bs[1..]);
      assert lib.books + [bs[0]] + bs[1..] == lib.books + bs;
    }
  }
}
