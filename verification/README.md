# Library management: a verified model

A Dafny model of a small library catalogue program (`Librabary.java`). The
program has three parts:

- **Books.** Each book has an id, a title, an author and an availability flag,
  which is set when the book is constructed. `borrow` takes an available book
  off the shelf. On a book that is already out it reports "already borrowed"
  and changes nothing. `returnBook` puts a book back whatever its state.
- **Users.** A user is a patron or a librarian. Both kinds borrow through the
  same availability check. They return by handing the book back to its own
  return. A librarian can also print a book report and a user report.
- **The registry.** It is an ordered list of every book and every user.
  Registering only appends. Listing prints a header, then one display line
  per entry, in registration order.

The model is functional:

- A book is an immutable value. Borrowing and returning return the new book
  together with an `Outcome` (`Borrowed`, `AlreadyBorrowed`, `NotAvailable`,
  `Returned`). `Books.Message` turns an outcome into the string the program
  prints for it.
- The registry is a value holding two sequences.
- Listings, reports and the demonstration return a list of strings, one
  element per `println` call. A header element keeps its leading `"\n"`, so
  it stands for a blank line followed by the header.
- The registry is passed explicitly. Books inside it are addressed by position.

Modules, one per component:

| file | module | contents |
|---|---|---|
| `text.dfy` | `Text` | Java `int`/`boolean` rendering, and a reader that recovers an integer from the front of a line |
| `books.dfy` | `Books` | `Book`, borrow/return, outcome messages, display line, runs of operations |
| `users.dfy` | `Users` | `User` with `Role` (`Patron` or `Librarian`), borrowing and returning through a user, display line |
| `registry.dfy` | `Registry` | `Library` registry: add, list, the librarian reports, borrow/return by position |
| `scenarios.dfy` | `Scenarios` | the program's scripted demonstration, replayed |

Two behaviours of the code worth stating plainly:

- A listing is the header element followed by one element per entry.
- Borrowing through a user never reports "already borrowed". An unavailable
  book gets the user's "not available" line instead (lines 74-78 and 96-100).

## Model

| member | source | states |
|---|---|---|
| `Books.NewBook` | Librabary.java:11-16 | a new book carries the given id, title and author and starts available |
| `Books.Borrow` | Librabary.java:22-29 | afterwards the book is always out; the outcome is `Borrowed` exactly when it was available; if it was already out, the outcome is `AlreadyBorrowed` and the book is unchanged; id, title and author never change |
| `Books.Return` | Librabary.java:31-34 | afterwards the book is available from either prior state, with outcome `Returned`; id, title and author never change |
| `Books.ReturnIdempotent` | Librabary.java:31-34 | returning twice has the same result as returning once |
| `Books.BorrowThenReturnRestores` | Librabary.java:22-34 | borrowing an available book and then returning it gives back exactly the original book |
| `Books.BorrowTwice` | Librabary.java:22-29 | of two borrows in a row on an available book, the first succeeds; the second reports already borrowed and changes nothing |
| `Books.MessagesDistinct` | Librabary.java:22-34 | on the same title, different outcomes never print the same line, so the printed line determines the outcome |
| `Books.BookLineShowsId` | Librabary.java:38 | reading an integer right after "Book ID: " in a book's display line gives back the book's id |
| `Books.BookToString` | Librabary.java:36-39 | a book's display line opens with "Book ID: " and ends in "true" exactly when the book is available |
| `Books.IsAvailable` | Librabary.java:18-20 | the availability query answers yes exactly when a borrow would succeed, and no exactly when a borrow would leave the book unchanged |
| `Books.Message` | Librabary.java:22-34 | "Book borrowed: " and "Book returned: " lines carry the title right after their 15-character prefix; the "already borrowed" line carries it after "Sorry, "; the user-level "not available" line has a fixed 40 characters |
| `Books.Run` | Librabary.java:22-34 | any sequence of borrows and returns leaves id, title and author unchanged and reports one outcome per call |
| `Books.RunEndsWithLastOp` | Librabary.java:22-34 | after a non-empty sequence of operations, the book is available exactly when the last operation was a return |
| `Books.RunBorrowsBounded` | Librabary.java:22-34 | in any sequence of operations, successful borrows number at most the returns, plus one if the book started available: no double lending |
| `Users.BorrowBook` | Librabary.java:73-101 | for both patron and librarian, the effect on the book is exactly the book's own borrow. An available book is borrowed as by the book itself. An unavailable book is left as it is and the outcome is "not available". "already borrowed" is never reported |
| `Users.VariantsAgree` | Librabary.java:95-101 | a librarian borrowing a book does exactly what a patron borrowing it does |
| `Users.BorrowBookOutcomes` | Librabary.java:73-79 | through a user, the outcome is `Borrowed` exactly when the book was available, and otherwise `NotAvailable` |
| `Users.ReturnBook` | Librabary.java:56-58 | returning through any user is exactly the book's own return: the book ends available with its record unchanged |
| `Users.UserToString` | Librabary.java:60-63 | a user's display line opens with "User ID: " and ends with the user's age as `Integer.toString` renders it |
| `Users.UserLineShowsId` | Librabary.java:62 | reading an integer right after "User ID: " in a user's display line gives back the user's id |
| `Registry.AddBook` | Librabary.java:131-133 | adds one book at the end; all earlier books keep their order; the users are untouched |
| `Registry.AddUser` | Librabary.java:135-137 | adds one user at the end; all earlier users keep their order; the books are untouched |
| `Registry.AddBooksKeepsOrder` | Librabary.java:131-133 | registering several books one after another leaves the earlier books followed by the new ones, in registration order |
| `Registry.Lines` | Librabary.java:141-143 | one display line per entry, the i-th line rendering the i-th entry |
| `Registry.ListBooks` | Librabary.java:139-144 | the header, then the i-th book's display line at position i+1, and nothing else |
| `Registry.ListUsers` | Librabary.java:146-151 | the header, then the i-th user's display line at position i+1, and nothing else |
| `Registry.ListAfterAddBook` | Librabary.java:131-144 | after a book is added, the book listing is the old listing plus that book's line at the end; the user listing is unchanged |
| `Registry.ListAfterAddUser` | Librabary.java:135-151 | after a user is added, the user listing is the old listing plus that user's line at the end; the book listing is unchanged |
| `Registry.BookReport` | Librabary.java:104-107 | a librarian's book report is its announcement followed by the full book listing |
| `Registry.UserReport` | Librabary.java:110-113 | a librarian's user report is its announcement followed by the full user listing |
| `Registry.BorrowAt` | Librabary.java:73-79 | borrowing a registered book through a user changes only that book, and only its availability; every other book and every user stays the same |
| `Registry.ReturnAt` | Librabary.java:56-58 | returning a registered book through a user makes it available and changes nothing else in the registry |
| `Text.NatToString` | Librabary.java:38 | a non-negative int renders as a non-empty string of decimal digits, with a leading zero only for zero itself |
| `Text.IntToString` | Librabary.java:62 | an int's rendering starts with a minus sign exactly when it is negative, followed by digits |
| `Text.ReadIntToString` | Librabary.java:38 | reading back a rendered int followed by a non-digit gives the int itself |
| `Text.IntToStringInjective` | Librabary.java:62 | distinct ints render as distinct strings |
| `Scenarios.BorrowAndReturnRestores` | Librabary.java:166-170 | in the demonstration the patron's borrow succeeds and the return is reported; the registry ends exactly as it started |
| `Scenarios.Demo` | Librabary.java:153-175 | the demonstration ends with the registry exactly as it was populated and emits 13 strings: five for the borrow/return part and four for each report |
| `Scenarios.DemoTranscript` | Librabary.java:153-175 | the demonstration's thirteen `println` calls emit exactly these strings, in order, and it ends with both books available |

## Left out

- Console output (`System.out.println`) is not modelled as I/O. Each `println` call becomes either an `Outcome` (turned into its string by `Books.Message`) or one element of a returned list of strings.
- The lazily created process-wide registry (`Library.getInstance`, lines 118 and 124-129) is not modelled. The registry is an explicit value, starting from `Registry.Empty`.
- Java reference sharing is not modelled. In Java, the registry and the demonstration hold the same `Book` object. Here a registered book is updated through its position (`Registry.BorrowAt`, `Registry.ReturnAt`). `Users.BorrowBook` on a book value outside the registry does not update the registry.
- The report methods (lines 104-113) take the registry as a parameter instead of fetching the global instance. They are plain functions, and the model does not check that a librarian calls them.
- The `ReportGenerator` interface and the abstract `User` class are not modelled as such. They become the `Role` enumeration, with one branch per variant.
- The entry point `Librabary.main` (lines 180-183) is not modelled. It only fetches the registry and runs the demonstration, which `Scenarios.Demo` reproduces.
- Java `null` titles, authors and names are not modelled. Strings are always present.
- Java `null` book and user references are not modelled. In Java, `borrowBook(null)` throws a `NullPointerException` at line 74, and `addBook(null)` followed by `listBooks` prints "null" at line 142. Here every registered entry is a real book or user.
- Registry.BorrowAt: does not model one `Book` object registered at two positions. In Java, borrowing it changes both positions, because they are the same object. Here positions are independent values, so "every other book stays the same" holds by construction. The same applies to Registry.ReturnAt.
- `int` fields are 32-bit (`Text.Int32`). No arithmetic is done on them, so no wrap-around is modelled.
