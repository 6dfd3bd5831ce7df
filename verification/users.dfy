/** Library users. The two kinds of user, patron and librarian, differ only
    in the reporting capability a librarian has (see the Registry module);
    both borrow through the same availability check. */
module Users {
  import opened Text
  import opened Books

  datatype Role = Patron | Librarian

  /** A user's name, age and id never change after construction. */
  datatype User = User(name: string, age: Int32, userID: Int32, role: Role)

  /** Borrowing through a user first checks availability, so the book's own
      "already borrowed" path is never reached: an unavailable book is left
      as it is and reported as not available. On an available book the
      effect is exactly the book's own borrow. Both kinds of user carry their
      own copy of this logic, and the copies agree. */
  function BorrowBook(u: User, b: Book): (r: Step)
    ensures r.book == Borrow(b).book
    ensures r.outcome != AlreadyBorrowed
    ensures b.available ==> r == Borrow(b)
    ensures !b.available ==> r.book == b && r.outcome == NotAvailable
  {
    match u.role
    case Patron =>
      if IsAvailable(b) then Borrow(b) else Step(b, NotAvailable)
    case Librarian =>
      if IsAvailable(b) then Borrow(b) else Step(b, NotAvailable)
  }

  /** Returning through any user is exactly the book's own return: no check
      that this user holds the book. */
  function ReturnBook(u: User, b: Book): (r: Step)
    ensures r == Return(b)
    ensures r.book.available && SameRecord(b, r.book)
  {
    Return(b)
  }

  const UserIdLabel := "User ID: "

  /** The display line of a user: it opens with the id label and ends with
      the user's age. */
  function UserToString(u: User): (r: string)
    ensures |r| > |UserIdLabel| && r[..|UserIdLabel|] == UserIdLabel
    ensures var age := IntToString(u.age); |r| >= |age| && r[|r| - |age|..] == age
  {
    UserIdLabel + IntToString(u.userID) + ", Name: " + u.name + ", Age: " + IntToString(u.age)
  }

  /** A patron and a librarian borrowing the same book do the same thing. */
  lemma VariantsAgree(p: User, l: User, b: Book)
    requires p.role == Patron && l.role == Librarian
    ensures BorrowBook(p, b) == BorrowBook(l, b)
  {
  }

  /** Through a user, a successful borrow is reported exactly when the book
      was available, and the failure is always "not available". */
  lemma BorrowBookOutcomes(u: User, b: Book)
    ensures BorrowBook(u, b).outcome == Borrowed <==> b.available
    ensures BorrowBook(u, b).outcome in {Borrowed, NotAvailable}
  {
  }

  /** The display line shows the user's id right after its label. */
  lemma UserLineShowsId(u: User)
    ensures ReadLeadingInt(UserToString(u)[|UserIdLabel|..]) == Some(u.userID as int)
  {
    var rest := ", Name: " + u.name + ", Age: " + IntToString(u.age);
    assert UserToString(u) == UserIdLabel + (IntToString(u.userID) + rest);
    assert UserToString(u)[|UserIdLabel|..] == IntToString(u.userID) + rest;
    ReadIntToString(u.userID, rest);
  }
}
