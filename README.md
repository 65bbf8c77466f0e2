# BookApi in-memory store and handlers, in Dafny

This project models the core of a small REST API for book records: the
in-memory store `BookService` and the controller `BooksController` that maps
the store's outcomes to HTTP results.

- `Book.dfy` (module `Models`): the `Book` record (`Id`, `Title`, `Author`,
  optional `Year`) and an `Option` type standing for C#'s `null`.
- `BookService.dfy` (module `Services`): the meaning of every store operation
  as a function on `seq<Book>` (`FirstIndex`, `Lookup`, `ReplaceFirst`,
  `RemoveAll`, `Seed`), lemmas relating them, and the class `BookService`.
  The class holds the list as a `seq<Book>` field that its methods reassign;
  `GetById`, `FindIndex` and `Delete` are loops proved against the functions.
- `BooksController.dfy` (module `Controllers`): the result kinds `Ok`,
  `NotFound`, `CreatedAtAction` and `NoContent`, and the class
  `BooksController`, whose handlers check for the identifier first and answer
  404 when it is absent. `SeedScenario` is a client that follows a fresh
  store through GET, DELETE and GET of book 1 using only the contracts.

Behaviour as the code has it:

- `GetById` and `Update` act on the first book with the identifier. `Delete`
  removes every book with it.
- `Add` appends the book as given. It assigns no identifier and does not
  check for duplicates. So after adding a duplicate, `GetById` still finds the
  older book (`LookupAfterAdd`).
- `Update` stores the incoming book verbatim, even when its `Id` differs from
  the path identifier. A later `GetById` with the path identifier then finds
  the next book with that identifier, or nothing (`LookupAfterReplace`).
- An absent identifier makes the store's `Update` and `Delete` silent no-ops.
  The handlers return 404 in that case without calling them.

Consequences the lemmas state:

- Nothing assigns identifiers or keeps them unique. `UniqueIds` is therefore
  a predicate with lemmas saying when each operation keeps it, not an
  invariant of the class.
- `GetById(id)` after `Update(id, b)` returns `b` only when `b.Id == id`
  (`LookupAfterReplace`).
- `GetById(b.Id)` after `Add(b)` returns `b` only when no earlier book has
  that identifier (`LookupAfterAdd`).

## Model

| member | source | states |
|---|---|---|
| `Services.FirstIndex` | Services/BookService.cs:18 | `None` exactly when no book has the identifier; otherwise an in-range position whose book has it, with no book before it that has it |
| `Services.Lookup` | Services/BookService.cs:14 | `None` exactly when no book has the identifier; otherwise a book of the list with that identifier, at a position with no earlier match |
| `Services.RemoveAll` | Services/BookService.cs:24 | no book with the identifier survives, and the list does not grow |
| `Services.ReplaceFirst` | Services/BookService.cs:16-23 | the length is kept; with no match the list is unchanged; otherwise the first match becomes the new book verbatim and every other position is unchanged |
| `Services.Seed` | Services/BookService.cs:7-11 | two books with distinct identifiers, in order: first id 1, "Clean Code" by "Robert C. Martin", then id 2, "The Pragmatic Programmer" by "Andrew Hunt", both without a year |
| `Services.FirstIndexIs` | Services/BookService.cs:18 | a matching position with no earlier match is the first-match position |
| `Services.LookupTail` | Services/BookService.cs:14 | the lookup finds the head when it matches and otherwise searches the tail |
| `Services.LookupAfterAdd` | Services/BookService.cs:14-15 | after an append, a lookup returns the old answer when the old list had a match, the appended book when it is the first match, and nothing otherwise |
| `Services.LookupAfterReplace` | Services/BookService.cs:14-23 | after an update of a present identifier, a lookup of it returns the new book if it keeps the identifier, and otherwise the next match after the replaced position |
| `Services.LookupOtherAfterReplace` | Services/BookService.cs:14-23 | an update leaves the lookup of every identifier other than the path and new identifiers unchanged |
| `Services.LookupNewIdAfterReplace` | Services/BookService.cs:14-23 | after an update of a present identifier by a book with a different identifier, a lookup of the new book's identifier returns the new book when no earlier book has that identifier, and the earlier book otherwise |
| `Services.LookupOtherAfterRemove` | Services/BookService.cs:14-24 | a removal leaves the lookup of every other identifier unchanged |
| `Services.RemoveAllConcat` | Services/BookService.cs:24 | removal distributes over concatenation, so the survivors keep their relative order |
| `Services.RemoveAllMembers` | Services/BookService.cs:24 | a book survives exactly when it was in the list and does not carry the identifier |
| `Services.RemoveAllCounts` | Services/BookService.cs:24 | removal keeps every copy of each book without the identifier, so exact duplicates survive, and no copy of one with it |
| `Services.RemoveAllUnchangedIff` | Services/BookService.cs:24 | removal leaves the list unchanged exactly when no book has the identifier, and shortens it otherwise |
| `Services.RemoveAllSingleMatch` | Services/BookService.cs:24 | when only one book matches, removal leaves the books on either side of it as they were |
| `Services.RemoveAllUnique` | Services/BookService.cs:24 | with unique identifiers, removal deletes exactly the book at the first-match position |
| `Services.AddKeepsUniqueIff` | Services/BookService.cs:15 | appending keeps identifiers unique exactly when the new book's identifier is not already present |
| `Services.RemoveAllKeepsUnique` | Services/BookService.cs:24 | removal keeps identifiers unique |
| `Services.ReplaceKeepsUniqueIff` | Services/BookService.cs:16-23 | under unique identifiers, an update keeps them unique exactly when the path identifier is absent, or the new book keeps it, or the new book's identifier is not yet present |
| `Services.BookService.constructor` | Services/BookService.cs:7-11 | a fresh store holds exactly the two seed books, in order |
| `Services.BookService.GetAll` | Services/BookService.cs:13 | returns the current list, in order, unfiltered |
| `Services.BookService.GetById` | Services/BookService.cs:14 | returns the first book with the identifier, and `None` exactly when there is none |
| `Services.BookService.FindIndex` | Services/BookService.cs:18 | returns -1 exactly when no book has the identifier, and otherwise the first-match position |
| `Services.BookService.Add` | Services/BookService.cs:15 | the new list is the old list followed by the book |
| `Services.BookService.Update` | Services/BookService.cs:16-23 | the new list replaces the first match with the book, keeps the length, and is the old list when there is no match |
| `Services.BookService.Delete` | Services/BookService.cs:24 | the new list is the old one with every match removed in order, has no match left, and is the old list when there was no match |
| `Controllers.BooksController.constructor` | Controllers/BooksController.cs:14-17 | the controller works on the store it is given |
| `Controllers.BooksController.GetAll` | Controllers/BooksController.cs:30-31 | answers Ok carrying exactly the store's current list and changes nothing |
| `Controllers.BooksController.GetById` | Controllers/BooksController.cs:35-46 | answers NotFound exactly when no book has the identifier, and otherwise Ok with the store's first match; changes nothing |
| `Controllers.BooksController.AddBook` | Controllers/BooksController.cs:70-75 | always appends the book and answers Created with the book's own identifier as route id and the book as body |
| `Controllers.BooksController.Update` | Controllers/BooksController.cs:101-111 | NotFound with the store unchanged when the identifier is absent; otherwise NoContent with the first match replaced by the book |
| `Controllers.BooksController.Delete` | Controllers/BooksController.cs:141-152 | NotFound with the store unchanged when the identifier is absent; otherwise NoContent with every match removed; either way no match is left |

## Left out

- Controllers/BooksDapperController.cs is not part of this model. Every operation there is an asynchronous SQL statement against a database whose identity generation and affected-row counts are not visible.
- Program.cs is not part of this model. It only registers the store as a process-wide singleton and starts the web host.
- Models/User.cs and Models/RegisterDto.cs are not part of this model. They are property bags that no code uses.
- Models/Book.cs is not available. `Book`'s fields are inferred from `new Book(1, …)` at Services/BookService.cs:9-10 and from `book.Id = id` and `book.Year` at Controllers/BooksDapperController.cs:38,44-49. `Year` is taken to be nullable and left unset by the three-argument constructor.
- Services.BookService.GetAll: the C# method hands out the live list, so later changes are visible through it. The model returns the list's value at the time of the call and does not capture that aliasing.
- HTTP plumbing is left out: routing, JSON binding (including the automatic 400 for a missing body), and the Location header built by `CreatedAtAction`. A result carries only its kind and payload.
- Concurrency is left out. The singleton store is shared across requests without locking; the model is single-threaded.
- Integer width: `Id` is declared `int` in the handlers and the store (32-bit in C#); the width of `Year` is not visible. The model uses unbounded integers. Identifiers are only compared, never computed, so no wrap-around can occur.
