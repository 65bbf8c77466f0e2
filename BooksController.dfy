/**
 * The HTTP handler layer over the in-memory store: each handler calls the
 * store and maps its outcome to a result kind (200, 201, 204 or 404).
 * Routing, JSON binding and the Location header are not modelled; a result
 * carries only its kind and its payload.
 */
module Controllers {
  import opened Models
  import opened Services

  /** What a handler returns: the status it stands for and the body it carries. */
  datatype ActionResult<T> =
    | Ok(value: T)                          // 200 with a body
    | NotFound                              // 404, empty body
    | CreatedAtAction(routeId: int, value: T) // 201: body, and a Location naming GetById with `routeId`
    | NoContent                             // 204, empty body
  {
    function StatusCode(): int {
      match this
      case Ok(_) => 200
      case NotFound => 404
      case CreatedAtAction(_, _) => 201
      case NoContent => 204
    }
  }

  /** Handlers for the `books` routes, over one store shared by every request. */
  class BooksController {
    const service: BookService

    constructor (service: BookService)
      ensures this.service == service
    {
      this.service := service;
    }

    /** GET books: 200 with the store's current list, in order. */
    method GetAll() returns (r: ActionResult<seq<Book>>)
      ensures r == Ok(service.books)
    {
      var all := service.GetAll();
      r := Ok(all);
    }

    /** GET books/{id}: 200 with the first book that has `id`, or 404 when none has. */
    method GetById(id: int) returns (r: ActionResult<Book>)
      ensures r.NotFound? <==> !HasId(service.books, id)
      ensures r.Ok? ==> Some(r.value) == Lookup(service.books, id)
      ensures r.Ok? || r.NotFound?
    {
      var book := service.GetById(id);
      if book.None? {
        return NotFound;
      }
      return Ok(book.value);
    }

    /**
     * POST books: appends the book as given (its identifier is neither
     * assigned nor checked) and answers 201 with that book and its identifier.
     */
    method AddBook(book: Book) returns (r: ActionResult<Book>)
      modifies service
      ensures service.books == old(service.books) + [book]
      ensures r == CreatedAtAction(book.Id, book)
    {
      service.Add(book);
      return CreatedAtAction(book.Id, book);
    }

    /**
     * PUT books/{id}: 404 and no change when no book has `id`; otherwise the
     * first such book is replaced by `book` verbatim and the answer is 204.
     */
    method Update(id: int, book: Book) returns (r: ActionResult<Book>)
      modifies service
      ensures r == if HasId(old(service.books), id) then NoContent else NotFound
      ensures r.NotFound? ==> service.books == old(service.books)
      ensures r.NoContent? ==> service.books == ReplaceFirst(old(service.books), id, book)
    {
      var existing := service.GetById(id);
      if existing.None? {
        return NotFound;
      }
      service.Update(id, book);
      return NoContent;
    }

    /**
     * DELETE books/{id}: 404 and no change when no book has `id`; otherwise
     * every book with `id` is removed and the answer is 204.
     */
    method Delete(id: int) returns (r: ActionResult<()>)
      modifies service
      ensures r == if HasId(old(service.books), id) then NoContent else NotFound
      ensures r.NotFound? ==> service.books == old(service.books)
      ensures r.NoContent? ==> service.books == RemoveAll(old(service.books), id)
      ensures !HasId(service.books, id)
    {
      var exist := service.GetById(id);
      if exist.None? {
        return NotFound;
      }
      service.Delete(id);
      return NoContent;
    }
  }

  /**
   * A client of the handlers: on a fresh store, book 1 is found, deleted,
   * and then no longer found; the contracts above are enough to know each answer.
   */
  method SeedScenario() {
    var service := new BookService();
    var controller := new BooksController(service);
    var found := controller.GetById(1);
    assert found == Ok(Book(1, "Clean Code", "Robert C. Martin", None));
    assert found.StatusCode() == 200;
    var deleted := controller.Delete(1);
    assert deleted.StatusCode() == 204;
    var again := controller.GetById(1);
    assert again.StatusCode() == 404;
    var rest := controller.GetAll();
    assert rest.value == [Book(2, "The Pragmatic Programmer", "Andrew Hunt", None)];
  }
}
