/** The record type the book store holds (Models/Book in the original program). */
module Models {

  /** A nullable value: `None` stands for C#'s `null`. */
  datatype Option<T> = None | Some(value: T)

  /**
   * One book. `Id` is a plain integer that the caller supplies; nothing in the
   * in-memory store assigns it or keeps it unique. The record's own
   * declaration is not available: the fields are inferred from the
   * three-argument construction of the seed books and from the `Id` and
   * `Year` properties the SQL handlers use. `Year` is taken to be nullable
   * and left unset by the three-argument constructor.
   */
  datatype Book = Book(Id: int, Title: string, Author: string, Year: Option<int>)
}
