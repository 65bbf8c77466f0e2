/**
 * The in-memory book store: a mutable ordered list of books, with first-match
 * lookup, append, replace-first-match and remove-all-matches.
 *
 * The functions and lemmas give the meaning of each store operation on a
 * plain sequence; the class `BookService` holds the list as a field and its
 * methods are proved against those functions.
 */
module Services {
  import opened Models

  // ---------------------------------------------------------------------------
  // Specification of the list operations
  // ---------------------------------------------------------------------------

  /** Some book in the list carries identifier `id`. */
  predicate HasId(books: seq<Book>, id: int) {
    exists i :: 0 <= i < |books| && books[i].Id == id
  }

  /** No book before position `k` carries identifier `id`. */
  predicate NoIdBefore(books: seq<Book>, id: int, k: int)
    requires 0 <= k <= |books|
  {
    forall j :: 0 <= j < k ==> books[j].Id != id
  }

  /** No two books in the list share an identifier. */
  predicate UniqueIds(books: seq<Book>) {
    forall i, j :: 0 <= i < j < |books| ==> books[i].Id != books[j].Id
  }

  /**
   * Position of the first book whose identifier is `id`, in list order
   * (`List.FindIndex`, with `None` in place of -1).
   */
  function FirstIndex(books: seq<Book>, id: int): (r: Option<nat>)
    ensures r.None? <==> !HasId(books, id)
    ensures r.Some? ==> r.value < |books| && books[r.value].Id == id && NoIdBefore(books, id, r.value)
  {
    if books == [] then None
    else if books[0].Id == id then Some(0)
    else
      match FirstIndex(books[1..], id)
      case None =>
        assert forall i :: 1 <= i < |books| ==> books[i] == books[1..][i - 1];
        None
      case Some(k) =>
        assert forall j :: 1 <= j < k + 1 ==> books[j] == books[1..][j - 1];
        Some(k + 1)
  }

  /**
   * The first book whose identifier is `id`, or `None` when there is none
   * (`Enumerable.FirstOrDefault` with the predicate `x.Id == id`).
   */
  function Lookup(books: seq<Book>, id: int): (r: Option<Book>)
    ensures r.None? <==> !HasId(books, id)
    ensures r.Some? ==> r.value.Id == id && r.value in books
    ensures r.Some? ==> exists k :: 0 <= k < |books| && books[k] == r.value && NoIdBefore(books, id, k)
  {
    match FirstIndex(books, id)
    case None => None
    case Some(k) => Some(books[k])
  }

  /**
   * The list with every book whose identifier is `id` removed, the others
   * kept in their original order (`List.RemoveAll`).
   */
  function RemoveAll(books: seq<Book>, id: int): (r: seq<Book>)
    ensures |r| <= |books|
    ensures !HasId(r, id)
  {
    if books == [] then []
    else if books[0].Id == id then RemoveAll(books[1..], id)
    else [books[0]] + RemoveAll(books[1..], id)
  }

  /**
   * The list with the first book whose identifier is `id` replaced by `b`,
   * verbatim (even when `b.Id != id`); the list itself when no book has `id`.
   */
  function ReplaceFirst(books: seq<Book>, id: int, b: Book): (r: seq<Book>)
    ensures |r| == |books|
    ensures !HasId(books, id) ==> r == books
    ensures HasId(books, id) ==>
      var k := FirstIndex(books, id).value;
      r[k] == b && forall j :: 0 <= j < |r| && j != k ==> r[j] == books[j]
  {
    match FirstIndex(books, id)
    case None => books
    case Some(k) => books[k := b]
  }

  /** The two books a fresh store starts with. */
  function Seed(): (s: seq<Book>)
    ensures |s| == 2 && UniqueIds(s)
    ensures s[0].Id == 1 && s[1].Id == 2
    ensures Lookup(s, 1) == Some(Book(1, "Clean Code", "Robert C. Martin", None))
    ensures Lookup(s, 2) == Some(Book(2, "The Pragmatic Programmer", "Andrew Hunt", None))
  {
    [Book(1, "Clean Code", "Robert C. Martin", None),
     Book(2, "The Pragmatic Programmer", "Andrew Hunt", None)]
  }

  // ---------------------------------------------------------------------------
  // Lemmas: lookups after each store operation
  // ---------------------------------------------------------------------------

  /** The first-match position is the unique position that matches with no match before it. */
  lemma FirstIndexIs(books: seq<Book>, id: int, k: nat)
    requires k < |books| && books[k].Id == id && NoIdBefore(books, id, k)
    ensures FirstIndex(books, id) == Some(k)
  {
  }

  /**
   * Looking up any identifier after appending `b`: the old answer when the old
   * list already had a match (so a duplicate added later is never found), and
   * `b` itself when `b` is the first book with that identifier.
   */
  lemma LookupAfterAdd(books: seq<Book>, b: Book, id: int)
    ensures Lookup(books + [b], id) ==
      if HasId(books, id) then Lookup(books, id)
      else if b.Id == id then Some(b)
      else None
  {
    var s := books + [b];
    if HasId(books, id) {
      var k := FirstIndex(books, id).value;
      FirstIndexIs(s, id, k);
    } else if b.Id == id {
      FirstIndexIs(s, id, |books|);
    } else {
      assert forall i :: 0 <= i < |books| ==> s[i] == books[i];
      assert !HasId(s, id);
    }
  }

  /**
   * Looking up the replaced identifier after an update: the new book when it
   * keeps the identifier; otherwise the next book with that identifier after
   * the replaced position, if any.
   */
  lemma LookupAfterReplace(books: seq<Book>, id: int, b: Book)
    requires HasId(books, id)
    ensures var k := FirstIndex(books, id).value;
      Lookup(ReplaceFirst(books, id, b), id) ==
        if b.Id == id then Some(b) else Lookup(books[k + 1..], id)
  {
    var k := FirstIndex(books, id).value;
    var s := ReplaceFirst(books, id, b);
    if b.Id == id {
      FirstIndexIs(s, id, k);
    } else {
      var tail := books[k + 1..];
      assert forall i :: 0 <= i < |tail| ==> s[k + 1 + i] == tail[i];
      match FirstIndex(tail, id)
      case None =>
        assert forall i :: k + 1 <= i < |s| ==> s[i] == tail[i - (k + 1)];
        assert !HasId(s, id);
      case Some(m) =>
        FirstIndexIs(s, id, k + 1 + m);
    }
  }

  /** An update leaves the lookup of every other identifier as it was. */
  lemma LookupOtherAfterReplace(books: seq<Book>, id: int, b: Book, other: int)
    requires other != id && other != b.Id
    ensures Lookup(ReplaceFirst(books, id, b), other) == Lookup(books, other)
  {
  }

  /**
   * Looking up the incoming book's own identifier after an update that
   * changes it: the new book when no earlier book already has that
   * identifier, the earlier book otherwise.
   */
  lemma LookupNewIdAfterReplace(books: seq<Book>, id: int, b: Book)
    requires HasId(books, id) && b.Id != id
    ensures var k := FirstIndex(books, id).value;
      Lookup(ReplaceFirst(books, id, b), b.Id) ==
        if NoIdBefore(books, b.Id, k) then Some(b) else Lookup(books, b.Id)
  {
    var k := FirstIndex(books, id).value;
    var s := ReplaceFirst(books, id, b);
    if NoIdBefore(books, b.Id, k) {
      FirstIndexIs(s, b.Id, k);
    } else {
      var m := FirstIndex(books, b.Id).value;
      FirstIndexIs(s, b.Id, m);
    }
  }

  /** Removing every match of `id` leaves the lookup of every other identifier as it was. */
  lemma {:induction false} LookupOtherAfterRemove(books: seq<Book>, id: int, other: int)
    requires other != id
    ensures Lookup(RemoveAll(books, id), other) == Lookup(books, other)
  {
    if books == [] {
    } else {
      var tail := books[1..];
      LookupOtherAfterRemove(tail, id, other);
      LookupTail(books, other);
      if books[0].Id == id {
        assert RemoveAll(books, id) == RemoveAll(tail, id);
      } else {
        var r := RemoveAll(books, id);
        assert r == [books[0]] + RemoveAll(tail, id);
        assert r[1..] == RemoveAll(tail, id);
        LookupTail(r, other);
      }
    }
  }

  /** A lookup on a non-empty list: the head when it matches, otherwise the lookup in the tail. */
  lemma LookupTail(books: seq<Book>, id: int)
    requires books != []
    ensures Lookup(books, id) == if books[0].Id == id then Some(books[0]) else Lookup(books[1..], id)
  {
  }

  // ---------------------------------------------------------------------------
  // Lemmas: what RemoveAll keeps
  // ---------------------------------------------------------------------------

  /** Removal works element by element: the survivors keep their relative order. */
  lemma {:induction false} RemoveAllConcat(a: seq<Book>, b: seq<Book>, id: int)
    ensures RemoveAll(a + b, id) == RemoveAll(a, id) + RemoveAll(b, id)
  {
    if a == [] {
      assert a + b == b;
    } else {
      assert (a + b)[0] == a[0];
      assert (a + b)[1..] == a[1..] + b;
      RemoveAllConcat(a[1..], b, id);
    }
  }

  /** The survivors of a removal are exactly the books of the list that do not carry the identifier. */
  lemma {:induction false} RemoveAllMembers(books: seq<Book>, id: int, b: Book)
    ensures b in RemoveAll(books, id) <==> b in books && b.Id != id
  {
    if books != [] {
      RemoveAllMembers(books[1..], id, b);
      assert books == [books[0]] + books[1..];
    }
  }

  /** Removal keeps every copy of each book that does not carry the identifier, and no copy of one that does. */
  lemma {:induction false} RemoveAllCounts(books: seq<Book>, id: int, b: Book)
    ensures multiset(RemoveAll(books, id))[b] == if b.Id == id then 0 else multiset(books)[b]
  {
    if books != [] {
      RemoveAllCounts(books[1..], id, b);
      assert books == [books[0]] + books[1..];
    }
  }

  /** Removal changes the list exactly when some book carries the identifier. */
  lemma {:induction false} RemoveAllUnchangedIff(books: seq<Book>, id: int)
    ensures RemoveAll(books, id) == books <==> !HasId(books, id)
    ensures HasId(books, id) ==> |RemoveAll(books, id)| < |books|
  {
    if books == [] {
    } else {
      var tail := books[1..];
      RemoveAllUnchangedIff(tail, id);
      assert forall i :: 1 <= i < |books| ==> books[i] == tail[i - 1];
      if books[0].Id != id {
        assert HasId(books, id) <==> HasId(tail, id) by {
          if HasId(tail, id) {
            var i :| 0 <= i < |tail| && tail[i].Id == id;
            assert books[i + 1].Id == id;
          }
        }
      }
    }
  }

  /** Removing around a single match: the books on either side survive as they are. */
  lemma RemoveAllSingleMatch(before: seq<Book>, x: Book, after: seq<Book>, id: int)
    requires x.Id == id && !HasId(before, id) && !HasId(after, id)
    ensures RemoveAll(before + [x] + after, id) == before + after
  {
    var one := [x];
    assert RemoveAll(one, id) == [] by {
      assert one[0].Id == id && one[1..] == [];
    }
    RemoveAllUnchangedIff(before, id);
    RemoveAllUnchangedIff(after, id);
    RemoveAllAroundEmpty(before, one, after, id);
  }

  /** Removal over three pieces whose middle piece vanishes entirely. */
  lemma RemoveAllAroundEmpty(before: seq<Book>, middle: seq<Book>, after: seq<Book>, id: int)
    requires RemoveAll(before, id) == before && RemoveAll(middle, id) == [] && RemoveAll(after, id) == after
    ensures RemoveAll(before + middle + after, id) == before + after
  {
    RemoveAllConcat(before + middle, after, id);
    RemoveAllConcat(before, middle, id);
  }

  /**
   * Under unique identifiers, removal takes out exactly the one book that the
   * lookup finds, and nothing else.
   */
  lemma RemoveAllUnique(books: seq<Book>, id: int)
    requires UniqueIds(books) && HasId(books, id)
    ensures var k := FirstIndex(books, id).value;
      RemoveAll(books, id) == books[..k] + books[k + 1..]
  {
    var k := FirstIndex(books, id).value;
    var before, after := books[..k], books[k + 1..];
    assert books == before + [books[k]] + after;
    assert !HasId(before, id) by {
      assert forall i :: 0 <= i < |before| ==> before[i] == books[i];
    }
    assert !HasId(after, id) by {
      forall i | 0 <= i < |after| ensures after[i].Id != id {
        assert after[i] == books[k + 1 + i];
      }
    }
    RemoveAllSingleMatch(before, books[k], after, id);
  }

  // ---------------------------------------------------------------------------
  // Lemmas: the unique-identifier property under each operation
  // ---------------------------------------------------------------------------

  /** Appending keeps identifiers unique exactly when the new book's identifier is not yet present. */
  lemma AddKeepsUniqueIff(books: seq<Book>, b: Book)
    requires UniqueIds(books)
    ensures UniqueIds(books + [b]) <==> !HasId(books, b.Id)
  {
    var s := books + [b];
    if HasId(books, b.Id) {
      var i :| 0 <= i < |books| && books[i].Id == b.Id;
      assert s[i].Id == s[|books|].Id;
    }
  }

  /** Removal never introduces a duplicate identifier. */
  lemma {:induction false} RemoveAllKeepsUnique(books: seq<Book>, id: int)
    requires UniqueIds(books)
    ensures UniqueIds(RemoveAll(books, id))
  {
    if books != [] {
      var tail := books[1..];
      assert UniqueIds(tail) by {
        forall i, j | 0 <= i < j < |tail| ensures tail[i].Id != tail[j].Id {
          assert tail[i] == books[i + 1] && tail[j] == books[j + 1];
        }
      }
      RemoveAllKeepsUnique(tail, id);
      if books[0].Id != id {
        var r := RemoveAll(books, id);
        var rt := RemoveAll(tail, id);
        assert r == [books[0]] + rt;
        forall j | 0 < j < |r| ensures books[0].Id != r[j].Id {
          assert r[j] == rt[j - 1];
          RemoveAllMembers(tail, id, r[j]);
        }
      }
    }
  }

  /**
   * Under unique identifiers, an update keeps them unique exactly when it
   * changes nothing, or the incoming book keeps the identifier it replaces,
   * or it brings one not yet present.
   */
  lemma ReplaceKeepsUniqueIff(books: seq<Book>, id: int, b: Book)
    requires UniqueIds(books)
    ensures UniqueIds(ReplaceFirst(books, id, b)) <==> !HasId(books, id) || b.Id == id || !HasId(books, b.Id)
  {
    if HasId(books, id) && b.Id != id && HasId(books, b.Id) {
      var k := FirstIndex(books, id).value;
      var j :| 0 <= j < |books| && books[j].Id == b.Id;
      var r := ReplaceFirst(books, id, b);
      assert r[j] == books[j] && r[k] == b;
      if j < k {
        assert r[j].Id == r[k].Id;
      } else {
        assert r[k].Id == r[j].Id;
      }
    }
  }

  // ---------------------------------------------------------------------------
  // The store
  // ---------------------------------------------------------------------------

  /** The in-memory store: an ordered list of books owned by one object. */
  class BookService {
    var books: seq<Book>

    /** A fresh store holds the two seed books, in order. */
    constructor ()
      ensures books == Seed()
    {
      books := Seed();
    }

    /** The current list, in order, as stored. */
    method GetAll() returns (r: seq<Book>)
      ensures r == books
    {
      r := books;
    }

    /** The first book with identifier `id`, or `None` when there is none. */
    method GetById(id: int) returns (r: Option<Book>)
      ensures r == Lookup(books, id)
      ensures r.None? <==> !HasId(books, id)
    {
      var i := 0;
      while i < |books|
        invariant 0 <= i <= |books|
        invariant NoIdBefore(books, id, i)
      {
        if books[i].Id == id {
          FirstIndexIs(books, id, i);
          return Some(books[i]);
        }
        i := i + 1;
      }
      return None;
    }

    /** Position of the first book with identifier `id`, or -1 when there is none. */
    method FindIndex(id: int) returns (index: int)
      ensures -1 <= index < |books|
      ensures index == -1 <==> !HasId(books, id)
      ensures index != -1 ==> FirstIndex(books, id) == Some(index)
    {
      index := 0;
      while index < |books|
        invariant 0 <= index <= |books|
        invariant NoIdBefore(books, id, index)
      {
        if books[index].Id == id {
          FirstIndexIs(books, id, index);
          return;
        }
        index := index + 1;
      }
      index := -1;
    }

    /** Appends `book` as given: no identifier is assigned and none is checked. */
    method Add(book: Book)
      modifies this
      ensures books == old(books) + [book]
    {
      books := books + [book];
    }

    /**
     * Replaces the first book with identifier `id` by `updatedBook`; does
     * nothing when there is none.
     */
    method Update(id: int, updatedBook: Book)
      modifies this
      ensures books == ReplaceFirst(old(books), id, updatedBook)
      ensures |books| == |old(books)|
      ensures !HasId(old(books), id) ==> books == old(books)
    {
      var index := FindIndex(id);
      if index != -1 {
        books := books[index := updatedBook];
      }
    }

    /** Removes every book with identifier `id`, keeping the others in order. */
    method Delete(id: int)
      modifies this
      ensures books == RemoveAll(old(books), id)
      ensures !HasId(books, id)
      ensures !HasId(old(books), id) ==> books == old(books)
    {
      var all, kept := books, [];
      var i := 0;
      while i < |all|
        invariant 0 <= i <= |all|
        invariant kept == RemoveAll(all[..i], id)
      {
        var b := all[i];
        RemoveAllConcat(all[..i], [b], id);
        assert all[..i + 1] == all[..i] + [b];
        assert [b][1..] == [];
        if b.Id != id {
          kept := kept + [b];
        }
        i := i + 1;
      }
      assert all[..i] == all;
      RemoveAllUnchangedIff(all, id);
      books := kept;
    }
  }
}
