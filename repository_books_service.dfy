/**
 * BooksService over the book repository (BookStoreApi/Services/BooksService.cs):
 * list, find, create, full update, JSON-patch and delete, each a
 * read-modify-save against the repository, which counts its saves.
 */
module RepositoryBooksService {

  import opened Wrappers
  import opened Tables
  import opened CreateDto
  import opened Books

  class BooksService {
    /** The injected IBookRepository. */
    const repository: Table<Book>

    /** What the patch write-back map writes for a member the patch made null. */
    const nullMapped: NullMapped

    ghost predicate Valid()
      reads this, repository
    {
      repository.Valid() && KeysMatchIds(repository.rows, IdOf)
    }

    constructor (repository: Table<Book>, nullMapped: NullMapped)
      requires repository.Valid() && KeysMatchIds(repository.rows, IdOf)
      ensures this.repository == repository && this.nullMapped == nullMapped && Valid()
    {
      this.repository := repository;
      this.nullMapped := nullMapped;
    }

    /** One projection per stored book; nothing changes. */
    method GetAll() returns (r: seq<BookReadDto>)
      requires Valid()
      ensures |r| == |repository.rows|
      ensures forall i :: 0 <= i < |r| ==> r[i].id in repository.rows && r[i] == ToReadDto(repository.rows[r[i].id])
      ensures forall k :: k in repository.rows ==> ToReadDto(repository.rows[k]) in r
    {
      var books, keys := repository.All();
      r := seq(|books|, i requires 0 <= i < |books| => ToReadDto(books[i]));
      ProjectedListing(repository.rows, books, keys, r, ToReadDto, (d: BookReadDto) => d.id);
    }

    /** The projection of the book stored under `id`, or null when there is none; it carries `id`. */
    function GetById(id: int): (r: Option<BookReadDto>)
      requires Valid()
      reads this, repository
      ensures r.None? <==> id !in repository.rows
      ensures r.Some? ==> r.value.id == id && r.value == ToReadDto(repository.rows[id])
    {
      var book := repository.Find(id);
      if book.None? then None else Some(ToReadDto(book.value))
    }

    /** One new book with the payload's members under a fresh id, one save, and that book's projection. */
    method Create(bookDto: BookCreateDto) returns (r: BookReadDto)
      requires Valid()
      modifies repository
      ensures Valid()
      ensures r.id !in old(repository.rows)
      ensures repository.rows == old(repository.rows)[r.id := NewBook(r.id, bookDto)]
      ensures repository.saves == old(repository.saves) + 1
      ensures r == ToReadDto(NewBook(r.id, bookDto))
    {
      var id := repository.Add(k => NewBook(k, bookDto));
      repository.SaveChanges();
      r := ToReadDto(repository.rows[id]);
    }

    /**
     * False, with no write and no save, when no book has `id`; otherwise the
     * payload's members replace that book's, its Id stays, one save, and true.
     */
    method Update(id: int, bookDto: BookUpdateDto) returns (ok: bool)
      requires Valid()
      modifies repository
      ensures Valid()
      ensures ok <==> id in old(repository.rows)
      ensures !ok ==> repository.rows == old(repository.rows) && repository.saves == old(repository.saves)
      ensures ok ==> repository.rows == old(repository.rows)[id := Updated(old(repository.rows)[id], bookDto)]
      ensures ok ==> repository.saves == old(repository.saves) + 1
    {
      var book := repository.Find(id);
      if book.None? {
        return false;
      }
      repository.Write(id, Updated(book.value, bookDto));
      repository.SaveChanges();
      ok := true;
    }

    /**
     * False before the document is applied when no book has `id`. Otherwise
     * the document runs on the book's projection and records its errors in
     * the model state; if the model state then holds any error the book is
     * left as it was and nothing is saved; else the patched projection is
     * written back, one save, and true.
     */
    method PatchBook(id: int, patchDoc: PatchDocument, modelState: seq<ModelError>) returns (ok: bool, modelStateAfter: seq<ModelError>)
      requires Valid()
      modifies repository
      ensures Valid()
      ensures id !in old(repository.rows) ==>
        && !ok && modelStateAfter == modelState
        && repository.rows == old(repository.rows) && repository.saves == old(repository.saves)
      ensures id in old(repository.rows) ==>
        var result := PatchFound(old(repository.rows)[id], patchDoc, modelState, nullMapped);
        && modelStateAfter == result.modelState
        && ok == result.written.Some?
        && repository.rows == (if ok then old(repository.rows)[id := result.written.value] else old(repository.rows))
        && repository.saves == old(repository.saves) + (if ok then 1 else 0)
    {
      var book := repository.Find(id);
      if book.None? {
        return false, modelState;
      }
      var result := PatchFound(book.value, patchDoc, modelState, nullMapped);
      PatchKeepsId(book.value, patchDoc, modelState, nullMapped);
      modelStateAfter := result.modelState;
      if result.written.None? {
        return false, modelStateAfter;
      }
      repository.Write(id, result.written.value);
      repository.SaveChanges();
      ok := true;
    }

    /** False with no change when no book has `id`; otherwise exactly that book is removed, one save, and true. */
    method Delete(id: int) returns (ok: bool)
      requires Valid()
      modifies repository
      ensures Valid()
      ensures ok <==> id in old(repository.rows)
      ensures repository.rows == old(repository.rows) - {id}
      ensures repository.saves == old(repository.saves) + (if ok then 1 else 0)
    {
      var book := repository.Find(id);
      if book.None? {
        return false;
      }
      repository.Remove(id);
      repository.SaveChanges();
      ok := true;
    }
  }
}
