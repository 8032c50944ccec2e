/**
 * The twin BooksService over AppDbContext.Books (Services/BooksService.cs):
 * the same six operations as the repository snapshot, with Find, Add, Remove
 * and SaveChanges called on the context directly.
 */
module ContextBooksService {

  import opened Wrappers
  import opened Tables
  import opened CreateDto
  import opened Books

  class BooksService {
    /** The injected AppDbContext; its Books set and its SaveChanges. */
    const context: Table<Book>

    /** What the patch write-back map writes for a member the patch made null. */
    const nullMapped: NullMapped

    ghost predicate Valid()
      reads this, context
    {
      context.Valid() && KeysMatchIds(context.rows, IdOf)
    }

    constructor (context: Table<Book>, nullMapped: NullMapped)
      requires context.Valid() && KeysMatchIds(context.rows, IdOf)
      ensures this.context == context && this.nullMapped == nullMapped && Valid()
    {
      this.context := context;
      this.nullMapped := nullMapped;
    }

    /** One projection per stored book; nothing changes. */
    method GetAll() returns (r: seq<BookReadDto>)
      requires Valid()
      ensures |r| == |context.rows|
      ensures forall i :: 0 <= i < |r| ==> r[i].id in context.rows && r[i] == ToReadDto(context.rows[r[i].id])
      ensures forall k :: k in context.rows ==> ToReadDto(context.rows[k]) in r
    {
      var books, keys := context.All();
      r := seq(|books|, i requires 0 <= i < |books| => ToReadDto(books[i]));
      ProjectedListing(context.rows, books, keys, r, ToReadDto, (d: BookReadDto) => d.id);
    }

    /** The projection of the book stored under `id`, or null when there is none; it carries `id`. */
    function GetById(id: int): (r: Option<BookReadDto>)
      requires Valid()
      reads this, context
      ensures r.None? <==> id !in context.rows
      ensures r.Some? ==> r.value.id == id && r.value == ToReadDto(context.rows[id])
    {
      var book := context.Find(id);
      if book.None? then None else Some(ToReadDto(book.value))
    }

    /** One new book with the payload's members under a fresh id, one save, and that book's projection. */
    method Create(bookDto: BookCreateDto) returns (r: BookReadDto)
      requires Valid()
      modifies context
      ensures Valid()
      ensures r.id !in old(context.rows)
      ensures context.rows == old(context.rows)[r.id := NewBook(r.id, bookDto)]
      ensures context.saves == old(context.saves) + 1
      ensures r == ToReadDto(NewBook(r.id, bookDto))
    {
      var id := context.Add(k => NewBook(k, bookDto));
      context.SaveChanges();
      r := ToReadDto(context.rows[id]);
    }

    /**
     * False, with no write and no save, when no book has `id`; otherwise the
     * payload's members replace that book's, its Id stays, one save, and true.
     */
    method Update(id: int, bookDto: BookUpdateDto) returns (ok: bool)
      requires Valid()
      modifies context
      ensures Valid()
      ensures ok <==> id in old(context.rows)
      ensures !ok ==> context.rows == old(context.rows) && context.saves == old(context.saves)
      ensures ok ==> context.rows == old(context.rows)[id := Updated(old(context.rows)[id], bookDto)]
      ensures ok ==> context.saves == old(context.saves) + 1
    {
      var book := context.Find(id);
      if book.None? {
        return false;
      }
      context.Write(id, Updated(book.value, bookDto));
      context.SaveChanges();
      ok := true;
    }

    /**
     * False before the document is applied when no book has `id`. Otherwise
     * the document runs on the book's projection and records its errors in
     * the model state; if the model state then holds any error the book is
     * left as it was and nothing is saved; else the patched projection is
     * written back, one save, and true.
     */
    method PatchBook(id: int, patchDoc: PatchDocument, modelState: seq<ModelError>) returns (ok: bool, modelStateAfter: seq<ModelError>)
      requires Valid()
      modifies context
      ensures Valid()
      ensures id !in old(context.rows) ==>
        && !ok && modelStateAfter == modelState
        && context.rows == old(context.rows) && context.saves == old(context.saves)
      ensures id in old(context.rows) ==>
        var result := PatchFound(old(context.rows)[id], patchDoc, modelState, nullMapped);
        && modelStateAfter == result.modelState
        && ok == result.written.Some?
        && context.rows == (if ok then old(context.rows)[id := result.written.value] else old(context.rows))
        && context.saves == old(context.saves) + (if ok then 1 else 0)
    {
      var book := context.Find(id);
      if book.None? {
        return false, modelState;
      }
      var result := PatchFound(book.value, patchDoc, modelState, nullMapped);
      PatchKeepsId(book.value, patchDoc, modelState, nullMapped);
      modelStateAfter := result.modelState;
      if result.written.None? {
        return false, modelStateAfter;
      }
      context.Write(id, result.written.value);
      context.SaveChanges();
      ok := true;
    }

    /** False with no change when no book has `id`; otherwise exactly that book is removed, one save, and true. */
    method Delete(id: int) returns (ok: bool)
      requires Valid()
      modifies context
      ensures Valid()
      ensures ok <==> id in old(context.rows)
      ensures context.rows == old(context.rows) - {id}
      ensures context.saves == old(context.saves) + (if ok then 1 else 0)
    {
      var book := context.Find(id);
      if book.None? {
        return false;
      }
      context.Remove(id);
      context.SaveChanges();
      ok := true;
    }
  }
}
