/**
 * BooksService of the layered snapshot
 * (BookStoreApi.Application/Services/BooksService.cs): the same CRUD over the
 * book repository, on the layered Book, with the asynchronous calls taken in
 * sequence; and the AutoMapper maps it uses (BookStoreApi/Profiles/MappingProfile.cs).
 */
module ApplicationBooksService {

  import opened Wrappers
  import opened Tables
  import opened Domain
  import opened Annotations
  import CreateDto
  import UpdateDto

  /** BookReadDto without its Author name, which is not part of this model. */
  datatype BookReadDto = BookReadDto(id: int, title: string, authorId: int, publishDate: int, price: Cents)

  /** Map<BookReadDto>(book). */
  function ToReadDto(b: Book): BookReadDto {
    BookReadDto(b.id, b.title, b.authorId, b.publishDate, b.price)
  }

  /** default(int): the AuthorId of a book mapped from a payload without an AuthorId member. */
  const DefaultAuthorId := 0

  /** default(DateOnly).DayNumber: 0001-01-01. */
  const DefaultPublishDate := 0

  /**
   * Map<Book>(createDto) with `id` written in by the store, for a payload
   * with the members of BookStoreApi.Application/Dtos/BookCreateDto.cs
   * (Title, Author, Year, Price): Title and Price are copied, AuthorId and
   * PublishDate keep their defaults, and the Author string is not written.
   */
  function NewBook(id: int, d: CreateDto.BookCreateDto): Book {
    Book(id, d.title, d.price, DefaultPublishDate, DefaultAuthorId)
  }

  /** Map(updateDto, book): Title, AuthorId, PublishDate and Price; Id is not a payload member. */
  function Updated(b: Book, d: UpdateDto.BookUpdateDto): Book {
    Book(b.id, d.title, d.price, d.publishDate, d.authorId)
  }

  /** Map<BookReadDto> of a book that may be null. */
  function Project(book: Option<Book>): Option<BookReadDto> {
    match book
    case None => None
    case Some(b) => Some(ToReadDto(b))
  }

  /** The update payload carries every mutable member: the result is independent of what it replaces. */
  lemma UpdatedIsFullReplace(a: Book, b: Book, d: UpdateDto.BookUpdateDto)
    ensures ToReadDto(Updated(a, d)) == BookReadDto(a.id, d.title, d.authorId, d.publishDate, d.price)
    ensures a.id == b.id ==> Updated(a, d) == Updated(b, d)
  {
  }

  /** Updating twice with one payload is updating once. */
  lemma UpdatedIdempotent(b: Book, d: UpdateDto.BookUpdateDto)
    ensures Updated(Updated(b, d), d) == Updated(b, d)
  {
  }

  /**
   * CreateAsync re-reads by the new book's AuthorId: it gets the new book back
   * exactly when that AuthorId equals the new Id; otherwise another book or none.
   */
  lemma RereadByAuthorId(rows: map<int, Book>, b: Book)
    requires KeysMatchIds(rows, IdOfBook) && b.id !in rows
    ensures Project(Lookup(rows[b.id := b], b.authorId)) == Some(ToReadDto(b)) <==> b.authorId == b.id
  {
    if b.authorId != b.id && b.authorId in rows {
      assert ToReadDto(rows[b.authorId]).id == b.authorId;
    }
  }

  /** The first book created in an empty store gets Id 1 and AuthorId 0, and the re-read finds nothing. */
  lemma CreateIntoEmptyStoreReadsNothing(d: CreateDto.BookCreateDto)
    ensures var b := NewBook(1, d);
      Project(Lookup(map[][b.id := b], b.authorId)) == None
  {
  }

  class BooksService {
    /** The injected IBookRepository. */
    const repository: Table<Book>

    ghost predicate Valid()
      reads this, repository
    {
      repository.Valid() && KeysMatchIds(repository.rows, IdOfBook)
    }

    constructor (repository: Table<Book>)
      requires repository.Valid() && KeysMatchIds(repository.rows, IdOfBook)
      ensures this.repository == repository && Valid()
    {
      this.repository := repository;
    }

    /** One projection per stored book; nothing changes. */
    method GetAllAsync() returns (r: seq<BookReadDto>)
      requires Valid()
      ensures |r| == |repository.rows|
      ensures forall i :: 0 <= i < |r| ==> r[i].id in repository.rows && r[i] == ToReadDto(repository.rows[r[i].id])
      ensures forall k :: k in repository.rows ==> ToReadDto(repository.rows[k]) in r
    {
      var books, keys := repository.All();
      r := seq(|books|, i requires 0 <= i < |books| => ToReadDto(books[i]));
      ProjectedListing(repository.rows, books, keys, r, ToReadDto, (d: BookReadDto) => d.id);
    }

    /** The projection of the book stored under `id`, or null when there is none; it carries `id`. */
    function GetByIdAsync(id: int): (r: Option<BookReadDto>)
      requires Valid()
      reads this, repository
      ensures r.None? <==> id !in repository.rows
      ensures r.Some? ==> r.value.id == id && r.value == ToReadDto(repository.rows[id])
    {
      Project(repository.Find(id))
    }

    /**
     * One new book under a fresh `id`, one save; the result is what the
     * store holds under the new book's AuthorId, not under its Id.
     */
    method CreateAsync(bookDto: CreateDto.BookCreateDto) returns (r: Option<BookReadDto>, ghost id: int)
      requires Valid()
      modifies repository
      ensures Valid()
      ensures id !in old(repository.rows)
      ensures repository.rows == old(repository.rows)[id := NewBook(id, bookDto)]
      ensures repository.saves == old(repository.saves) + 1
      ensures r == Project(Lookup(repository.rows, NewBook(id, bookDto).authorId))
      ensures r == Some(ToReadDto(NewBook(id, bookDto))) <==> id == DefaultAuthorId
    {
      var key := repository.Add(k => NewBook(k, bookDto));
      id := key;
      repository.SaveChanges();
      var book := repository.rows[key];
      RereadByAuthorId(old(repository.rows), book);
      var retrieved := repository.Find(book.authorId);
      r := Project(retrieved);
    }

    /** CreateAsync re-reading by the new book's own Id: it returns the created book's projection. */
    method CreateAsyncRereadById(bookDto: CreateDto.BookCreateDto) returns (r: Option<BookReadDto>, ghost id: int)
      requires Valid()
      modifies repository
      ensures Valid()
      ensures id !in old(repository.rows)
      ensures repository.rows == old(repository.rows)[id := NewBook(id, bookDto)]
      ensures repository.saves == old(repository.saves) + 1
      ensures r == Some(ToReadDto(NewBook(id, bookDto)))
    {
      var key := repository.Add(k => NewBook(k, bookDto));
      id := key;
      repository.SaveChanges();
      var book := repository.rows[key];
      var retrieved := repository.Find(book.id);
      r := Project(retrieved);
    }

    /**
     * False, with no save, when no book has `id`; otherwise Title, AuthorId,
     * PublishDate and Price are copied onto it, its Id stays, one save, true.
     */
    method UpdateAsync(id: int, bookDto: UpdateDto.BookUpdateDto) returns (ok: bool)
      requires Valid()
      modifies repository
      ensures Valid()
      ensures ok <==> id in old(repository.rows)
      ensures !ok ==> repository.rows == old(repository.rows) && repository.saves == old(repository.saves)
      ensures ok ==> repository.rows == old(repository.rows)[id := Updated(old(repository.rows)[id], bookDto)]
      ensures ok ==> repository.saves == old(repository.saves) + 1
    {
      var book := repository.Find(id);
      if book.None? {
        return false;
      }
      repository.Write(id, Updated(book.value, bookDto));
      repository.SaveChanges();
      ok := true;
    }

    /** False with no change when no book has `id`; otherwise exactly that book is removed, one save, true. */
    method DeleteAsync(id: int) returns (ok: bool)
      requires Valid()
      modifies repository
      ensures Valid()
      ensures ok <==> id in old(repository.rows)
      ensures repository.rows == old(repository.rows) - {id}
      ensures repository.saves == old(repository.saves) + (if ok then 1 else 0)
    {
      var book := repository.Find(id);
      if book.None? {
        return false;
      }
      repository.Remove(id);
      repository.SaveChanges();
      ok := true;
    }
  }
}
