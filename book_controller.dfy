/**
 * The controller snapshot (Controllers/BookController.cs): CRUD written
 * inline on AppDbContext.Books, with the field copies spelled out by hand
 * and the HTTP outcome as the result.
 */
module BookControllers {

  import opened Wrappers
  import opened Tables
  import opened CreateDto
  import opened Books

  /** The action results the controller returns. */
  datatype ActionResult<+T> = Ok(value: T) | CreatedAt(id: int, value: T) | NotFound | NoContent

  /** UpdateBook's four assignments (Title, Author, Year, Price) onto a found book. */
  function Assigned(b: Book, d: BookCreateDto): Book {
    Book(b.id, d.title, d.author, d.year, d.price)
  }

  /** The assignments replace every member but Id, whatever the book held before. */
  lemma AssignedIsFullReplace(a: Book, b: Book, d: BookCreateDto)
    ensures Assigned(a, d).id == a.id
    ensures ToReadDto(Assigned(a, d)) == BookReadDto(a.id, d.title, d.author, d.year, d.price)
    ensures a.id == b.id ==> Assigned(a, d) == Assigned(b, d)
  {
  }

  /** Plain assignments: doing them twice is doing them once. */
  lemma AssignedIdempotent(b: Book, d: BookCreateDto)
    ensures Assigned(Assigned(b, d), d) == Assigned(b, d)
  {
  }

  /** The assigned book is the book a creation from the same payload would have produced under that Id. */
  lemma AssignedIsNewBook(b: Book, d: BookCreateDto)
    ensures Assigned(b, d) == NewBook(b.id, d)
  {
  }

  class BookController {
    /** The injected AppDbContext; its Books set and its SaveChanges. */
    const context: Table<Book>

    ghost predicate Valid()
      reads this, context
    {
      context.Valid() && KeysMatchIds(context.rows, IdOf)
    }

    constructor (context: Table<Book>)
      requires context.Valid() && KeysMatchIds(context.rows, IdOf)
      ensures this.context == context && Valid()
    {
      this.context := context;
    }

    /** Ok with one projection (Id, Title, Author, Year, Price) per stored book. */
    method GetBooks() returns (r: ActionResult<seq<BookReadDto>>)
      requires Valid()
      ensures r.Ok?
      ensures |r.value| == |context.rows|
      ensures forall i :: 0 <= i < |r.value| ==> r.value[i].id in context.rows && r.value[i] == ToReadDto(context.rows[r.value[i].id])
      ensures forall k :: k in context.rows ==> ToReadDto(context.rows[k]) in r.value
    {
      var books, keys := context.All();
      var dtos := seq(|books|, i requires 0 <= i < |books| => BookReadDto(books[i].id, books[i].title, books[i].author, books[i].year, books[i].price));
      ProjectedListing(context.rows, books, keys, dtos, ToReadDto, (d: BookReadDto) => d.id);
      r := Ok(dtos);
    }

    /** NotFound when no book has `id`; otherwise Ok with its five members copied. */
    method GetBook(id: int) returns (r: ActionResult<BookReadDto>)
      requires Valid()
      ensures r.NotFound? <==> id !in context.rows
      ensures r.Ok? || r.NotFound?
      ensures r.Ok? ==> r.value.id == id && r.value == ToReadDto(context.rows[id])
    {
      var book := context.Find(id);
      if book.None? {
        return NotFound;
      }
      var b := book.value;
      r := Ok(BookReadDto(b.id, b.title, b.author, b.year, b.price));
    }

    /**
     * A book built from exactly Title, Author, Year and Price is added and
     * saved; the result points at the id the store gave it and carries that id.
     */
    method CreateBook(bookDto: BookCreateDto) returns (r: ActionResult<BookReadDto>)
      requires Valid()
      modifies context
      ensures Valid()
      ensures r.CreatedAt? && r.id !in old(context.rows)
      ensures context.rows == old(context.rows)[r.id := NewBook(r.id, bookDto)]
      ensures context.saves == old(context.saves) + 1
      ensures r.value == BookReadDto(r.id, bookDto.title, bookDto.author, bookDto.year, bookDto.price)
    {
      var id := context.Add(k => Book(k, bookDto.title, bookDto.author, bookDto.year, bookDto.price));
      context.SaveChanges();
      var book := context.rows[id];
      r := CreatedAt(book.id, BookReadDto(book.id, book.title, book.author, book.year, book.price));
    }

    /**
     * NotFound, with no change and no save, when no book has `id`; otherwise
     * the four mutable members are assigned from the payload, one save, NoContent.
     */
    method UpdateBook(id: int, bookDto: BookCreateDto) returns (r: ActionResult<()>)
      requires Valid()
      modifies context
      ensures Valid()
      ensures r.NotFound? <==> id !in old(context.rows)
      ensures r.NotFound? || r.NoContent?
      ensures r.NotFound? ==> context.rows == old(context.rows) && context.saves == old(context.saves)
      ensures r.NoContent? ==> context.rows == old(context.rows)[id := Assigned(old(context.rows)[id], bookDto)]
      ensures r.NoContent? ==> context.saves == old(context.saves) + 1
    {
      var found := context.Find(id);
      if found.None? {
        return NotFound;
      }
      var book := found.value;
      book := book.(title := bookDto.title);
      book := book.(author := bookDto.author);
      book := book.(year := bookDto.year);
      book := book.(price := bookDto.price);
      context.Write(id, book);
      context.SaveChanges();
      r := NoContent;
    }

    /** NotFound with no change when no book has `id`; otherwise exactly that book is removed, one save, NoContent. */
    method DeleteBook(id: int) returns (r: ActionResult<()>)
      requires Valid()
      modifies context
      ensures Valid()
      ensures r.NotFound? <==> id !in old(context.rows)
      ensures r.NotFound? || r.NoContent?
      ensures context.rows == old(context.rows) - {id}
      ensures context.saves == old(context.saves) + (if r.NoContent? then 1 else 0)
    {
      var book := context.Find(id);
      if book.None? {
        return NotFound;
      }
      context.Remove(id);
      context.SaveChanges();
      r := NoContent;
    }
  }
}
