/**
 * Calls of the services on concrete stores whose outcomes are verified: the
 * behaviours BookStoreApi.Tests/Tests/Services/BooksServiceTests.cs checks,
 * and a title patch, a patch of a missing book, a patch that records an
 * error, a create followed by a delete, and a repeated controller update.
 */
module Scenarios {

  import opened Wrappers
  import opened Annotations
  import opened Tables
  import opened CreateDto
  import opened PatchDto
  import opened Books
  import RepositoryBooksService
  import BookControllers
  import ApplicationBooksService
  import Domain

  /** What the write-back map writes for a null member, as these calls take it. */
  const Nulls := NullMapped("", "", 0, 0)

  /** A repository service over a store holding one book with these members, under the key the store hands out. */
  method ServiceWith(title: string, author: string, year: int, price: Cents) returns (s: RepositoryBooksService.BooksService, id: int)
    ensures s.Valid() && fresh(s.repository) && s.nullMapped == Nulls
    ensures s.repository.rows == map[id := Book(id, title, author, year, price)]
    ensures s.repository.saves == 0
  {
    var t := new Table<Book>();
    id := t.Add(k => Book(k, title, author, year, price));
    s := new RepositoryBooksService.BooksService(t, Nulls);
  }

  /** GetAll_ShouldReturnAllBooks: one stored book, one projection, with its title. */
  method GetAllReturnsAllBooks() {
    var s, id := ServiceWith("Book 1", "Author", 2023, 1000);
    var r := s.GetAll();
    assert |r| == 1;
    assert r[0].id in s.repository.rows;
    assert r[0].title == "Book 1";
  }

  /** GetById_ShouldReturnBook_WhenFound and GetById_ShouldReturnNull_WhenNotFound. */
  method GetByIdFoundAndNotFound() {
    var s, id := ServiceWith("Book", "Author", 2022, 10000);
    assert s.GetById(id) == Some(BookReadDto(id, "Book", "Author", 2022, 10000));
    var empty := new Table<Book>();
    var e := new RepositoryBooksService.BooksService(empty, Nulls);
    assert e.GetById(1) == None;
  }

  /** Create_ShouldAddBook_AndReturnDto: the result carries the payload, one add and exactly one save. */
  method CreateAddsBookAndSavesOnce() {
    var t := new Table<Book>();
    var s := new RepositoryBooksService.BooksService(t, Nulls);
    var d := BookCreateDto("New Book", "Author", 2024, 9900);
    var r := s.Create(d);
    assert r.title == "New Book" && r.author == "Author";
    assert |s.repository.rows| == 1;
    assert s.repository.saves == 1;
  }

  /** Update_ShouldReturnTrue_WhenBookExists and Update_ShouldReturnFalse_WhenBookDoesNotExist. */
  method UpdateExistingAndMissing() {
    var s, id := ServiceWith("Old", "Old", 2000, 5000);
    var ok := s.Update(id, BookUpdateDto("New", "New", 2023, 12000));
    assert ok;
    assert s.repository.rows[id].title == "New" && s.repository.rows[id].author == "New";
    assert s.repository.saves == 1;
    var missing := s.Update(id + 1, BookUpdateDto("X", "Y", 2023, 10000));
    assert !missing;
    assert s.repository.saves == 1;
  }

  /** Delete_ShouldReturnTrue_WhenBookExists and Delete_ShouldReturnFalse_WhenBookNotFound. */
  method DeleteExistingAndMissing() {
    var s, id := ServiceWith("Delete Me", "Author", 2010, 8000);
    var missing := s.Delete(id + 1);
    assert !missing && s.repository.saves == 0;
    var ok := s.Delete(id);
    assert ok && s.repository.saves == 1;
    assert s.GetById(id) == None;
  }

  /** A title replaced by a patch; the price stays as stored. */
  method PatchReplacesTitle() {
    var s, id := ServiceWith("Before Patch", "Old Author", 2021, 4000);
    var doc: PatchDocument := (p: BookPatchDto) => (p.(title := Some("After Patch")), []);
    var ok, state := s.PatchBook(id, doc, []);
    assert ok && state == [];
    assert s.GetById(id) == Some(BookReadDto(id, "After Patch", "Old Author", 2021, 4000));
  }

  /**
   * A 101-character title: the patched projection breaks its own
   * [StringLength(100)], yet PatchBook, which checks only the model state,
   * writes it.
   */
  method PatchWritesOverlongTitle() {
    var s, id := ServiceWith("Before Patch", "Old Author", 2021, 4000);
    var long := Repeat('a', 101);
    RepeatRules('a', 101);
    var doc: PatchDocument := (p: BookPatchDto) => (p.(title := Some(long)), []);
    assert !PatchDto.IsValid(doc(ToPatchDto(s.repository.rows[id])).0);
    var ok, state := s.PatchBook(id, doc, []);
    assert ok;
    assert s.GetById(id).value.title == long;
  }

  /** A document that makes the title null gets written what the map writes for a null title, not the stored one. */
  method PatchNullsTitle() {
    var s, id := ServiceWith("Before Patch", "Old Author", 2021, 4000);
    var doc: PatchDocument := (p: BookPatchDto) => (p.(title := None), []);
    var ok, state := s.PatchBook(id, doc, []);
    assert ok;
    assert s.GetById(id) == Some(BookReadDto(id, Nulls.title, "Old Author", 2021, 4000));
  }

  /** A patch of an id the empty store does not hold: false, nothing applied, nothing saved. */
  method PatchMissingBook() {
    var t := new Table<Book>();
    var s := new RepositoryBooksService.BooksService(t, Nulls);
    var doc: PatchDocument := (p: BookPatchDto) => (p.(title := Some("X")), []);
    var ok, state := s.PatchBook(1, doc, []);
    assert !ok && state == [] && s.repository.saves == 0;
  }

  /** Errors the document records keep the book as stored. */
  method PatchWithErrorsWritesNothing() {
    var s, id := ServiceWith("Before Patch", "Old Author", 2021, 4000);
    var doc: PatchDocument := (p: BookPatchDto) => (p, [ModelError("price", "not a number")]);
    var ok, state := s.PatchBook(id, doc, []);
    assert !ok && |state| == 1;
    assert s.GetById(id) == Some(BookReadDto(id, "Before Patch", "Old Author", 2021, 4000));
  }

  /** A valid payload created and read back under the id it was given; then deleted, and gone. */
  method CreateThenDelete() {
    var t := new Table<Book>();
    var s := new RepositoryBooksService.BooksService(t, Nulls);
    var d := BookCreateDto("New Book", "Author", 2024, 9900);
    NewBookPayloadIsValid();
    var r := s.Create(d);
    assert s.GetById(r.id) == Some(BookReadDto(r.id, "New Book", "Author", 2024, 9900));
    var ok := s.Delete(r.id);
    assert ok && s.GetById(r.id) == None;
  }

  /** Sending one full update twice leaves the store as sending it once (one more save). */
  method ControllerUpdateTwice() {
    var t := new Table<Book>();
    var id := t.Add(k => Book(k, "Old", "Old", 2000, 5000));
    var c := new BookControllers.BookController(t);
    var d := BookCreateDto("New", "New", 2023, 12000);
    var r1 := c.UpdateBook(id, d);
    var once := c.context.rows;
    var r2 := c.UpdateBook(id, d);
    BookControllers.AssignedIdempotent(once[id], d);
    assert r1.NoContent? && r2.NoContent?;
    assert c.context.rows == once;
    assert c.context.saves == 2;
  }

  /**
   * The layered CreateAsync on an empty store returns null: it re-reads Id 0,
   * the new book's AuthorId. This presumes that the map to Book (line 33 of
   * the layered BooksService) completes for this payload.
   */
  method LayeredCreateReturnsNull() {
    var t := new Table<Domain.Book>();
    var s := new ApplicationBooksService.BooksService(t);
    var r, id := s.CreateAsync(BookCreateDto("New Book", "Author", 2024, 9900));
    assert r == None;
  }
}
