/**
 * The book of the first snapshots (Id, Title, Author, Year, Price), its read
 * projection and update payload, the AutoMapper maps between them written as
 * field copies (BookStoreApi/Profiles/BooksProfile.cs), and the patch
 * pipeline that BooksService.PatchBook runs on a book it has found.
 */
module Books {

  import opened Wrappers
  import opened Annotations
  import opened CreateDto
  import opened PatchDto

  datatype Book = Book(id: int, title: string, author: string, year: int, price: Cents)

  datatype BookReadDto = BookReadDto(id: int, title: string, author: string, year: int, price: Cents)

  /** The update payload of these snapshots, with the members the tests give it. */
  datatype BookUpdateDto = BookUpdateDto(title: string, author: string, year: int, price: Cents)

  /** The key a book is stored under. */
  function IdOf(b: Book): int {
    b.id
  }

  /** Map<BookReadDto>(book). */
  function ToReadDto(b: Book): BookReadDto {
    BookReadDto(b.id, b.title, b.author, b.year, b.price)
  }

  /** Map<Book>(createDto) once the store has written `id` into the new book. */
  function NewBook(id: int, d: BookCreateDto): Book {
    Book(id, d.title, d.author, d.year, d.price)
  }

  /** Map(updateDto, book): the payload's four members onto the book; Id is not a payload member. */
  function Updated(b: Book, d: BookUpdateDto): Book {
    Book(b.id, d.title, d.author, d.year, d.price)
  }

  /** A created book reads back as the payload under the id the store gave it. */
  lemma NewBookReadsAsPayload(id: int, d: BookCreateDto)
    ensures var r := ToReadDto(NewBook(id, d));
      r.id == id && r.title == d.title && r.author == d.author && r.year == d.year && r.price == d.price
  {
  }

  /** An update keeps the Id, replaces every other member, and does not depend on what it replaces. */
  lemma UpdatedIsFullReplace(a: Book, b: Book, d: BookUpdateDto)
    ensures Updated(a, d).id == a.id
    ensures ToReadDto(Updated(a, d)) == BookReadDto(a.id, d.title, d.author, d.year, d.price)
    ensures a.id == b.id ==> Updated(a, d) == Updated(b, d)
  {
  }

  /** Updating twice with one payload is updating once. */
  lemma UpdatedIdempotent(b: Book, d: BookUpdateDto)
    ensures Updated(Updated(b, d), d) == Updated(b, d)
  {
  }

  // ---- The patch pipeline ----

  /** An entry of the ModelStateDictionary: the member it is about and the message. */
  datatype ModelError = ModelError(key: string, message: string)

  /**
   * JsonPatchDocument<BookPatchDto>.ApplyTo(dto, modelState), taken as given:
   * the patched projection and the errors it records in the model state.
   */
  type PatchDocument = BookPatchDto -> (BookPatchDto, seq<ModelError>)

  /**
   * What Map(patchDto, book) writes into a member whose patched value is
   * null: a null reference for Title and Author, which this model's strings
   * cannot hold, and default values for Year and Price. The model takes
   * these values as given rather than asserting any of them.
   */
  datatype NullMapped = NullMapped(title: string, author: string, year: int, price: Cents)

  /** Map<BookPatchDto>(book), the reverse map of BooksProfile: every member present. */
  function ToPatchDto(b: Book): BookPatchDto {
    BookPatchDto(Some(b.title), Some(b.author), Some(b.year), Some(b.price))
  }

  /** Map(patchDto, book): every member onto the book, a null one as `nulls` says; Id is not a projection member. */
  function MapBack(p: BookPatchDto, b: Book, nulls: NullMapped): Book {
    Book(b.id, p.title.GetOr(nulls.title), p.author.GetOr(nulls.author), p.year.GetOr(nulls.year), p.price.GetOr(nulls.price))
  }

  /** Mapping a book's own projection back changes nothing, whatever a null member would map to. */
  lemma MapBackOfProjection(b: Book, nulls: NullMapped)
    ensures MapBack(ToPatchDto(b), b, nulls) == b
  {
  }

  /** A projection with every member present survives the write-back unchanged. */
  lemma ProjectionOfMapBack(p: BookPatchDto, b: Book, nulls: NullMapped)
    requires p.title.Some? && p.author.Some? && p.year.Some? && p.price.Some?
    ensures ToPatchDto(MapBack(p, b, nulls)) == p
  {
  }

  /** What PatchBook leaves after it found the book: the model state, and the book it wrote if it wrote one. */
  datatype PatchResult = PatchResult(modelState: seq<ModelError>, written: Option<Book>)

  /**
   * Steps 1 to 4 of PatchBook on a found `book`: project it, apply the
   * document (its errors join those already in `modelState`), and write the
   * patched projection back only if the model state has no error.
   */
  function PatchFound(book: Book, patchDoc: PatchDocument, modelState: seq<ModelError>, nulls: NullMapped): PatchResult {
    var (patched, errors) := patchDoc(ToPatchDto(book));
    var state := modelState + errors;
    if state == [] then PatchResult(state, Some(MapBack(patched, book, nulls)))
    else PatchResult(state, None)
  }

  /** Errors are only ever added, and the book is written exactly when no error was recorded, before or by the patch. */
  lemma PatchGate(book: Book, patchDoc: PatchDocument, modelState: seq<ModelError>, nulls: NullMapped)
    ensures var r := PatchFound(book, patchDoc, modelState, nulls);
      && r.modelState == modelState + patchDoc(ToPatchDto(book)).1
      && (r.written.Some? <==> modelState == [] && patchDoc(ToPatchDto(book)).1 == [])
  {
  }

  /** A patch never changes the book's Id. */
  lemma PatchKeepsId(book: Book, patchDoc: PatchDocument, modelState: seq<ModelError>, nulls: NullMapped)
    ensures var r := PatchFound(book, patchDoc, modelState, nulls);
      r.written.Some? ==> r.written.value.id == book.id
  {
  }

  /**
   * The write-back is member by member: a member the patched projection
   * holds is written with that value (a member the document left alone
   * still holds the stored value), and a member it made null is written
   * as the map writes a null.
   */
  lemma PatchMerges(book: Book, patchDoc: PatchDocument, modelState: seq<ModelError>, nulls: NullMapped)
    ensures var r := PatchFound(book, patchDoc, modelState, nulls);
      var p := patchDoc(ToPatchDto(book)).0;
      r.written.Some? ==>
        && (forall t :: p.title == Some(t) ==> r.written.value.title == t)
        && (forall a :: p.author == Some(a) ==> r.written.value.author == a)
        && (forall y :: p.year == Some(y) ==> r.written.value.year == y)
        && (forall c :: p.price == Some(c) ==> r.written.value.price == c)
        && (p.title.None? ==> r.written.value.title == nulls.title)
        && (p.author.None? ==> r.written.value.author == nulls.author)
        && (p.year.None? ==> r.written.value.year == nulls.year)
        && (p.price.None? ==> r.written.value.price == nulls.price)
  {
  }

  /** A document that changes nothing and records nothing writes the book back as it was. */
  lemma EmptyPatchWritesSameBook(book: Book, nulls: NullMapped)
    ensures PatchFound(book, (p: BookPatchDto) => (p, []), [], nulls) == PatchResult([], Some(book))
  {
    MapBackOfProjection(book, nulls);
  }

  /**
   * PatchBook checks only the model state: a document that sets a 101-character
   * title and records no error gets that title written, although the
   * projection's [StringLength(100)] forbids it.
   */
  lemma {:induction false} PatchSkipsAnnotations(book: Book, nulls: NullMapped)
    ensures var long := Repeat('a', 101);
      var patchDoc: PatchDocument := (p: BookPatchDto) => (p.(title := Some(long)), []);
      && !PatchDto.IsValid(patchDoc(ToPatchDto(book)).0)
      && PatchFound(book, patchDoc, [], nulls).written == Some(book.(title := long))
  {
    RepeatRules('a', 101);
  }

  /**
   * The evidently intended pipeline: the patched projection must also pass its
   * validation attributes (what TryValidateModel would add) before it is written.
   */
  function PatchFoundValidated(book: Book, patchDoc: PatchDocument, modelState: seq<ModelError>, nulls: NullMapped): PatchResult {
    var (patched, errors) := patchDoc(ToPatchDto(book));
    var state := modelState + errors;
    if state == [] && PatchDto.IsValid(patched) then PatchResult(state, Some(MapBack(patched, book, nulls)))
    else PatchResult(state, None)
  }

  /**
   * With validation, a book is written only from a projection that meets its
   * rules; the written book is what the unvalidated pipeline would have
   * written; and when the patched projection holds every member, the written
   * book's own projection meets the rules too.
   */
  lemma ValidatedPatchKeepsRules(book: Book, patchDoc: PatchDocument, modelState: seq<ModelError>, nulls: NullMapped)
    ensures var r := PatchFoundValidated(book, patchDoc, modelState, nulls);
      var p := patchDoc(ToPatchDto(book)).0;
      && (r.written.Some? ==> PatchDto.IsValid(p))
      && (r.written.Some? ==> r == PatchFound(book, patchDoc, modelState, nulls))
      && (r.written.Some? <==> PatchFound(book, patchDoc, modelState, nulls).written.Some? && PatchDto.IsValid(p))
      && (r.written.Some? && p.title.Some? && p.author.Some? && p.year.Some? && p.price.Some? ==>
            PatchDto.IsValid(ToPatchDto(r.written.value)))
  {
    var p := patchDoc(ToPatchDto(book)).0;
    if p.title.Some? && p.author.Some? && p.year.Some? && p.price.Some? {
      ProjectionOfMapBack(p, book, nulls);
    }
  }
}
