# BookStoreApi in Dafny

A model of the book store Web API's record services and their payload rules.
The repository holds three snapshots of the same book CRUD, and each is modelled
on its own terms:

- **The controller snapshot.** `Controllers/BookController.cs` works on the EF
  `AppDbContext` directly. It copies members by hand and answers with
  `Ok`, `CreatedAtAction`, `NotFound` or `NoContent`.
- **The service snapshots.** `BookStoreApi/Services/BooksService.cs` goes
  through an `IBookRepository`. Its twin `Services/BooksService.cs` goes
  through `AppDbContext`. Both map with AutoMapper. Both have a JSON Patch
  pipeline: project the book, apply the document, check the model state,
  then map back.
- **The layered snapshot.** `BookStoreApi.Application/Services/BooksService.cs`
  and `AuthorsService.cs` work over a repository. The layered `Book` has
  `Title`, `Price`, `PublishDate` and an `AuthorId` foreign key.

How the parts are modelled:

- **The store.** An EF `DbSet`, or the repository that wraps one, is the
  class `Tables.Table<E>`. It holds the entities by key (`rows`) and counts
  `SaveChanges`/`Save`/`SaveAsync` calls (`saves`). It also holds the key
  generator. A key it hands out is never one already in use.
- **The services and the controller.** Each is a class holding its table.
  Each invariant says the table is well formed and every entity is stored
  under its own `Id`.
- **Entities and payloads.** These are datatypes. An AutoMapper map is a
  function that copies fields.
- **Validation attributes.** `[Required]`, `[MaxLength]`, `[StringLength]`
  and `[Range]` are predicates in `Annotations`.
- **Prices** are integer cents; 1000.00 is `100000`.
- **Dates.** A `DateOnly` is its day number.
- **Asynchronous calls** are taken in sequence.
- **A JSON Patch document** is a function parameter
  (`Books.PatchDocument`). It maps the projection to the patched projection
  and the errors it records.
- **Null members.** The values the patch write-back writes into a member the
  patch made null (`Books.NullMapped`) are given to each book service when
  it is constructed.
- **Author names.** The names an author's projection shows are read off the
  author by a function given to the authors service.

## Model

| member | source | states |
|---|---|---|
| `Annotations.EmptyIsNotRequired` | Dtos/BookCreateDto.cs:7-9 | the empty string, the initialiser of the creation payloads' string members, fails `[Required]` |
| `Annotations.RequiredMaxLengthBounds` | Dtos/BookCreateDto.cs:7-13 | a string passing `[Required]` and `[MaxLength(n)]` has between 1 and n characters |
| `CreateDto.ValidBounds` | Dtos/BookCreateDto.cs:7-19 | a valid controller creation payload has a title of 1..100 and an author of 1..50 characters, a year in 1500..2100 and a price in 0.00..1000.00 |
| `CreateDto.OmittedStringsInvalid` | Dtos/BookCreateDto.cs:9-13 | a payload with Title or Author omitted (the "" initialiser) is rejected |
| `CreateDto.NewBookPayloadIsValid` | Dtos/BookCreateDto.cs:7-19 | the create payload of the service tests, "New Book" by "Author", 2024, at 99.00, passes every attribute |
| `ApplicationCreateDto.StricterThanController` | BookStoreApi.Application/Dtos/BookCreateDto.cs:7-19 | the layered creation rule holds exactly when the controller snapshot's rule holds and the price is at least 1.00 |
| `ApplicationCreateDto.ZeroPriceSeparates` | BookStoreApi.Application/Dtos/BookCreateDto.cs:18-19 | a free book passes `[Range(0,1000)]` and fails `[Range(1,1000)]` |
| `ApplicationCreateDto.OmittedInvalid` | BookStoreApi.Application/Dtos/BookCreateDto.cs:9-13 | a body naming no member is rejected |
| `ApplicationCreateDto.ValidBounds` | BookStoreApi.Application/Dtos/BookCreateDto.cs:7-19 | a valid layered creation payload has title 1..100, author 1..50, year 1500..2100 and price 1.00..1000.00 |
| `UpdateDto.AuthorIdAndDateUnconstrained` | BookStoreApi.Application/Dtos/BookUpdateDto.cs:11-15 | `[Required]` on the value-typed AuthorId and PublishDate rejects no value: validity does not depend on them |
| `UpdateDto.ValidBounds` | BookStoreApi.Application/Dtos/BookUpdateDto.cs:7-18 | a valid update payload has a title of 1..100 characters and a price in 1.00..1000.00 |
| `AuthorDto.OmittedInvalid` | BookStoreApi.Application/Dtos/AuthorCreateDto.cs:7 | an omitted FullName ("") is rejected |
| `AuthorDto.ValidBounds` | BookStoreApi.Application/Dtos/AuthorCreateDto.cs:7 | a valid FullName has 1..100 characters |
| `AuthorDto.LengthLimit` | BookStoreApi.Application/Dtos/AuthorCreateDto.cs:7 | the limit is exact: 100 letters pass and 101 fail |
| `PatchDto.AllAbsentIsValid` | BookStoreApi/Dtos/BookPatchDto.cs:7-17 | no member is required: the all-null projection is valid |
| `PatchDto.ValidBounds` | BookStoreApi/Dtos/BookPatchDto.cs:7-17 | each present member of a valid projection is within its bound: strings at most 100, year 1500..2100, price 0.01..1000.00 |
| `PatchDto.AuthorLooserThanCreate` | BookStoreApi/Dtos/BookPatchDto.cs:10-11 | a patched Author of 100 characters passes, though creation caps Author at 50 |
| `PatchDto.EmptyTitleIsValid` | BookStoreApi/Dtos/BookPatchDto.cs:7-8 | `[StringLength(100)]` lets an empty title through |
| `Tables.Table.Find` | BookStoreApi.Infrastructure/Repositories/BookRepository.cs:22-25 | the lookup yields an entity exactly when one is stored under the key, and then that entity |
| `Tables.Table.All` | BookStoreApi.Infrastructure/Repositories/BookRepository.cs:17-20 | the listing has one entry per stored entity: as many entries as rows, each entry the entity under a key of its own, no key read twice, each stored entity listed |
| `Tables.Table.Add` | BookStoreApi.Infrastructure/Repositories/BookRepository.cs:27-30 | the new entity is stored under a key not in use, with that key as its Id, and nothing else changes |
| `Tables.Table.Write` | BookStoreApi.Infrastructure/Repositories/BookRepository.cs:32-35 | only the entity under the key is replaced |
| `Tables.Table.Remove` | BookStoreApi.Infrastructure/Repositories/BookRepository.cs:37-40 | exactly the entity under the key is removed |
| `Tables.Table.SaveChanges` | BookStoreApi.Infrastructure/Repositories/BookRepository.cs:42-45 | one more save; the rows stay |
| `Books.NewBookReadsAsPayload` | BookStoreApi/Profiles/BooksProfile.cs:12 | a book mapped from a creation payload reads back as that payload under its store id |
| `Books.UpdatedIsFullReplace` | BookStoreApi/Profiles/BooksProfile.cs:13 | an update keeps Id, takes all four payload members, and does not depend on the book it replaces |
| `Books.UpdatedIdempotent` | BookStoreApi/Profiles/BooksProfile.cs:13 | updating twice with one payload equals updating once |
| `Books.MapBackOfProjection` | BookStoreApi/Profiles/BooksProfile.cs:14 | mapping a book's own patch projection back onto it gives the same book, whatever a null member would be mapped to |
| `Books.ProjectionOfMapBack` | BookStoreApi/Profiles/BooksProfile.cs:14 | a projection with every member set survives mapping onto a book and projecting again |
| `Books.PatchGate` | BookStoreApi/Services/BooksService.cs:63-67 | the document's errors are appended to the model state, and the book is written exactly when neither the incoming state nor the document holds an error |
| `Books.PatchKeepsId` | BookStoreApi/Services/BooksService.cs:59-70 | a written book keeps the stored book's Id |
| `Books.PatchMerges` | BookStoreApi/Services/BooksService.cs:69-70 | the write-back is member by member: a member the patched projection holds is written with that value, and a member it made null gets what the map writes for a null |
| `Books.EmptyPatchWritesSameBook` | BookStoreApi/Services/BooksService.cs:59-72 | a document that changes and records nothing writes back the unchanged book |
| `Books.PatchSkipsAnnotations` | BookStoreApi/Services/BooksService.cs:65-67 | a document setting a 101-character title gets it written, though the projection's `[StringLength(100)]` rejects it |
| `Books.ValidatedPatchKeepsRules` | BookStoreApi/Services/BooksService.cs:65-70 | with the projection's attributes checked before writing, a book is written only from a valid projection, exactly when the unvalidated pipeline writes and the projection is valid, and then as that pipeline writes it; when the projection holds every member, the written book's own projection is valid |
| `RepositoryBooksService.BooksService.GetAll` | BookStoreApi/Services/BooksService.cs:22-26 | one projection per stored book: as many as stored, each the projection of the book under its id, every book represented |
| `RepositoryBooksService.BooksService.GetById` | BookStoreApi/Services/BooksService.cs:28-32 | null exactly when no book has the id, else that book's projection |
| `RepositoryBooksService.BooksService.Create` | BookStoreApi/Services/BooksService.cs:34-40 | the payload's book stored under a fresh id, one save, and the result is its projection |
| `RepositoryBooksService.BooksService.Update` | BookStoreApi/Services/BooksService.cs:42-51 | false with no change or save for an absent id; otherwise the payload replaces that book's members, Id kept, one save, true |
| `RepositoryBooksService.BooksService.PatchBook` | BookStoreApi/Services/BooksService.cs:53-73 | false with no change, save or new error for an absent id; otherwise the outcome of the patch pipeline on that book: the book written and saved once exactly when the model state stays empty |
| `RepositoryBooksService.BooksService.Delete` | BookStoreApi/Services/BooksService.cs:75-83 | false with no save for an absent id; otherwise exactly that book removed, one save, true |
| `ContextBooksService.BooksService.GetAll` | Services/BooksService.cs:21-25 | one projection per stored book: as many as stored, each the projection of the book under its id, every book represented |
| `ContextBooksService.BooksService.GetById` | Services/BooksService.cs:27-31 | null exactly when no book has the id, else that book's projection |
| `ContextBooksService.BooksService.Create` | Services/BooksService.cs:33-39 | the payload's book stored under a fresh id, one save, and the result is its projection |
| `ContextBooksService.BooksService.Update` | Services/BooksService.cs:41-50 | false with no change or save for an absent id; otherwise the payload replaces that book's members, Id kept, one save, true |
| `ContextBooksService.BooksService.PatchBook` | Services/BooksService.cs:52-72 | false with no change, save or new error for an absent id; otherwise the patch pipeline's outcome on that book, written and saved once exactly when the model state stays empty |
| `ContextBooksService.BooksService.Delete` | Services/BooksService.cs:74-82 | false with no save for an absent id; otherwise exactly that book removed, one save, true |
| `BookControllers.AssignedIsFullReplace` | Controllers/BookController.cs:80-83 | the four assignments keep Id, take every payload member, and do not depend on the replaced values |
| `BookControllers.AssignedIdempotent` | Controllers/BookController.cs:80-83 | sending one full update twice leaves the book as sending it once |
| `BookControllers.AssignedIsNewBook` | Controllers/BookController.cs:54-59 | an updated book is exactly the book a create with the same payload would have built under that id |
| `BookControllers.BookController.GetBooks` | Controllers/BookController.cs:19-32 | Ok with one projection per stored book, each copying Id, Title, Author, Year and Price of the book under its id |
| `BookControllers.BookController.GetBook` | Controllers/BookController.cs:34-49 | NotFound exactly when no book has the id, else Ok with that book's projection |
| `BookControllers.BookController.CreateBook` | Controllers/BookController.cs:51-72 | CreatedAt a fresh id, the payload's book stored there, one save, and the body carries that id and the payload's members |
| `BookControllers.BookController.UpdateBook` | Controllers/BookController.cs:74-86 | NotFound with no change for an absent id; otherwise NoContent, the four members replaced, Id kept, one save |
| `BookControllers.BookController.DeleteBook` | Controllers/BookController.cs:88-97 | NotFound with no save for an absent id; otherwise NoContent, exactly that book removed, one save |
| `ApplicationBooksService.UpdatedIsFullReplace` | BookStoreApi.Application/Services/BooksService.cs:46 | the update copies Title, AuthorId, PublishDate and Price, keeps Id, and does not depend on the replaced book |
| `ApplicationBooksService.UpdatedIdempotent` | BookStoreApi.Application/Services/BooksService.cs:46 | mapping one update payload twice equals mapping it once |
| `ApplicationBooksService.RereadByAuthorId` | BookStoreApi.Application/Services/BooksService.cs:37-38 | re-reading by the new book's AuthorId returns the new book exactly when its AuthorId equals its Id |
| `ApplicationBooksService.CreateIntoEmptyStoreReadsNothing` | BookStoreApi.Application/Services/BooksService.cs:33-38 | the first book created in an empty store has Id 1 and AuthorId 0, and the re-read finds nothing |
| `ApplicationBooksService.BooksService.GetAllAsync` | BookStoreApi.Application/Services/BooksService.cs:19-23 | one projection per stored book, each the projection of the book under its id, every book represented |
| `ApplicationBooksService.BooksService.GetByIdAsync` | BookStoreApi.Application/Services/BooksService.cs:25-29 | null exactly when no book has the id, else that book's projection |
| `ApplicationBooksService.BooksService.CreateAsync` | BookStoreApi.Application/Services/BooksService.cs:31-39 | the mapped book stored under a fresh id, one save; the result is what the store holds under the book's AuthorId, and it is the new book's projection exactly when the new id equals the default AuthorId |
| `ApplicationBooksService.BooksService.CreateAsyncRereadById` | BookStoreApi.Application/Services/BooksService.cs:31-39 | the same store change, with the re-read by Id: the result is always the new book's projection |
| `ApplicationBooksService.BooksService.UpdateAsync` | BookStoreApi.Application/Services/BooksService.cs:41-49 | false with no save for an absent id; otherwise Title, AuthorId, PublishDate and Price copied, Id kept, one save, true |
| `ApplicationBooksService.BooksService.DeleteAsync` | BookStoreApi.Application/Services/BooksService.cs:50-58 | false with no save for an absent id; otherwise exactly that book removed, one save, true |
| `ApplicationAuthorsService.UpdatedIsFullReplace` | BookStoreApi.Application/Services/AuthorsService.cs:45 | the update keeps Id, does not depend on the replaced name, leaves the author as a creation with the same name would build it under that Id, and is idempotent |
| `ApplicationAuthorsService.AuthorsService.GetAllAsync` | BookStoreApi.Application/Services/AuthorsService.cs:18-22 | one projection per stored author, each the projection of the author under its id, every author represented |
| `ApplicationAuthorsService.AuthorsService.GetByIdAsync` | BookStoreApi.Application/Services/AuthorsService.cs:24-28 | the mapped lookup: null exactly when no author has the id, else that author's projection |
| `ApplicationAuthorsService.AuthorsService.CreateAsync` | BookStoreApi.Application/Services/AuthorsService.cs:30-38 | the author stored under a fresh id, one save, and the result is always the stored author's projection, re-read by its own Id and carrying that Id |
| `ApplicationAuthorsService.AuthorsService.UpdateAsync` | BookStoreApi.Application/Services/AuthorsService.cs:40-49 | false with no save for an absent id; otherwise the name replaced, Id kept, one save, true |
| `ApplicationAuthorsService.AuthorsService.DeleteAsync` | BookStoreApi.Application/Services/AuthorsService.cs:51-59 | false with no save for an absent id; otherwise exactly that author removed, one save, true |

The module `Scenarios` calls the services on concrete stores, and the outcome
of each call is verified. It covers the cases of `BookStoreApi.Tests/Tests/Services/BooksServiceTests.cs` (get all,
get by id found and missing, create with one save, update and delete present
and missing). It also covers a title patch that keeps the price, a patch that
makes the title null, a patch of a missing id, a patch whose document records
an error, create then delete, a
repeated controller update, and the layered `CreateAsync` returning null.

## Left out

- Asynchronous calls: modelled in sequence. Two requests interleaving (the
  lost update on Update or Patch) are not modelled.
- Integer width: `int` members are unbounded. `decimal` prices are exact
  integer cents, so a price with more than two decimal places (12.345) is
  not represented. Only `BookStoreApi.Infrastructure/Data/AppDbContext.cs:15-17`
  declares a precision; the other contexts and the in-memory provider of
  `BookStoreApi/Program.cs:20` store such a price as sent.
- Null strings are not modelled. A string member is always a string, so
  `[Required]` can fail only on empty and white-space strings.
- Price rounding: `[Range(1,1000)]` and `[Range(0,1000)]` on a `decimal`
  compare the price after `Convert.ToInt32`, which rounds half to even. So
  `[Range(1,1000)]` accepts 0.51..1000.50 and `[Range(0,1000)]` accepts
  -0.50..1000.50. The model compares the cents value exactly, as 1.00..1000.00
  and 0.00..1000.00. `CreateDto.ValidBounds`, `ApplicationCreateDto.ValidBounds`,
  `ApplicationCreateDto.StricterThanController` and `UpdateDto.ValidBounds`
  are exact for that comparison and differ from .NET on the prices 0.51..0.99,
  -0.50..-0.01 and 1000.01..1000.50.
- `Books.MapBack`: AutoMapper's default `Map(bookToPatch, book)` writes a
  null patched member through. Title and Author become null references,
  which this model's strings cannot hold. Year and Price get defaults. The
  model takes these values as the parameter `Books.NullMapped` and asserts
  none of them. In particular, it does not claim a null member keeps the
  stored value.
- `Books.ValidatedPatchKeepsRules`: promises that the written book's own
  projection meets the rules only when the patched projection holds every
  member. A member the patch made null is written as the map writes a null.
  For Year that is a default that `[Range(1500, 2100)]` rejects.
- JSON Patch `ApplyTo` is a function parameter. How operations, paths and
  their order are interpreted (later operations win, unknown paths
  recorded as errors) belongs to that library and is not modelled.
- `ModelState.IsValid` is modelled as "the model state holds no error".
- The `GetByIdForPatch` and `ApplyPatch` exercised by
  `BookStoreApi.Tests/Tests/Services/BooksServiceTests.cs:168-230` exist in
  no service source. They are not modelled; `PatchBook` is.
- `BookUpdateDto` of the first snapshots: its file is not part of this
  model. Its members (Title, Author, Year, Price) are those the tests give it.
- The Author entity and `AuthorUpdateDto` are not part of this model. The
  author is modelled as an Id and the `FullName` its creation payload names,
  and the update payload as that name.
- `ApplicationAuthorsService.AuthorsService.CreateAsync`: promises the
  created author's projection with its Id. It does not promise that the
  payload's `FullName` comes back. `BookStoreApi.Application/Dtos/AuthorReadDto.cs`
  has `FirstName` and `LastName` and no `FullName`. How those names come
  from the entity is not part of this model, so the model reads them off
  the author by the uninterpreted function `namesOf`. The projection's
  `Books` collection is left out.
- `ApplicationBooksService.BookReadDto` leaves out the `Author` display
  name. `BookStoreApi/Profiles/MappingProfile.cs:12-13` builds it from the
  Author entity's names, which are not part of this model. The `Author`
  navigation member of the layered Book is left out for the same reason.
- `ApplicationBooksService.NewBook`: the `BookCreateDto` that the layered
  `CreateAsync` binds is not part of this model.
  `BookStoreApi.Application/Dtos/BookCreateDto.cs` declares
  `namespace BookStoreApi.Dtos`. Neither the layered service nor its mapping
  profile imports that namespace. The payload is assumed to have that file's
  members (Title, Author, Year, Price). It then has no AuthorId or
  PublishDate, so the book gets AuthorId 0 and PublishDate 0001-01-01.
  Its `Author` string would meet the layered Book's `Author` member
  (`BookStoreApi.Domain/Entities/Book.cs:13`, of type `Author`).
  `BookStoreApi/Profiles/MappingProfile.cs` defines no map from a string to
  `Author`, so by AutoMapper's documented behaviour the map at line 33 most
  likely throws for any non-null Author, before anything is stored. Nothing
  was executed. The model takes the map to complete and writes no Author.
- Failures of the store and of the patch library: no `SaveChanges`, `Save`,
  `SaveAsync` or `ApplyTo` call fails in the model. In the source such an
  exception (a database error, a malformed patch operation) leaves the
  service uncaught, and nothing after it runs.
- `[ApiController]` (`Controllers/BookController.cs:8`) answers 400 before
  `CreateBook` or `UpdateBook` runs on a payload that fails its attributes.
  The modelled methods accept any payload, and no contract connects the
  `IsValid` predicates to what the store holds. The predicates and their
  lemmas state what that filter lets through.
- The layered repository's `Include` of navigation members is not modelled.
- Deleting an author who still has books: the cascade or restrict
  behaviour belongs to the database and is not modelled.
- HTTP glue is not modelled: routing, status codes beyond the outcome
  datatype, dependency injection and Swagger. This includes the
  `[HttpGet("id")]` route at `Controllers/BookController.cs:34`, which
  binds `id` from the query string.
- `Tables.Table.All` lists rows in key order. The database's order is not
  specified, and no contract depends on the order.

## Findings

| source | as written | input that shows it | evidently intended | confidence | as-written member | corrected member |
|---|---|---|---|---|---|---|
| BookStoreApi.Application/Services/BooksService.cs:37 | `CreateAsync` re-reads the saved book with `GetByIdAsync(book.AuthorId)` | an empty store and any creation payload with the members of BookStoreApi.Application/Dtos/BookCreateDto.cs, which has no AuthorId (an assumption, see Left out): the new book gets Id 1 and AuthorId 0, the re-read of key 0 finds nothing, and the result is null; this needs the map at line 33 to complete, which with that payload it most likely does not (see Left out). Whatever the payload, the result is the new book only when its AuthorId equals its new Id | re-read by `book.Id`, as `AuthorsService.CreateAsync` does, so the result is the created book's projection | not executed | `ApplicationBooksService.CreateIntoEmptyStoreReadsNothing` | `ApplicationBooksService.BooksService.CreateAsyncRereadById` |
| BookStoreApi/Services/BooksService.cs:65-67 | `PatchBook` checks only the errors the patch document recorded. The patched `BookPatchDto` is never validated against its own attributes. | a "replace /title" operation with a 101-character string: no error is recorded, and the title is written and saved | the patched projection is validated (`TryValidateModel`) and rejected when it breaks `[StringLength(100)]` or a `[Range]` | not executed | `Books.PatchSkipsAnnotations` | `Books.ValidatedPatchKeepsRules` |

The same gap exists in `Services/BooksService.cs:64-66`. The behaviour
intended for the patch pipeline is validation of the patched projection; the
model follows the code as written. `Scenarios.PatchWritesOverlongTitle` shows
the overlong title stored.
