/**
 * The entities of the layered snapshot: the Book of
 * BookStoreApi.Domain/Entities/Book.cs and the Author it refers to.
 */
module Domain {

  import opened Annotations

  /**
   * Id, Title, Price, PublishDate (a DateOnly, held as its DayNumber: days
   * since 0001-01-01) and the AuthorId foreign key; the Author navigation
   * member is not part of this model.
   */
  datatype Book = Book(id: int, title: string, price: Cents, publishDate: int, authorId: int)

  /** An author: its Id and the one member its creation payload names. */
  datatype Author = Author(id: int, fullName: string)

  /** The key a book is stored under. */
  function IdOfBook(b: Book): int {
    b.id
  }

  /** The key an author is stored under. */
  function IdOfAuthor(a: Author): int {
    a.id
  }
}
