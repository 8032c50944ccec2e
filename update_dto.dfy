/**
 * The full-update payload of the layered snapshot
 * (BookStoreApi.Application/Dtos/BookUpdateDto.cs): one member for every
 * mutable member of the layered Book.
 */
module UpdateDto {

  import opened Annotations

  /** PublishDate is a DateOnly, held as its DayNumber (days since 0001-01-01). */
  datatype BookUpdateDto = BookUpdateDto(title: string, authorId: int, publishDate: int, price: Cents)

  /** [Required] on the value-typed AuthorId and PublishDate never fails, so only Title and Price are checked. */
  predicate IsValid(d: BookUpdateDto) {
    && Required(d.title) && MaxLength(d.title, 100)
    && InRange(d.price, 100, 100000)
  }

  /** No AuthorId and no PublishDate is ever rejected. */
  lemma AuthorIdAndDateUnconstrained(d: BookUpdateDto, authorId: int, publishDate: int)
    ensures IsValid(d) <==> IsValid(d.(authorId := authorId, publishDate := publishDate))
  {
  }

  /** A valid payload has a title of 1 to 100 characters and a price of 1.00 to 1000.00. */
  lemma {:induction false} ValidBounds(d: BookUpdateDto)
    requires IsValid(d)
    ensures 1 <= |d.title| <= 100 && 100 <= d.price <= 100000
  {
    RequiredMaxLengthBounds(d.title, 100);
  }
}
