/**
 * The creation payload of the layered snapshot
 * (BookStoreApi.Application/Dtos/BookCreateDto.cs): the same members as the
 * controller snapshot's, but Price is [Range(1,1000)].
 */
module ApplicationCreateDto {

  import opened Annotations
  import CreateDto

  type BookCreateDto = CreateDto.BookCreateDto

  predicate IsValid(d: BookCreateDto) {
    && Required(d.title) && MaxLength(d.title, 100)
    && Required(d.author) && MaxLength(d.author, 50)
    && InRange(d.year, 1500, 2100)
    && InRange(d.price, 100, 100000)
  }

  /** This payload rule is the older one plus "the price is at least 1.00". */
  lemma StricterThanController(d: BookCreateDto)
    ensures IsValid(d) <==> CreateDto.IsValid(d) && d.price >= 100
  {
  }

  /** A free book passes the controller snapshot's rule and fails this one. */
  lemma {:induction false} ZeroPriceSeparates()
    ensures CreateDto.IsValid(CreateDto.BookCreateDto("New Book", "Author", 2024, 0))
    ensures !IsValid(CreateDto.BookCreateDto("New Book", "Author", 2024, 0))
  {
    CreateDto.NewBookPayloadIsValid();
  }

  /** A body that names no member fails: Title and Author default to "". */
  lemma OmittedInvalid()
    ensures !IsValid(CreateDto.Omitted)
  {
  }

  /** A valid payload's members, in characters and cents. */
  lemma {:induction false} ValidBounds(d: BookCreateDto)
    requires IsValid(d)
    ensures 1 <= |d.title| <= 100 && 1 <= |d.author| <= 50
    ensures 1500 <= d.year <= 2100 && 100 <= d.price <= 100000
  {
    RequiredMaxLengthBounds(d.title, 100);
    RequiredMaxLengthBounds(d.author, 50);
  }
}
