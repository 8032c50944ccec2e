/**
 * The creation payload of the controller snapshot (Dtos/BookCreateDto.cs):
 * Title, Author, Year and Price, with their validation attributes.
 */
module CreateDto {

  import opened Annotations

  datatype BookCreateDto = BookCreateDto(title: string, author: string, year: int, price: Cents)

  /** What a body that names no member binds to: the C# initialisers ("" for the strings, 0 otherwise). */
  const Omitted := BookCreateDto("", "", 0, 0)

  /** Every attribute of the payload holds; Price is [Range(0,1000)], so zero is a valid price here. */
  predicate IsValid(d: BookCreateDto) {
    && Required(d.title) && MaxLength(d.title, 100)
    && Required(d.author) && MaxLength(d.author, 50)
    && InRange(d.year, 1500, 2100)
    && InRange(d.price, 0, 100000)
  }

  /** A valid payload's members, in characters and cents. */
  lemma {:induction false} ValidBounds(d: BookCreateDto)
    requires IsValid(d)
    ensures 1 <= |d.title| <= 100 && 1 <= |d.author| <= 50
    ensures 1500 <= d.year <= 2100 && 0 <= d.price <= 100000
  {
    RequiredMaxLengthBounds(d.title, 100);
    RequiredMaxLengthBounds(d.author, 50);
  }

  /** An omitted Title or Author is the empty string, which fails [Required]. */
  lemma OmittedStringsInvalid(d: BookCreateDto)
    requires d.title == "" || d.author == ""
    ensures !IsValid(d)
  {
  }

  /** The payload "New Book" by "Author" (2024) at 99.00 is valid. */
  lemma {:induction false} NewBookPayloadIsValid()
    ensures IsValid(BookCreateDto("New Book", "Author", 2024, 9900))
  {
    BmpUtf16Length("New Book");
    BmpUtf16Length("Author");
    assert !IsWhiteSpace("New Book"[0]) && !IsWhiteSpace("Author"[0]);
  }
}
