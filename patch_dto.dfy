/**
 * The patchable projection of a book (BookStoreApi/Dtos/BookPatchDto.cs):
 * every member nullable, each with its own validation attribute.
 */
module PatchDto {

  import opened Wrappers
  import opened Annotations

  /** None is a null member. There is no Id member, so no patch can address a book's id. */
  datatype BookPatchDto = BookPatchDto(title: Option<string>, author: Option<string>, year: Option<int>, price: Option<Cents>)

  /** The attributes of the projection; DataAnnotations let a null member pass every rule. */
  predicate IsValid(p: BookPatchDto) {
    && (p.title.Some? ==> StringLength(p.title.value, 0, 100))
    && (p.author.Some? ==> StringLength(p.author.value, 0, 100))
    && (p.year.Some? ==> InRange(p.year.value, 1500, 2100))
    && (p.price.Some? ==> InRange(p.price.value, 1, 100000))
  }

  /** No member is required: the projection with every member null is valid. */
  lemma AllAbsentIsValid()
    ensures IsValid(BookPatchDto(None, None, None, None))
  {
  }

  /** The rules in characters and cents: 0.01 to 1000.00 for the price. */
  lemma {:induction false} ValidBounds(p: BookPatchDto)
    requires IsValid(p)
    ensures p.title.Some? ==> |p.title.value| <= 100
    ensures p.author.Some? ==> |p.author.value| <= 100
    ensures p.year.Some? ==> 1500 <= p.year.value <= 2100
    ensures p.price.Some? ==> 1 <= p.price.value <= 100000
  {
    if p.title.Some? {
      Utf16LengthBounds(p.title.value);
    }
    if p.author.Some? {
      Utf16LengthBounds(p.author.value);
    }
  }

  /** A patched Author of 100 characters passes here, although creation allows only 50. */
  lemma {:induction false} AuthorLooserThanCreate()
    ensures IsValid(BookPatchDto(None, Some(Repeat('a', 100)), None, None))
    ensures !MaxLength(Repeat('a', 100), 50)
  {
    RepeatRules('a', 100);
  }

  /** Unlike [Required], [StringLength] lets an empty title through. */
  lemma EmptyTitleIsValid()
    ensures IsValid(BookPatchDto(Some(""), None, None, None))
  {
  }
}
