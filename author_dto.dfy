/** The author-creation payload (BookStoreApi.Application/Dtos/AuthorCreateDto.cs). */
module AuthorDto {

  import opened Annotations

  /** The payload has no Id member: the caller cannot choose the author's id. */
  datatype AuthorCreateDto = AuthorCreateDto(fullName: string)

  /** [Required] [MaxLength(100)] on FullName. */
  predicate IsValid(d: AuthorCreateDto) {
    Required(d.fullName) && MaxLength(d.fullName, 100)
  }

  /** FullName defaults to "": a body that omits it fails [Required]. */
  lemma OmittedInvalid()
    ensures !IsValid(AuthorCreateDto(""))
  {
  }

  /** A valid name has 1 to 100 characters. */
  lemma {:induction false} ValidBounds(d: AuthorCreateDto)
    requires IsValid(d)
    ensures 1 <= |d.fullName| <= 100
  {
    RequiredMaxLengthBounds(d.fullName, 100);
  }

  /** The bound is exactly 100: a run of 100 letters passes and one of 101 fails. */
  lemma {:induction false} LengthLimit()
    ensures IsValid(AuthorCreateDto(Repeat('a', 100)))
    ensures !IsValid(AuthorCreateDto(Repeat('a', 101)))
  {
    RepeatRules('a', 100);
    RepeatRules('a', 101);
  }
}
