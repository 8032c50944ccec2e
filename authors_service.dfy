/**
 * AuthorsService of the layered snapshot
 * (BookStoreApi.Application/Services/AuthorsService.cs): author CRUD over the
 * author repository, with the asynchronous calls taken in sequence.
 */
module ApplicationAuthorsService {

  import opened Wrappers
  import opened Tables
  import opened Domain
  import AuthorDto

  /** The names an author's projection shows. */
  datatype AuthorNames = AuthorNames(firstName: string, lastName: string)

  /** AuthorReadDto: Id, FirstName and LastName (the Books collection is not part of this model). */
  datatype AuthorReadDto = AuthorReadDto(id: int, firstName: string, lastName: string)

  /** The author update payload: the name again. */
  datatype AuthorUpdateDto = AuthorUpdateDto(fullName: string)

  /**
   * Map<AuthorReadDto>(author): the Id, and the names that `namesOf` reads
   * off the author; how the Author entity's members map to them is not part
   * of this model.
   */
  function ToReadDto(a: Author, namesOf: Author -> AuthorNames): AuthorReadDto {
    AuthorReadDto(a.id, namesOf(a).firstName, namesOf(a).lastName)
  }

  /** Map<AuthorReadDto> of an author that may be null. */
  function Project(author: Option<Author>, namesOf: Author -> AuthorNames): Option<AuthorReadDto> {
    match author
    case None => None
    case Some(a) => Some(ToReadDto(a, namesOf))
  }

  /** Map<Author>(createDto) with `id` written in by the store. */
  function NewAuthor(id: int, d: AuthorDto.AuthorCreateDto): Author {
    Author(id, d.fullName)
  }

  /** Map(updateDto, author): the name is replaced, the Id stays. */
  function Updated(a: Author, d: AuthorUpdateDto): Author {
    Author(a.id, d.fullName)
  }

  /**
   * An update keeps the Id, does not depend on the name it replaces, and
   * leaves the author as a creation with the same name would have built it
   * under that Id; updating twice is updating once.
   */
  lemma UpdatedIsFullReplace(a: Author, b: Author, d: AuthorUpdateDto)
    ensures Updated(a, d).id == a.id
    ensures a.id == b.id ==> Updated(a, d) == Updated(b, d)
    ensures Updated(a, d) == NewAuthor(a.id, AuthorDto.AuthorCreateDto(d.fullName))
    ensures Updated(Updated(a, d), d) == Updated(a, d)
  {
  }

  class AuthorsService {
    /** The injected IAuthorRepository. */
    const repository: Table<Author>
    /** What the author map reads off an author for the projection's names. */
    const namesOf: Author -> AuthorNames

    ghost predicate Valid()
      reads this, repository
    {
      repository.Valid() && KeysMatchIds(repository.rows, IdOfAuthor)
    }

    constructor (repository: Table<Author>, namesOf: Author -> AuthorNames)
      requires repository.Valid() && KeysMatchIds(repository.rows, IdOfAuthor)
      ensures this.repository == repository && this.namesOf == namesOf && Valid()
    {
      this.repository := repository;
      this.namesOf := namesOf;
    }

    /** One projection per stored author; nothing changes. */
    method GetAllAsync() returns (r: seq<AuthorReadDto>)
      requires Valid()
      ensures |r| == |repository.rows|
      ensures forall i :: 0 <= i < |r| ==> r[i].id in repository.rows && r[i] == ToReadDto(repository.rows[r[i].id], namesOf)
      ensures forall k :: k in repository.rows ==> ToReadDto(repository.rows[k], namesOf) in r
    {
      var authors, keys := repository.All();
      r := seq(|authors|, i requires 0 <= i < |authors| => ToReadDto(authors[i], namesOf));
      ProjectedListing(repository.rows, authors, keys, r, (a: Author) => ToReadDto(a, namesOf), (d: AuthorReadDto) => d.id);
    }

    /**
     * The mapped lookup, with no not-found branch of its own: null exactly
     * when no author has `id`, otherwise that author's projection.
     */
    function GetByIdAsync(id: int): (r: Option<AuthorReadDto>)
      requires Valid()
      reads this, repository
      ensures r.None? <==> id !in repository.rows
      ensures r.Some? ==> r.value.id == id && r.value == ToReadDto(repository.rows[id], namesOf)
    {
      Project(repository.Find(id), namesOf)
    }

    /** One new author under a fresh `id`, one save; the result is that author re-read by its own Id. */
    method CreateAsync(authorDto: AuthorDto.AuthorCreateDto) returns (r: Option<AuthorReadDto>, ghost id: int)
      requires Valid()
      modifies repository
      ensures Valid()
      ensures id !in old(repository.rows)
      ensures repository.rows == old(repository.rows)[id := NewAuthor(id, authorDto)]
      ensures repository.saves == old(repository.saves) + 1
      ensures r == Some(ToReadDto(NewAuthor(id, authorDto), namesOf)) && r.value.id == id
    {
      var key := repository.Add(k => NewAuthor(k, authorDto));
      id := key;
      repository.SaveChanges();
      var author := repository.rows[key];
      var retrieved := repository.Find(author.id);
      r := Project(retrieved, namesOf);
    }

    /**
     * False, with no save, when no author has `id`; otherwise the payload is
     * mapped onto it (and Update marks it modified), its Id stays, one save, true.
     */
    method UpdateAsync(id: int, authorDto: AuthorUpdateDto) returns (ok: bool)
      requires Valid()
      modifies repository
      ensures Valid()
      ensures ok <==> id in old(repository.rows)
      ensures !ok ==> repository.rows == old(repository.rows) && repository.saves == old(repository.saves)
      ensures ok ==> repository.rows == old(repository.rows)[id := Updated(old(repository.rows)[id], authorDto)]
      ensures ok ==> repository.saves == old(repository.saves) + 1
    {
      var retrieved := repository.Find(id);
      if retrieved.None? {
        return false;
      }
      repository.Write(id, Updated(retrieved.value, authorDto));
      repository.SaveChanges();
      ok := true;
    }

    /** False with no change when no author has `id`; otherwise exactly that author is removed, one save, true. */
    method DeleteAsync(id: int) returns (ok: bool)
      requires Valid()
      modifies repository
      ensures Valid()
      ensures ok <==> id in old(repository.rows)
      ensures repository.rows == old(repository.rows) - {id}
      ensures repository.saves == old(repository.saves) + (if ok then 1 else 0)
    {
      var retrieved := repository.Find(id);
      if retrieved.None? {
        return false;
      }
      repository.Remove(id);
      repository.SaveChanges();
      ok := true;
    }
  }
}
