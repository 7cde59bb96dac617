/**
 * The media item shape of types/tmdb.ts, shared by the watch list and the recommendation view.
 * An id is a TMDB number or, once obfuscated, a string token; the optional and nullable fields
 * of the interfaces are `Option`s.
 */
module MediaTypes {
  import opened Wrappers
  import opened Text

  datatype MediaId = NumberId(n: int) | StringId(s: string)

  /** `String(id)`: the form in which the watch list compares ids. */
  function IdString(id: MediaId): string {
    match id
    case NumberId(n) => IntToString(n)
    case StringId(s) => s
  }

  /** Two numeric ids compare equal as strings only when they are the same number, while a number
      and the string of its digits compare equal. */
  lemma IdStringOfNumbers(a: int, b: int)
    ensures IdString(NumberId(a)) == IdString(NumberId(b)) <==> a == b
    ensures IdString(NumberId(a)) == IdString(StringId(IntToString(a)))
  {
    if IdString(NumberId(a)) == IdString(NumberId(b)) {
      ParseIntToString(a);
      ParseIntToString(b);
    }
  }

  /** A movie or TV show as the pages hold it. `title` is the movie title and `name` the show
      name; the vote fields are numbers. */
  datatype MediaItem = MediaItem(
    id: MediaId,
    title: Option<string>,
    name: Option<string>,
    posterPath: Option<string>,
    backdropPath: Option<string>,
    overview: Option<string>,
    releaseDate: Option<string>,
    voteAverage: real,
    voteCount: real,
    mediaType: Option<string>,
    originalLanguage: Option<string>)
}
