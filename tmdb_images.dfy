/**
 * The image URL helpers of lib/tmdb.ts: a TMDB image path (such as "/abc.jpg") becomes a URL on
 * the TMDB image host, and a missing or empty path becomes a fallback.
 */
module TmdbImages {
  import opened Wrappers
  import opened Text

  const IMAGE_BASE_URL := "https://image.tmdb.org/t/p"
  const IMAGE_BASE_URL_ORIGINAL := "https://image.tmdb.org/t/p/original"
  const PLACEHOLDER_POSTER := "/placeholder-poster.png"

  /** `getImageUrl(posterPath, size = "w500")` */
  function ImageUrl(posterPath: Option<string>, size: string := "w500"): (url: string)
    ensures !Truthy(posterPath) ==> url == PLACEHOLDER_POSTER
    ensures Truthy(posterPath) ==>
      url == IMAGE_BASE_URL + "/" + size + posterPath.value && url != PLACEHOLDER_POSTER
  {
    if !Truthy(posterPath) then PLACEHOLDER_POSTER
    else
      var url := IMAGE_BASE_URL + "/" + size + posterPath.value;
      assert url[0] != PLACEHOLDER_POSTER[0];
      url
  }

  /** `getBackdropUrl(backdropPath)`: empty exactly when there is no path. */
  function BackdropUrl(backdropPath: Option<string>): (url: string)
    ensures url == "" <==> !Truthy(backdropPath)
    ensures Truthy(backdropPath) ==> url == IMAGE_BASE_URL_ORIGINAL + backdropPath.value
  {
    if !Truthy(backdropPath) then "" else IMAGE_BASE_URL_ORIGINAL + backdropPath.value
  }

  /** For a given size, different poster paths give different URLs, and the path is the tail of
      the URL after the base, the slash and the size. */
  lemma ImageUrlRecoversPath(p: string, q: string, size: string)
    requires p != "" && q != ""
    ensures var u := ImageUrl(Some(p), size);
      u[|IMAGE_BASE_URL| + 1 + |size|..] == p
    ensures ImageUrl(Some(p), size) == ImageUrl(Some(q), size) ==> p == q
  {
    var u, v := ImageUrl(Some(p), size), ImageUrl(Some(q), size);
    var n := |IMAGE_BASE_URL| + 1 + |size|;
    assert u[n..] == p;
    assert v[n..] == q;
  }

  /** Different backdrop paths give different URLs. */
  lemma BackdropUrlRecoversPath(p: string, q: string)
    requires p != "" && q != ""
    ensures BackdropUrl(Some(p))[|IMAGE_BASE_URL_ORIGINAL|..] == p
    ensures BackdropUrl(Some(p)) == BackdropUrl(Some(q)) ==> p == q
  {
    assert BackdropUrl(Some(p))[|IMAGE_BASE_URL_ORIGINAL|..] == p;
    assert BackdropUrl(Some(q))[|IMAGE_BASE_URL_ORIGINAL|..] == q;
  }
}
