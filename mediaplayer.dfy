/**
 * The embed-URL catalogue of lib/mediaplayer.ts: which providers the player offers for movies and
 * for TV episodes, the URL each provider's template builds, and how the `cinescrape` provider picks
 * a stream from the sources its scraper returns. The network calls are not made here: a provider
 * that needs one yields the URL to fetch and which reader handles the response, and the readers
 * take the response as a parameter. The random delay before a scraper call is left out.
 */
module MediaPlayer {
  import opened Wrappers
  import opened Text

  /** The `MediaProvider` union. */
  datatype Provider =
    | Vidsrc | Vidsrc2 | VidsrcXyz | VidsrcPro | Flicky | FlickyAnime | EmbedSoap | AutoEmbed
    | SmashyStream | Anime | TwoAnimeSub | TwoEmbed | NontonGo | NontonGoAlt | AdminHiHi | VidLink
    | VidLinkDub | VidsrcNl | VidsrcRip | VidBinge | MoviesApi | Moviee | MultiEmbed | MultiEmbedVip
    | EmbedSu | VidsrcIcu | Filmxy | Cinescrape

  /** The provider's name in the union. */
  function Name(p: Provider): string {
    match p
    case Vidsrc => "vidsrc"
    case Vidsrc2 => "vidsrc2"
    case VidsrcXyz => "vidsrcxyz"
    case VidsrcPro => "vidsrcpro"
    case Flicky => "flicky"
    case FlickyAnime => "flickyanime"
    case EmbedSoap => "embedsoap"
    case AutoEmbed => "autoembed"
    case SmashyStream => "smashystream"
    case Anime => "anime"
    case TwoAnimeSub => "2animesub"
    case TwoEmbed => "2embed"
    case NontonGo => "nontonGo"
    case NontonGoAlt => "nontonGoAlt"
    case AdminHiHi => "AdminHiHi"
    case VidLink => "vidlink"
    case VidLinkDub => "vidlinkdub"
    case VidsrcNl => "vidsrcnl"
    case VidsrcRip => "vidsrc.rip"
    case VidBinge => "vidbinge"
    case MoviesApi => "moviesapi"
    case Moviee => "moviee"
    case MultiEmbed => "multiembed"
    case MultiEmbedVip => "multiembedvip"
    case EmbedSu => "embedsu"
    case VidsrcIcu => "vidsrcicu"
    case Filmxy => "filmxy"
    case Cinescrape => "cinescrape"
  }

  /** The providers offered first, in both lists. */
  const OK_PROVIDERS: set<Provider> :=
    {VidsrcXyz, Vidsrc, VidLink, VidsrcIcu, AutoEmbed, TwoEmbed, SmashyStream, MultiEmbed}

  const MOVIE_PROVIDERS: seq<Provider> := [
    VidsrcXyz, Vidsrc, VidLink, VidsrcIcu, AutoEmbed, TwoEmbed, SmashyStream, MultiEmbed,
    Vidsrc2, Flicky, EmbedSoap, Anime, TwoAnimeSub, NontonGo, AdminHiHi, VidLinkDub,
    VidsrcNl, VidsrcRip, VidBinge, MoviesApi, Moviee, EmbedSu, MultiEmbedVip, Filmxy,
    Cinescrape]

  const TV_PROVIDERS: seq<Provider> := [
    VidsrcXyz, Vidsrc, VidLink, VidsrcIcu, AutoEmbed, TwoEmbed, SmashyStream, MultiEmbed,
    Flicky, FlickyAnime, EmbedSoap, Anime, NontonGo, NontonGoAlt, TwoAnimeSub, AdminHiHi,
    MoviesApi, VidLinkDub, VidsrcNl, VidsrcRip, VidBinge, Moviee, MultiEmbedVip, EmbedSu,
    Cinescrape]

  /** The errors the two functions throw; `MissingData(p)` is the `TypeError` of reading the
      property `p` of a field the reply lacks. */
  datatype Failure =
    | NotRecognized | LanguageRequired | NetworkNotOk | NoM3u8Link | NoMovieStream | NoVideoData
    | NoTvSource | InvalidUrl | MissingData(property: string)

  /** The message of each thrown error. */
  function Message(f: Failure): string {
    match f
    case NotRecognized => "Provider not recognized."
    case LanguageRequired => "Language is required for filmxy provider"
    case NetworkNotOk => "Network response was not ok"
    case NoM3u8Link => "No m3u8 link found"
    case NoMovieStream => "No suitable 2160p or 1080p stream link found"
    case NoVideoData => "No video data available"
    case NoTvSource => "No suitable video source found"
    case InvalidUrl => "Invalid URL"
    case MissingData(p) => "Cannot read properties of undefined (reading '" + p + "')"
  }

  /** The colour parameters of the vidlink player: upper case for movies, and lower case for the
      TV icon colour. */
  const WHITE := "#FFFFFF"
  const WHITE_LOWER := "#ffffff"

  /** What happens to a scraper's response. */
  datatype Reader = FilmxyLink | CinescrapeMovie | CinescrapeTv

  /** The result of asking for an embed URL: the URL, a request still to be made, or the error
      thrown. */
  datatype Outcome = Url(url: string) | Fetch(request: string, reader: Reader) | Error(failure: Failure)

  /** A fetched response: not ok, or ok with its parsed body. */
  datatype Response<T> = NotOk | Ok(body: T)

  /** One stream of a scraper reply: its `quality` and its `metadata.baseUrl`, when present. */
  datatype Source = Source(quality: Option<string>, baseUrl: Option<string>)

  /** Every template starts with the https scheme. */
  const HTTPS := "https://"

  /** The providers whose movie URL is a fixed text around the id. */
  predicate HasMovieTemplate(provider: Provider) {
    provider !in {VidsrcPro, FlickyAnime, NontonGoAlt, Filmxy, AdminHiHi, Cinescrape}
  }

  /** The movie URL templates: the text before and after the id. */
  function MovieTemplate(provider: Provider): (t: (string, string))
    requires HasMovieTemplate(provider)
    ensures HTTPS <= t.0
  {
    match provider
    case Vidsrc => (HTTPS + "vidsrc.cc/v2/embed/movie/", "?autoPlay=true")
    case Vidsrc2 => (HTTPS + "vidsrc2.to/embed/movie/", "")
    case VidsrcXyz => (HTTPS + "vidsrc.xyz/embed/movie/", "")
    case Flicky => (HTTPS + "flicky.host/embed/movie/?id=", "")
    case EmbedSoap => (HTTPS + "www.embedsoap.com/embed/movie/?id=", "")
    case AutoEmbed => (HTTPS + "player.autoembed.cc/embed/movie/", "")
    case SmashyStream => (HTTPS + "player.smashy.stream/movie/", "")
    case Anime => (HTTPS + "anime.autoembed.cc/embed/", "-episode-1")
    case TwoAnimeSub => (HTTPS + "2anime.xyz/embed/", "-episode-1")
    case TwoEmbed => (HTTPS + "www.2embed.cc/embed/", "")
    case NontonGo => (HTTPS + "www.NontonGo.win/embed/movie/", "")
    case VidLink => (HTTPS + "vidlink.pro/movie/",
      "?primaryColor=" + WHITE + "&secondaryColor=" + WHITE + "&iconColor=" + WHITE + "&autoplay=false")
    case VidLinkDub => (HTTPS + "vidlink.pro/movie/",
      "?player=jw&multiLang=true&primaryColor=" + WHITE + "&secondaryColor=" + WHITE + "&iconColor=" + WHITE)
    case VidsrcNl => (HTTPS + "player.vidsrc.nl/embed/movie/", "")
    case VidsrcRip => (HTTPS + "vidsrc.rip/embed/movie/", "")
    case VidBinge => (HTTPS + "vidbinge.dev/embed/movie/", "")
    case MoviesApi => (HTTPS + "moviesapi.club/movie/", "")
    case Moviee => (HTTPS + "moviee.tv/embed/movie/", "")
    case MultiEmbed => (HTTPS + "multiembed.mov/?video_id=", "&tmdb=1")
    case EmbedSu => (HTTPS + "embed.su/embed/movie/", "")
    case MultiEmbedVip => (HTTPS + "multiembed.mov/directstream.php?video_id=", "&tmdb=1")
    case VidsrcIcu => (HTTPS + "vidsrc.icu/embed/movie/", "")
    case _ => assert false; ("", "")
  }

  /** `getMovieEmbedUrl(mediaId, provider, language)`, up to its network call. */
  function MovieEmbed(mediaId: string, provider: Provider, language: Option<string>): (o: Outcome)
    ensures o.Error? ==> o == Error(NotRecognized) || o == Error(LanguageRequired)
    ensures o == Error(LanguageRequired) <==> provider == Filmxy && !Truthy(language)
    ensures o == Error(NotRecognized) <==>
      !HasMovieTemplate(provider) && provider !in {Filmxy, AdminHiHi, Cinescrape}
  {
    if provider == Filmxy then
      if !Truthy(language) then Error(LanguageRequired)
      else Fetch("https://cinescrape.com/global/" + ToLower(language.value) + "/" + mediaId, FilmxyLink)
    else if provider == AdminHiHi then
      Url("https://embed.anicdn.top/v/" + Slug(mediaId) + "-dub/1.html")
    else if provider == Cinescrape then
      Fetch("https://scraper.cinescrape.com/movie/" + mediaId, CinescrapeMovie)
    else if HasMovieTemplate(provider) then
      var (before, after) := MovieTemplate(provider);
      Url(before + mediaId + after)
    else Error(NotRecognized)
  }

  /** The providers whose TV URL is a fixed text around the id, season and episode. */
  predicate HasTvTemplate(provider: Provider) {
    provider !in {Vidsrc2, Filmxy, Anime, TwoAnimeSub, AdminHiHi, Cinescrape}
  }

  /** The TV URL templates: the text before the id, between id and season, between season and
      episode, and after the episode. */
  function TvTemplate(provider: Provider): (t: (string, string, string, string))
    requires HasTvTemplate(provider)
    ensures HTTPS <= t.0
  {
    match provider
    case Vidsrc => (HTTPS + "vidsrc.cc/v2/embed/tv/", "/", "/", "?autoPlay=true&autoNext=true")
    case VidsrcPro => (HTTPS + "vidsrc.pro/embed/tv/", "/", "/", "")
    case Flicky => (HTTPS + "flicky.host/embed/tv/?id=", "/", "/", "")
    case FlickyAnime => (HTTPS + "flicky.host/embed/anime/?id=", "/", "/", "")
    case VidsrcXyz => (HTTPS + "vidsrc.xyz/embed/tv/", "?season=", "&episode=", "")
    case EmbedSoap => (HTTPS + "www.embedsoap.com/embed/tv/?id=", "&s=", "&e=", "")
    case AutoEmbed => (HTTPS + "player.autoembed.cc/embed/tv/", "/", "/", "")
    case SmashyStream => (HTTPS + "player.smashy.stream/tv/", "?s=", "&e=", "")
    case NontonGo => (HTTPS + "www.NontonGo.win/embed/tv/", "/", "/", "")
    case NontonGoAlt => (HTTPS + "www.NontonGo.win/embed/tv/?id=", "&s=", "&e=", "")
    case TwoEmbed => (HTTPS + "www.2embed.skin/embedtv/", "&s=", "&e=", "")
    case MoviesApi => (HTTPS + "moviesapi.club/tv/", "/", "/", "")
    case VidLink => (HTTPS + "vidlink.pro/tv/", "/", "/",
      "?primaryColor=" + WHITE + "&secondaryColor=" + WHITE + "&iconColor=" + WHITE_LOWER
      + "&nextbutton=true&autoplay=false")
    case VidLinkDub => (HTTPS + "vidlink.pro/tv/", "/", "/", "?player=jw&multiLang=true")
    case VidsrcNl => (HTTPS + "player.vidsrc.nl/embed/tv/", "/", "/", "")
    case VidsrcRip => (HTTPS + "vidsrc.rip/embed/tv/", "/", "/", "")
    case VidBinge => (HTTPS + "vidbinge.dev/embed/tv/", "/", "/", "")
    case Moviee => (HTTPS + "moviee.tv/embed/tv/", "?seasion=", "&episode=", "")
    case MultiEmbed => (HTTPS + "multiembed.mov/?video_id=", "&tmdb=1&s=", "&e=", "")
    case MultiEmbedVip => (HTTPS + "multiembed.mov/directstream.php?video_id=", "&tmdb=1&s=", "&e=", "")
    case VidsrcIcu => (HTTPS + "vidsrc.icu/embed/tv/", "/", "/", "")
    case EmbedSu => (HTTPS + "embed.su/embed/tv/", "/", "/", "")
    case _ => assert false; ("", "", "", "")
  }

  /** The anime slug: the show name with whitespace runs as "-", or the id when there is no name. */
  function ShowSlug(mediaId: string, mediaName: Option<string>, lowerCase: bool): (r: string)
    ensures !Truthy(mediaName) ==> r == mediaId
    ensures Truthy(mediaName) ==> |r| == |Slug(mediaName.value)| <= |mediaName.value|
    ensures Truthy(mediaName) ==> forall i :: 0 <= i < |r| ==> !IsWhitespace(r[i])
    ensures Truthy(mediaName) && lowerCase ==> forall i :: 0 <= i < |r| ==> !('A' <= r[i] <= 'Z')
    ensures Truthy(mediaName) && lowerCase ==> r == ToLower(Slug(mediaName.value))
    ensures Truthy(mediaName) && !lowerCase ==> r == Slug(mediaName.value)
  {
    if !Truthy(mediaName) then mediaId
    else if lowerCase then ToLower(Slug(mediaName.value))
    else Slug(mediaName.value)
  }

  /** `getTvEmbedUrl(mediaId, seasonId, episodeId, provider, mediaName)`, up to its network call. */
  function TvEmbed(mediaId: string, seasonId: int, episodeId: int, provider: Provider, mediaName: Option<string>)
    : (o: Outcome)
    ensures o.Error? ==> o == Error(NotRecognized)
    ensures o.Error? <==>
      !HasTvTemplate(provider) && provider !in {Anime, TwoAnimeSub, AdminHiHi, Cinescrape}
  {
    var season, episode := IntToString(seasonId), IntToString(episodeId);
    if provider == Anime then
      Url("https://anime.autoembed.cc/embed/" + ShowSlug(mediaId, mediaName, true) + "-episode-" + episode)
    else if provider == TwoAnimeSub then
      Url("https://2anime.xyz/embed/" + ShowSlug(mediaId, mediaName, true) + "-episode-" + episode)
    else if provider == AdminHiHi then
      Url("https://embed.anicdn.top/v/" + ShowSlug(mediaId, mediaName, false) + "-dub/" + episode + ".html")
    else if provider == Cinescrape then
      Fetch("https://scraper.cinescrape.com/tvshow/" + mediaId + "/" + season + "/" + episode, CinescrapeTv)
    else if HasTvTemplate(provider) then
      var (p0, p1, p2, p3) := TvTemplate(provider);
      Url(p0 + mediaId + p1 + season + p2 + episode + p3)
    else Error(NotRecognized)
  }

  /** The first eight providers of both lists are the same, and they are the OK providers. */
  lemma OkProvidersLead()
    ensures MOVIE_PROVIDERS[..8] == TV_PROVIDERS[..8]
    ensures OK_PROVIDERS == set p | p in MOVIE_PROVIDERS[..8]
    ensures forall p :: p in OK_PROVIDERS ==> p in MOVIE_PROVIDERS && p in TV_PROVIDERS
  {
    var lead := [VidsrcXyz, Vidsrc, VidLink, VidsrcIcu, AutoEmbed, TwoEmbed, SmashyStream, MultiEmbed];
    assert MOVIE_PROVIDERS[..8] == lead;
    assert TV_PROVIDERS[..8] == lead;
  }

  /** The providers missing from the movie list. */
  lemma MovieListed(p: Provider)
    ensures p in MOVIE_PROVIDERS <==> p !in {VidsrcPro, FlickyAnime, NontonGoAlt}
  {
    if p in MOVIE_PROVIDERS {
      MovieListOmits();
      var i :| 0 <= i < |MOVIE_PROVIDERS| && MOVIE_PROVIDERS[i] == p;
    }
  }

  lemma MovieListOmits()
    ensures forall i :: 0 <= i < |MOVIE_PROVIDERS| ==> MOVIE_PROVIDERS[i] !in {VidsrcPro, FlickyAnime, NontonGoAlt}
  {
  }

  /** The providers missing from the TV list. */
  lemma TvListed(p: Provider)
    ensures p in TV_PROVIDERS <==> p !in {Vidsrc2, VidsrcPro, Filmxy}
  {
    if p in TV_PROVIDERS {
      TvListOmits();
      var i :| 0 <= i < |TV_PROVIDERS| && TV_PROVIDERS[i] == p;
    }
  }

  lemma TvListOmits()
    ensures forall i :: 0 <= i < |TV_PROVIDERS| ==> TV_PROVIDERS[i] !in {Vidsrc2, VidsrcPro, Filmxy}
  {
  }

  /** Every listed movie provider has a case, and every provider with a case is listed. */
  lemma MovieProvidersCovered(mediaId: string, provider: Provider, language: Option<string>)
    ensures MovieEmbed(mediaId, provider, language) == Error(NotRecognized) <==> provider !in MOVIE_PROVIDERS
  {
    MovieListed(provider);
  }

  /** Every listed TV provider has a case, and so does `vidsrcpro`, which is not listed. */
  lemma TvProvidersCovered(mediaId: string, seasonId: int, episodeId: int, provider: Provider,
                           mediaName: Option<string>)
    ensures TvEmbed(mediaId, seasonId, episodeId, provider, mediaName) == Error(NotRecognized) <==>
      provider !in TV_PROVIDERS && provider != VidsrcPro
  {
    TvListed(provider);
  }

  /** Some providers have a case on one side only. */
  lemma UnrecognizedProviders(mediaId: string, seasonId: int, episodeId: int, language: Option<string>,
                              mediaName: Option<string>)
    ensures MovieEmbed(mediaId, VidsrcPro, language) == Error(NotRecognized)
    ensures MovieEmbed(mediaId, FlickyAnime, language) == Error(NotRecognized)
    ensures TvEmbed(mediaId, seasonId, episodeId, Vidsrc2, mediaName) == Error(NotRecognized)
    ensures TvEmbed(mediaId, seasonId, episodeId, Filmxy, mediaName) == Error(NotRecognized)
    ensures TvEmbed(mediaId, seasonId, episodeId, VidsrcPro, mediaName) != Error(NotRecognized)
  {
  }

  lemma ConcatCancel(before: string, a: string, b: string, after: string)
    requires before + a + after == before + b + after
    ensures a == b
  {
    var u, v := before + a + after, before + b + after;
    assert |a| == |b|;
    assert u[|before|..|before| + |a|] == a;
    assert v[|before|..|before| + |b|] == b;
  }

  /** Every template embeds the id verbatim, so different ids give different URLs. (The
      `AdminHiHi` slug, which rewrites whitespace, is the exception.) */
  lemma MovieUrlIdentifiesMedia(a: string, b: string, provider: Provider, language: Option<string>)
    requires provider != AdminHiHi
    requires MovieEmbed(a, provider, language).Url?
    requires MovieEmbed(a, provider, language) == MovieEmbed(b, provider, language)
    ensures a == b
  {
    assert provider != Filmxy && provider != Cinescrape && HasMovieTemplate(provider);
    var (before, after) := MovieTemplate(provider);
    assert MovieEmbed(a, provider, language).url == before + a + after;
    assert MovieEmbed(b, provider, language).url == before + b + after;
    ConcatCancel(before, a, b, after);
  }

  /** Every TV template embeds the id verbatim in front of the season and episode, so for one
      season and episode different ids give different URLs. */
  lemma TvUrlIdentifiesMedia(a: string, b: string, seasonId: int, episodeId: int, provider: Provider,
                             mediaName: Option<string>)
    requires HasTvTemplate(provider)
    requires TvEmbed(a, seasonId, episodeId, provider, mediaName) ==
      TvEmbed(b, seasonId, episodeId, provider, mediaName)
    ensures a == b
  {
    var (p0, p1, p2, p3) := TvTemplate(provider);
    var after := p1 + IntToString(seasonId) + p2 + IntToString(episodeId) + p3;
    TvTemplateUrl(a, seasonId, episodeId, provider, mediaName);
    TvTemplateUrl(b, seasonId, episodeId, provider, mediaName);
    ConcatCancel(p0, a, b, after);
  }

  /** The URL of a TV template, grouped as the text before the id, the id, and the rest. */
  lemma TvTemplateUrl(mediaId: string, seasonId: int, episodeId: int, provider: Provider,
                      mediaName: Option<string>)
    requires HasTvTemplate(provider)
    ensures var (p0, p1, p2, p3) := TvTemplate(provider);
      TvEmbed(mediaId, seasonId, episodeId, provider, mediaName) ==
        Url(p0 + mediaId + (p1 + IntToString(seasonId) + p2 + IntToString(episodeId) + p3))
  {
    var (p0, p1, p2, p3) := TvTemplate(provider);
    var season, episode := IntToString(seasonId), IntToString(episodeId);
    assert TvEmbed(mediaId, seasonId, episodeId, provider, mediaName) ==
      Url(p0 + mediaId + p1 + season + p2 + episode + p3);
    RegroupTail(p0 + mediaId, p1, season, p2, episode, p3);
  }

  lemma RegroupTail(h: string, p1: string, s: string, p2: string, e: string, p3: string)
    ensures h + p1 + s + p2 + e + p3 == h + (p1 + s + p2 + e + p3)
  {
  }

  /** The vidsrc.xyz movie URL, for instance. */
  lemma VidsrcXyzMovieUrl(mediaId: string, language: Option<string>)
    ensures MovieEmbed(mediaId, VidsrcXyz, language) == Url(HTTPS + "vidsrc.xyz/embed/movie/" + mediaId)
  {
  }

  /** The vidsrc.xyz TV URL: season and episode as query parameters. */
  lemma VidsrcXyzTvUrl(mediaId: string, seasonId: int, episodeId: int, mediaName: Option<string>)
    ensures TvEmbed(mediaId, seasonId, episodeId, VidsrcXyz, mediaName) ==
      Url(HTTPS + "vidsrc.xyz/embed/tv/" + mediaId + "?season=" + IntToString(seasonId)
        + "&episode=" + IntToString(episodeId))
  {
  }


  /** `s.replace(/\s+/g, "-")`: each run of whitespace becomes one "-". */
  function Slug(s: string): (r: string)
    ensures forall i :: 0 <= i < |r| ==> !IsWhitespace(r[i])
    ensures (forall i :: 0 <= i < |s| ==> !IsWhitespace(s[i])) ==> r == s
    ensures |r| <= |s|
    decreases |s|
  {
    if s == [] then []
    else if IsWhitespace(s[0]) then
      var rest := TrimStart(s);
      assert |rest| < |s|;
      "-" + Slug(rest)
    else [s[0]] + Slug(s[1..])
  }

  /** A whitespace run between two parts that do not touch it with whitespace of their own becomes
      exactly one "-" between their slugs. With the identity on text without whitespace, this
      determines `Slug` on every text. */
  lemma SlugJoin(a: string, w: string, b: string)
    requires w != [] && forall i :: 0 <= i < |w| ==> IsWhitespace(w[i])
    requires a == [] || !IsWhitespace(a[|a| - 1])
    requires b == [] || !IsWhitespace(b[0])
    ensures Slug(a + w + b) == Slug(a) + "-" + Slug(b)
    decreases |a|, 1
  {
    if a == [] {
      assert a + w + b == w + b && Slug(a) + "-" == "-";
      SlugOfRun(w, b);
    } else if IsWhitespace(a[0]) {
      SlugJoinAfterRun(a, w, b);
    } else {
      SlugJoinAfterChar(a, w, b);
    }
  }

  /** `SlugJoin` when `a` starts with another character: that character is kept. */
  lemma SlugJoinAfterChar(a: string, w: string, b: string)
    requires w != [] && forall i :: 0 <= i < |w| ==> IsWhitespace(w[i])
    requires a != [] && !IsWhitespace(a[0]) && !IsWhitespace(a[|a| - 1])
    requires b == [] || !IsWhitespace(b[0])
    ensures Slug(a + w + b) == Slug(a) + "-" + Slug(b)
    decreases |a|, 0
  {
    ConcatAssoc(a, w, b);
    HeadTail(a, w + b);
    ConcatAssoc(a[1..], w, b);
    assert Slug(a + w + b) == [a[0]] + Slug(a[1..] + w + b);
    SlugJoin(a[1..], w, b);
    Regroup([a[0]], Slug(a[1..]), "-", Slug(b));
  }

  /** `SlugJoin` when `a` itself starts with whitespace: that run becomes the first "-". */
  lemma SlugJoinAfterRun(a: string, w: string, b: string)
    requires w != [] && forall i :: 0 <= i < |w| ==> IsWhitespace(w[i])
    requires a != [] && IsWhitespace(a[0]) && !IsWhitespace(a[|a| - 1])
    requires b == [] || !IsWhitespace(b[0])
    ensures Slug(a + w + b) == Slug(a) + "-" + Slug(b)
    decreases |a|, 0
  {
    TrimStartOfRun(a);
    var c := a + w + b;
    ConcatAssoc(a, w, b);
    HeadTail(a, w + b);
    SlugAtRun(c);
    SlugAtRun(a);
    TrimStartConcat(a, w + b);
    var t := TrimStart(a);
    ConcatAssoc(t, w, b);
    SlugJoin(t, w, b);
    Regroup("-", Slug(t), "-", Slug(b));
  }

  /** A text that starts with whitespace slugs to "-" and the slug of what follows the run. */
  lemma SlugAtRun(s: string)
    requires s != [] && IsWhitespace(s[0])
    ensures Slug(s) == "-" + Slug(TrimStart(s))
  {
  }

  /** A leading whitespace run becomes one "-". */
  lemma SlugOfRun(w: string, b: string)
    requires w != [] && forall i :: 0 <= i < |w| ==> IsWhitespace(w[i])
    requires b == [] || !IsWhitespace(b[0])
    ensures Slug(w + b) == "-" + Slug(b)
  {
    LeadingOfWhitespace(w);
    LeadingConcat(w, b);
    HeadTail(w, b);
    DropPrefix(w, b);
  }

  /** A slug is its own slug. */
  lemma SlugIdempotent(s: string)
    ensures Slug(Slug(s)) == Slug(s)
  {
  }

  /** The special schemes the URL standard lets a setter switch between (file aside). */
  const SPECIAL_SCHEMES := {"http", "https", "ws", "wss", "ftp"}

  /** `u = new URL(url); u.protocol = "https:"; u.toString()`: a special scheme becomes https, any
      other scheme stays, and a text without a scheme is an invalid URL. */
  function ForceHttps(url: string): (r: Option<string>)
    ensures r.None? <==> ':' !in url
    ensures r.Some? && ToLower(TakeUntil(url, ':')) in SPECIAL_SCHEMES ==>
      r.value == "https:" + url[|TakeUntil(url, ':')| + 1..]
    ensures r.Some? && ToLower(TakeUntil(url, ':')) !in SPECIAL_SCHEMES ==> r.value == url
  {
    var scheme := TakeUntil(url, ':');
    if |scheme| == |url| then
      assert url == scheme;
      None
    else if ToLower(scheme) in SPECIAL_SCHEMES then Some("https:" + url[|scheme| + 1..])
    else Some(url)
  }

  /** Forcing https twice is forcing it once. */
  lemma ForceHttpsIdempotent(url: string)
    requires ForceHttps(url).Some?
    ensures ForceHttps(ForceHttps(url).value) == ForceHttps(url)
  {
    var scheme := TakeUntil(url, ':');
    if ToLower(scheme) in SPECIAL_SCHEMES {
      var r := "https:" + url[|scheme| + 1..];
      assert r[..5] == "https" && r[5] == ':';
      assert TakeUntil(r, ':') == "https" by {
        assert r == "https" + r[5..];
      }
      assert ToLower("https") == "https";
    }
  }

  /** The stream URL of a chosen source, or the error to throw when the source has no base URL. */
  function StreamOf(source: Option<Source>, missing: Failure): (o: Outcome)
    ensures o.Url? <==> source.Some? && Truthy(source.value.baseUrl) && ':' in source.value.baseUrl.value
    ensures o.Url? ==> o.url == ForceHttps(source.value.baseUrl.value + ".mpd").value
    ensures source.None? || !Truthy(source.value.baseUrl) ==> o == Error(missing)
    ensures source.Some? && Truthy(source.value.baseUrl) && ':' !in source.value.baseUrl.value ==>
      o == Error(InvalidUrl)
  {
    if source.None? || !Truthy(source.value.baseUrl) then Error(missing)
    else
      var u := source.value.baseUrl.value + ".mpd";
      match ForceHttps(u)
      case None => Error(InvalidUrl)
      case Some(url) => Url(url)
  }

  /** `data.find((source) => accepted.has(source.quality))`, as an index. */
  function Find(data: seq<Source>, accepted: set<string>): (r: Option<nat>)
    ensures r.Some? ==>
      r.value < |data| && data[r.value].quality.Some? && data[r.value].quality.value in accepted
    ensures r.Some? ==> forall i :: 0 <= i < r.value ==>
      data[i].quality.None? || data[i].quality.value !in accepted
    ensures r.None? ==> forall i :: 0 <= i < |data| ==>
      data[i].quality.None? || data[i].quality.value !in accepted
  {
    if data == [] then None
    else if data[0].quality.Some? && data[0].quality.value in accepted then Some(0)
    else
      match Find(data[1..], accepted)
      case None => None
      case Some(i) => Some(i + 1)
  }

  function SourceAt(data: seq<Source>, i: Option<nat>): Option<Source>
    requires i.Some? ==> i.value < |data|
  {
    if i.Some? then Some(data[i.value]) else None
  }

  /** The part of a filmxy reply the reader looks at: no `streamData`, a `streamData` without
      `data`, or the `streamData.data.link` there is (absent when the field is). */
  datatype FilmxyReply = NoStreamData | NoData | StreamLink(link: Option<string>)

  /** The filmxy reader: the `streamData.data.link` of the reply. */
  function FilmxyStream(response: Response<FilmxyReply>): (o: Outcome)
    ensures response.NotOk? ==> o == Error(NetworkNotOk)
    ensures response == Ok(NoStreamData) ==> o == Error(MissingData("data"))
    ensures response == Ok(NoData) ==> o == Error(MissingData("link"))
    ensures o.Url? <==> response.Ok? && response.body.StreamLink? && Truthy(response.body.link)
    ensures o.Url? ==> o.url == response.body.link.value
    ensures response.Ok? && response.body.StreamLink? && !Truthy(response.body.link) ==>
      o == Error(NoM3u8Link)
  {
    match response
    case NotOk => Error(NetworkNotOk)
    case Ok(NoStreamData) => Error(MissingData("data"))
    case Ok(NoData) => Error(MissingData("link"))
    case Ok(StreamLink(link)) => if Truthy(link) then Url(link.value) else Error(NoM3u8Link)
  }

  /** The movie cinescrape reader: the first source in list order whose quality is 2160p or 1080p,
      whichever of the two it is; a reply without `data` throws on the `find`. */
  function MovieStream(response: Response<Option<seq<Source>>>): (o: Outcome)
    ensures response.NotOk? ==> o == Error(NetworkNotOk)
    ensures response.Ok? && response.body.None? ==> o == Error(MissingData("find"))
    ensures response.Ok? && response.body.Some? ==>
      var data := response.body.value;
      o == StreamOf(SourceAt(data, Find(data, {"2160p", "1080p"})), NoMovieStream)
  {
    match response
    case NotOk => Error(NetworkNotOk)
    case Ok(None) => Error(MissingData("find"))
    case Ok(Some(data)) => StreamOf(SourceAt(data, Find(data, {"2160p", "1080p"})), NoMovieStream)
  }

  const QUALITY_ORDER := ["2160p", "1080p", "720p", "360p"]

  predicate HasQuality(data: seq<Source>, q: string) {
    exists i :: 0 <= i < |data| && data[i].quality == Some(q)
  }

  /** Source `i` has quality `order[k]`, is the first source with it, and no source has a quality
      that comes earlier in `order`. */
  predicate IsPreferred(data: seq<Source>, order: seq<string>, k: int, i: nat) {
    && 0 <= k < |order| && i < |data| && data[i].quality == Some(order[k])
    && (forall j :: 0 <= j < i ==> data[j].quality != Some(order[k]))
    && (forall k' :: 0 <= k' < k ==> !HasQuality(data, order[k']))
  }

  /** The TV choice: the best quality in `order` that some source has, and the first source in
      list order with that quality. */
  function Preferred(data: seq<Source>, order: seq<string>): (r: Option<nat>)
    ensures r.Some? ==> r.value < |data|
    ensures r.Some? ==>
      exists k :: IsPreferred(data, order, k, r.value)
    ensures r.None? <==> forall k :: 0 <= k < |order| ==> !HasQuality(data, order[k])
  {
    if order == [] then None
    else
      match Find(data, {order[0]})
      case Some(i) =>
        assert IsPreferred(data, order, 0, i);
        Some(i)
      case None =>
        var r := Preferred(data, order[1..]);
        PreferredShift(data, order, r);
        r
  }

  /** A choice made among the later qualities, when no source has the first one, is a choice
      among all of them. */
  lemma PreferredShift(data: seq<Source>, order: seq<string>, r: Option<nat>)
    requires order != [] && !HasQuality(data, order[0])
    requires r.Some? ==> exists k :: IsPreferred(data, order[1..], k, r.value)
    requires r.None? <==> forall k :: 0 <= k < |order[1..]| ==> !HasQuality(data, order[1..][k])
    ensures r.Some? ==> exists k :: IsPreferred(data, order, k, r.value)
    ensures r.None? <==> forall k :: 0 <= k < |order| ==> !HasQuality(data, order[k])
  {
    if r.Some? {
      var k :| IsPreferred(data, order[1..], k, r.value);
      assert IsPreferred(data, order, k + 1, r.value);
    }
    if r.None? {
      forall k | 0 <= k < |order| ensures !HasQuality(data, order[k]) {
        if k > 0 {
          assert order[k] == order[1..][k - 1];
        }
      }
    }
  }

  /** The source-selection loop of the TV cinescrape provider. */
  method SelectTvSource(data: seq<Source>) returns (selectedSource: Option<Source>)
    ensures selectedSource == SourceAt(data, Preferred(data, QUALITY_ORDER))
  {
    selectedSource := None;
    for k := 0 to |QUALITY_ORDER|
      invariant selectedSource.None?
      invariant Preferred(data, QUALITY_ORDER) == Preferred(data, QUALITY_ORDER[k..])
    {
      var found := Find(data, {QUALITY_ORDER[k]});
      selectedSource := SourceAt(data, found);
      if selectedSource.Some? {
        break;
      }
    }
  }

  /** The TV cinescrape reader: a missing or empty reply is an error; otherwise the preferred
      source's stream. */
  method TvStream(response: Response<Option<seq<Source>>>) returns (o: Outcome)
    ensures response.NotOk? ==> o == Error(NetworkNotOk)
    ensures response.Ok? && (response.body.None? || response.body.value == []) ==> o == Error(NoVideoData)
    ensures response.Ok? && response.body.Some? && response.body.value != [] ==>
      o == StreamOf(SourceAt(response.body.value, Preferred(response.body.value, QUALITY_ORDER)), NoTvSource)
  {
    if response.NotOk? {
      return Error(NetworkNotOk);
    }
    var data := response.body;
    if data.None? || |data.value| == 0 {
      return Error(NoVideoData);
    }
    var selectedSource := SelectTvSource(data.value);
    o := StreamOf(selectedSource, NoTvSource);
  }

  /** The two readers differ: with a 1080p source listed before a 2160p one, the movie reader takes
      the 1080p stream and the TV reader the 2160p one. */
  lemma MovieAndTvPreferDifferently(low: string, high: string)
    ensures var data := [Source(Some("1080p"), Some(low)), Source(Some("2160p"), Some(high))];
      Find(data, {"2160p", "1080p"}) == Some(0) && Preferred(data, QUALITY_ORDER) == Some(1)
  {
    var data := [Source(Some("1080p"), Some(low)), Source(Some("2160p"), Some(high))];
    assert data[1].quality == Some(QUALITY_ORDER[0]);
  }
}
