/**
 * The sequential logic of the recommendations endpoint (app/api/recommendations/route.ts): the
 * order in which a request is checked, the choice of chat model from a year in the query, the
 * parsing of the model's "title,year" reply, the TMDB search parameters of each record and the
 * reply built from the search hits. The chat and TMDB requests themselves and the Supabase cache
 * are outside the model: their outcomes are parameters.
 */
module RecommendationsRoute {
  import opened Wrappers
  import opened Text
  import opened RateLimit
  import opened TmdbClient

  // ---------------------------------------------------------------------------------------------
  // Request checks

  /** What the handler answers before any request leaves the server. */
  datatype Reply =
    | Rejected(status: int, error: string, message: Option<string>, headers: seq<(string, string)>)
    | Proceed(query: string, kind: string)

  const TOO_MANY_REQUESTS := "Too many requests"
  const RATE_LIMIT_MESSAGE := "Rate limit exceeded. Please try again later."
  const OPENAI_KEY_MISSING := "OpenAI API key is not configured"
  const TMDB_KEY_MISSING := "TMDB API key is not configured"
  const QUERY_REQUIRED := "Query parameter is required (e.g., 'Nobody 2021')"
  const KIND_REQUIRED := "Kind parameter is required (e.g., 'movie', 'tv')"

  /** `Math.ceil((resetTime - now) / 1000)`, the seconds a denied client should wait. */
  function RetryAfter(resetTime: int, now: int): (secs: int)
    ensures (secs - 1) * 1000 < resetTime - now <= secs * 1000
  {
    -((now - resetTime) / 1000)
  }

  /** A denial comes from a live window, which ends at most WINDOW_MS after `now` when the clock
      does not run backwards: the client is told to wait zero seconds or one. */
  lemma RetryAfterOfLiveWindow(resetTime: int, now: int)
    requires now <= resetTime <= now + WINDOW_MS
    ensures RetryAfter(resetTime, now) == 0 || RetryAfter(resetTime, now) == 1
    ensures RetryAfter(resetTime, now) == 0 <==> resetTime == now
  {
  }

  /** The headers of a 429 reply: the seconds to wait, the limit, no remaining requests and the
      end of the window, the two numbers written in decimal. */
  function DeniedHeaders(limit: Verdict, now: int): (hs: seq<(string, string)>)
    ensures |hs| == 4
    ensures hs[0] == ("Retry-After", IntToString(RetryAfter(limit.resetTime, now)))
    ensures hs[1] == ("X-RateLimit-Limit", "25") && hs[2] == ("X-RateLimit-Remaining", "0")
    ensures hs[3] == ("X-RateLimit-Reset", IntToString(limit.resetTime))
  {
    [ ("Retry-After", IntToString(RetryAfter(limit.resetTime, now))),
      ("X-RateLimit-Limit", "25"),
      ("X-RateLimit-Remaining", "0"),
      ("X-RateLimit-Reset", IntToString(limit.resetTime)) ]
  }

  /** A client reading the numeric headers back as integers gets the wait in seconds and the
      window end in milliseconds. */
  lemma DeniedHeadersReadBack(limit: Verdict, now: int)
    ensures var hs := DeniedHeaders(limit, now);
      && ParseInt(hs[0].1) == Some(RetryAfter(limit.resetTime, now))
      && ParseInt(hs[3].1) == Some(limit.resetTime)
  {
    ParseIntToString(RetryAfter(limit.resetTime, now));
    ParseIntToString(limit.resetTime);
  }

  /** The checks of `GET` in source order, given the rate-limit verdict already taken: a denial
      (429) first, then the two server keys (500), then the `query` and `kind` parameters (400). */
  function Validate(limit: Verdict, now: int, openAiKey: Option<string>, tmdbKey: Option<string>,
                    query: Option<string>, kind: Option<string>): (r: Reply)
    ensures r.Proceed? <==>
      limit.allowed && Truthy(openAiKey) && Truthy(tmdbKey) && Truthy(query) && Truthy(kind)
    ensures r.Proceed? ==> r.query == query.value && r.kind == kind.value
    ensures r.Rejected? && r.status == 429 <==> !limit.allowed
    ensures r.Rejected? && r.status == 500 <==>
      limit.allowed && (!Truthy(openAiKey) || !Truthy(tmdbKey))
    ensures r.Rejected? && r.status == 400 <==>
      limit.allowed && Truthy(openAiKey) && Truthy(tmdbKey) && (!Truthy(query) || !Truthy(kind))
    ensures r.Rejected? ==> r.status in {429, 500, 400}
    ensures r.Rejected? && r.status == 500 ==>
      r.error == if !Truthy(openAiKey) then OPENAI_KEY_MISSING else TMDB_KEY_MISSING
    ensures r.Rejected? && r.status == 400 ==>
      r.error == if !Truthy(query) then QUERY_REQUIRED else KIND_REQUIRED
    ensures r.Rejected? && r.status == 429 ==>
      |r.headers| == 4 &&
      r.headers[0] == ("Retry-After", IntToString(RetryAfter(limit.resetTime, now)))
  {
    if !limit.allowed then
      Rejected(429, TOO_MANY_REQUESTS, Some(RATE_LIMIT_MESSAGE), DeniedHeaders(limit, now))
    else if !Truthy(openAiKey) then Rejected(500, OPENAI_KEY_MISSING, None, [])
    else if !Truthy(tmdbKey) then Rejected(500, TMDB_KEY_MISSING, None, [])
    else if !Truthy(query) then Rejected(400, QUERY_REQUIRED, None, [])
    else if !Truthy(kind) then Rejected(400, KIND_REQUIRED, None, [])
    else Proceed(query.value, kind.value)
  }

  /** A request that is over the limit is refused as such whatever else is wrong with it. */
  lemma DenialComesFirst(limit: Verdict, now: int, openAiKey: Option<string>, tmdbKey: Option<string>,
                         query: Option<string>, kind: Option<string>)
    requires !limit.allowed
    ensures Validate(limit, now, openAiKey, tmdbKey, query, kind) ==
      Validate(limit, now, None, None, None, None)
  {
  }

  /** The start of `GET`: the client is counted against the limit before anything is checked,
      so a request refused for a missing key or parameter still uses up one call. */
  method Begin(limiter: RateLimiter, h: Headers, now: int, openAiKey: Option<string>,
               tmdbKey: Option<string>, query: Option<string>, kind: Option<string>)
    returns (r: Reply)
    requires limiter.Valid()
    modifies limiter
    ensures limiter.Valid()
    ensures var id := ClientIdentifier(h);
      && limiter.store == old(limiter.store)[id := Admit(Lookup(old(limiter.store), id), now).0]
      && r == Validate(Admit(Lookup(old(limiter.store), id), now).1, now, openAiKey, tmdbKey, query, kind)
  {
    var identifier := ClientIdentifier(h);
    var limit := limiter.RateLimit(identifier, now);
    r := Validate(limit, now, openAiKey, tmdbKey, query, kind);
  }

  // ---------------------------------------------------------------------------------------------
  // Year in the query and choice of model

  /** The regular expression `\((\d{4})\)` matches at `i`. */
  predicate YearAt(q: string, i: int) {
    0 <= i && i + 6 <= |q| && q[i] == '(' && AllDigits(q[i + 1..i + 5]) && q[i + 5] == ')'
  }

  /** The first match at or after `i`. */
  function MatchFrom(q: string, i: nat): (r: Option<nat>)
    requires i <= |q|
    ensures r.Some? ==> i <= r.value && YearAt(q, r.value)
    ensures r.Some? ==> forall j :: i <= j < r.value ==> !YearAt(q, j)
    ensures r.None? ==> forall j :: i <= j ==> !YearAt(q, j)
    decreases |q| - i
  {
    if i + 6 > |q| then None
    else if YearAt(q, i) then Some(i)
    else MatchFrom(q, i + 1)
  }

  /** `query.match(/\((\d{4})\)/)` followed by `parseInt` of the group: the four digits in the
      leftmost "(dddd)" of the query. */
  function QueryYear(q: string): (y: Option<nat>)
    ensures y.None? <==> forall j :: !YearAt(q, j)
    ensures y.Some? ==> exists i :: YearAt(q, i) && (forall j :: 0 <= j < i ==> !YearAt(q, j))
                                   && y.value == DigitsValue(q[i + 1..i + 5])
  {
    match MatchFrom(q, 0)
    case None => None
    case Some(i) => Some(DigitsValue(q[i + 1..i + 5]))
  }

  /** Text added after a query does not change its year when the query already has one. */
  lemma {:induction false} MatchFromExtended(q: string, tail: string, i: nat)
    requires i <= |q|
    requires MatchFrom(q, i).Some?
    ensures MatchFrom(q + tail, i) == MatchFrom(q, i)
    decreases |q| - i
  {
    var s := q + tail;
    assert s[..|q|] == q;
    if !YearAt(q, i) {
      assert i + 6 <= |q| by {
        var k := MatchFrom(q, i).value;
        assert i <= k && k + 6 <= |q|;
      }
      assert s[i + 1..i + 5] == q[i + 1..i + 5];
      MatchFromExtended(q, tail, i + 1);
    } else {
      assert s[i + 1..i + 5] == q[i + 1..i + 5];
    }
  }

  lemma QueryYearExtended(q: string, tail: string)
    requires QueryYear(q).Some?
    ensures QueryYear(q + tail) == QueryYear(q)
  {
    MatchFromExtended(q, tail, 0);
    var i := MatchFrom(q, 0).value;
    assert (q + tail)[i + 1..i + 5] == q[i + 1..i + 5];
  }

  /** The request body's model settings. */
  datatype ChatModel = ChatModel(name: string, temperature: Option<real>)

  const RECENT_MODEL := "gpt-4.1-mini"
  const DEFAULT_MODEL := "gpt-4o-mini"

  /** The newer model for a query naming the current year, without a temperature; the default
      model at temperature 0.7 otherwise. */
  function ModelFor(q: string, currentYear: int): (m: ChatModel)
    ensures m.name == RECENT_MODEL <==> QueryYear(q) == Some(currentYear)
    ensures m.name == RECENT_MODEL || m.name == DEFAULT_MODEL
    ensures m.temperature.None? <==> m.name == RECENT_MODEL
    ensures m.temperature.Some? ==> m.temperature.value == 0.7
  {
    var queryYear: Option<int> := match QueryYear(q) case None => None case Some(y) => Some(y);
    if queryYear == Some(currentYear) then ChatModel(RECENT_MODEL, None)
    else ChatModel(DEFAULT_MODEL, Some(0.7))
  }

  /** Only the leftmost "(dddd)" counts: a later one does not change the model. */
  lemma ModelIgnoresLaterText(q: string, tail: string, currentYear: int)
    requires QueryYear(q).Some?
    ensures ModelFor(q + tail, currentYear) == ModelFor(q, currentYear)
  {
    QueryYearExtended(q, tail);
  }

  // ---------------------------------------------------------------------------------------------
  // Parsing the reply

  /** One recommendation: a title and, when the last field parses as an integer, a year. */
  datatype Rec = Rec(title: string, year: Option<int>)

  /** The two fields of a line, untrimmed: with at least one comma, everything before the last
      comma (`parts.slice(0, -1).join(",")`) and the last piece; without a comma, none. */
  function LineFields(line: string): (r: Option<(string, string)>)
    ensures r.None? <==> ',' !in line
    ensures r.Some? ==> var k := LastIndexOf(line, ',').value;
      r.value == (line[..k], line[k + 1..])
  {
    var parts := Split(line, ',');
    CommaFields(line);
    if |parts| >= 2 then Some((Join(parts[..|parts| - 1], ','), parts[|parts| - 1])) else None
  }

  /** One trimmed, non-empty line: the trimmed title text and, when `parseInt` of the trimmed last
      field is a number, the year; without a comma there is no record. */
  function ParseLine(line: string): (r: Option<Rec>)
    ensures r.None? <==> ',' !in line
    ensures r.Some? ==> var k := LastIndexOf(line, ',').value;
      r.value.title == Trim(line[..k])
    ensures r.Some? ==> var k := LastIndexOf(line, ',').value;
      r.value.year == ParseInt(Trim(line[k + 1..]))
  {
    match LineFields(line)
    case None => None
    case Some((title, year)) =>
      var y := ParseInt(Trim(year));
      assert year == line[LastIndexOf(line, ',').value + 1..];
      Some(Rec(Trim(title), y))
  }

  /** A line has two pieces or more exactly when it holds a comma; the pieces before the last
      join back to the text before the last comma and the last piece is the text after it. */
  lemma CommaFields(line: string)
    ensures |Split(line, ',')| >= 2 <==> ',' in line
    ensures ',' in line ==>
      var parts, k := Split(line, ','), LastIndexOf(line, ',').value;
      Join(parts[..|parts| - 1], ',') == line[..k] && parts[|parts| - 1] == line[k + 1..]
  {
    SplitSingle(line, ',');
    assert |Split(line, ',')| >= 1;
    if ',' in line {
      SplitAtLast(line, ',');
    }
  }

  /** `xs.map(f)` */
  function Map<A, B>(f: A -> B, xs: seq<A>): (r: seq<B>)
    ensures |r| == |xs|
  {
    if xs == [] then [] else [f(xs[0])] + Map(f, xs[1..])
  }

  /** Entry `i` of a map is `f` of entry `i`. */
  lemma {:induction false} MapAt<A, B>(f: A -> B, xs: seq<A>, i: int)
    requires 0 <= i < |xs|
    ensures Map(f, xs)[i] == f(xs[i])
    decreases i
  {
    if i > 0 {
      MapAt(f, xs[1..], i - 1);
      assert xs[1..][i - 1] == xs[i];
    }
  }

  /** A map keeps the order: mapping two joined lists maps each in turn. */
  lemma {:induction false} MapConcat<A, B>(f: A -> B, xs: seq<A>, ys: seq<A>)
    ensures Map(f, xs + ys) == Map(f, xs) + Map(f, ys)
  {
    if xs == [] {
      assert xs + ys == ys;
    } else {
      var c := xs + ys;
      assert c[0] == xs[0] && c[1..] == xs[1..] + ys;
      MapConcat(f, xs[1..], ys);
      assert Map(f, c) == [f(xs[0])] + (Map(f, xs[1..]) + Map(f, ys));
    }
  }

  /** `lines.map((line) => line.trim())` */
  function TrimAll(lines: seq<string>): seq<string> {
    Map(Trim, lines)
  }

  /** Line `i` of the result is line `i` of the input, trimmed. */
  lemma TrimAllAt(lines: seq<string>, i: int)
    requires 0 <= i < |lines|
    ensures |TrimAll(lines)| == |lines| && TrimAll(lines)[i] == Trim(lines[i])
  {
    MapAt(Trim, lines, i);
  }

  /** `.filter((line) => line.length > 0)` */
  function NonEmpty(lines: seq<string>): (r: seq<string>)
    ensures |r| <= |lines|
  {
    if lines == [] then []
    else (if lines[0] == [] then [] else [lines[0]]) + NonEmpty(lines[1..])
  }

  /** The filter keeps exactly the non-empty lines. */
  lemma {:induction false} NonEmptyMembers(lines: seq<string>)
    ensures forall l :: l in NonEmpty(lines) <==> l in lines && l != []
  {
    if lines != [] {
      NonEmptyMembers(lines[1..]);
      assert lines == [lines[0]] + lines[1..];
    }
  }

  /** `.map(parse line)` */
  function ParseAll(lines: seq<string>): seq<Option<Rec>> {
    Map(ParseLine, lines)
  }

  /** Entry `i` of the result is the parse of line `i`. */
  lemma ParseAllAt(lines: seq<string>, i: int)
    requires 0 <= i < |lines|
    ensures |ParseAll(lines)| == |lines| && ParseAll(lines)[i] == ParseLine(lines[i])
  {
    MapAt(ParseLine, lines, i);
  }

  /** `.filter((item) => item !== null)` for a sequence of optional values: the present ones, in
      order; as many as there are entries that are not None. */
  function Present<T(==,!new)>(s: seq<Option<T>>): (r: seq<T>)
    ensures |r| <= |s|
  {
    if s == [] then []
    else (if s[0].Some? then [s[0].value] else []) + Present(s[1..])
  }

  /** The filter keeps exactly the values that are present. */
  lemma {:induction false} PresentMembers<T(!new)>(s: seq<Option<T>>)
    ensures forall x :: x in Present(s) <==> Some(x) in s
  {
    if s != [] {
      PresentMembers(s[1..]);
      assert s == [s[0]] + s[1..];
    }
  }

  /** As many values are kept as there are entries that are not None. */
  lemma {:induction false} PresentCount<T(!new)>(s: seq<Option<T>>)
    ensures |Present(s)| == |s| - multiset(s)[None]
  {
    if s != [] {
      PresentCount(s[1..]);
      assert s == [s[0]] + s[1..];
      assert multiset(s) == multiset{s[0]} + multiset(s[1..]);
    }
  }

  /** The reply text's records, in line order: never more than there are non-empty lines, and
      every title trimmed. */
  function ParseReply(text: string): (r: seq<Rec>)
    ensures |r| <= |NonEmpty(TrimAll(Split(text, '\n')))|
  {
    Present(ParseAll(NonEmpty(TrimAll(Split(text, '\n')))))
  }

  /** Every record's title is trimmed. */
  lemma ParseReplyTrimmed(text: string)
    ensures forall rec :: rec in ParseReply(text) ==> IsTrimmed(rec.title)
  {
    var lines := NonEmpty(TrimAll(Split(text, '\n')));
    var parsed := ParseAll(lines);
    assert ParseReply(text) == Present(parsed);
    PresentMembers(parsed);
    forall rec: Rec | rec in Present(parsed)
      ensures IsTrimmed(rec.title)
    {
      RecordTrimmed(lines, rec);
    }
  }

  /** A record parsed from any line has a trimmed title. */
  lemma RecordTrimmed(lines: seq<string>, rec: Rec)
    requires Some(rec) in ParseAll(lines)
    ensures IsTrimmed(rec.title)
  {
    var parsed := ParseAll(lines);
    var i :| 0 <= i < |parsed| && parsed[i] == Some(rec);
    ParseAllAt(lines, i);
    ParsedTitleTrimmed(lines[i]);
  }

  /** The title of a parsed line is trimmed. */
  lemma ParsedTitleTrimmed(line: string)
    ensures ParseLine(line).Some? ==> IsTrimmed(ParseLine(line).value.title)
  {
  }

  lemma {:induction false} NonEmptyConcat(a: seq<string>, b: seq<string>)
    ensures NonEmpty(a + b) == NonEmpty(a) + NonEmpty(b)
  {
    if a == [] {
      assert a + b == b;
    } else {
      var c := a + b;
      assert c[0] == a[0] && c[1..] == a[1..] + b;
      NonEmptyConcat(a[1..], b);
      var h := if a[0] == [] then [] else [a[0]];
      assert NonEmpty(c) == h + (NonEmpty(a[1..]) + NonEmpty(b));
    }
  }

  lemma PresentCons<T(!new)>(x: Option<T>, s: seq<Option<T>>)
    ensures Present([x] + s) == (if x.Some? then [x.value] else []) + Present(s)
  {
    var c := [x] + s;
    assert c[0] == x && c[1..] == s;
  }

  lemma {:induction false} PresentConcat<T(!new)>(a: seq<Option<T>>, b: seq<Option<T>>)
    ensures Present(a + b) == Present(a) + Present(b)
  {
    if a == [] {
      assert a + b == b;
    } else {
      var t := a[1..];
      assert a == [a[0]] + t;
      assert a + b == [a[0]] + (t + b);
      PresentCons(a[0], t + b);
      PresentCons(a[0], t);
      PresentConcat(t, b);
    }
  }

  /** Records keep the order of the lines: the records of two texts joined by a line break are
      those of the first followed by those of the second. */
  lemma ParseReplyConcat(a: string, b: string)
    ensures ParseReply(a + "\n" + b) == ParseReply(a) + ParseReply(b)
  {
    var la, lb := Split(a, '\n'), Split(b, '\n');
    assert Split(a + "\n" + b, '\n') == la + lb by {
      assert a + "\n" + b == a + ['\n'] + b;
      SplitConcat(a, b, '\n');
    }
    var ta, tb := TrimAll(la), TrimAll(lb);
    MapConcat(Trim, la, lb);
    var na, nb := NonEmpty(ta), NonEmpty(tb);
    assert NonEmpty(ta + tb) == na + nb by {
      NonEmptyConcat(ta, tb);
    }
    assert ParseAll(na + nb) == ParseAll(na) + ParseAll(nb) by {
      MapConcat(ParseLine, na, nb);
    }
    PresentConcat(ParseAll(na), ParseAll(nb));
  }

  /** The records of one line: none for a blank line or one without a comma, else the record
      read from the trimmed line. */
  lemma ParseReplyOfLine(line: string)
    requires '\n' !in line
    ensures ParseReply(line) ==
      if ',' in Trim(line) then [ParseLine(Trim(line)).value] else []
  {
    OneLineTrimmed(line);
    RecordsOfTrimmedLine(Trim(line));
  }

  /** A text without line breaks is one line, trimmed. */
  lemma OneLineTrimmed(line: string)
    requires '\n' !in line
    ensures TrimAll(Split(line, '\n')) == [Trim(line)]
  {
    assert Split(line, '\n') == [line] by {
      SplitSingle(line, '\n');
      JoinSplit(line, '\n');
    }
    assert [line][1..] == [];
  }

  /** The records of a single trimmed line. */
  lemma RecordsOfTrimmedLine(t: string)
    ensures Present(ParseAll(NonEmpty([t]))) == if ',' in t then [ParseLine(t).value] else []
  {
    var n := NonEmpty([t]);
    assert n == if t == [] then [] else [t] by {
      assert [t][1..] == [];
    }
    if t != [] {
      var p := ParseLine(t);
      assert ParseAll(n) == [p] by {
        assert n[1..] == [];
      }
      PresentCons(p, []);
    }
  }

  // ---------------------------------------------------------------------------------------------
  // Searching TMDB and the reply

  /** The query string of one search: the title, and the year only when it is truthy (a year of
      0, like a missing one, is left out). */
  function SearchParams(rec: Rec): (ps: seq<(string, string)>)
    ensures |ps| >= 1 && ps[0] == ("query", rec.title)
    ensures |ps| == 2 <==> rec.year.Some? && rec.year.value != 0
    ensures |ps| <= 2
    ensures |ps| == 2 ==> ps[1].0 == "year" && ParseInt(ps[1].1) == rec.year
  {
    if rec.year.Some? && rec.year.value != 0 then
      ParseIntToString(rec.year.value);
      [("query", rec.title), ("year", IntToString(rec.year.value))]
    else [("query", rec.title)]
  }

  /** What one TMDB search gave back: a failed request (a non-OK status or a thrown error), or
      the `results` field of the body when it has one. */
  datatype SearchOutcome = Failed | Answered(results: Option<seq<Json>>)

  /** The first result of a search, or null: a first result that is itself null is null too,
      and the `!== null` filter drops it like a failed search. */
  function SearchHit(o: SearchOutcome): (hit: Option<Json>)
    ensures hit.Some? <==>
      o.Answered? && o.results.Some? && |o.results.value| > 0 && o.results.value[0] != JNull
    ensures hit.Some? ==> hit.value == o.results.value[0] && hit.value != JNull
  {
    if o.Answered? && o.results.Some? && |o.results.value| > 0 && o.results.value[0] != JNull then
      Some(o.results.value[0])
    else None
  }

  /** The JSON answer on a cache miss. */
  datatype Answer = Answer(recommendations: seq<Json>, count: nat, headers: seq<(string, string)>)

  /** The search hits, nulls dropped, with their ids replaced by tokens; `count` is their number. */
  function Respond(hits: seq<Option<Json>>, secret: Secret, limit: Verdict): (a: Answer)
    ensures a.count == |a.recommendations| == |Present(hits)| == |hits| - multiset(hits)[None]
    ensures forall i :: 0 <= i < |a.recommendations| ==> NoPlainIds(a.recommendations[i])
    ensures forall i :: 0 <= i < |a.recommendations| ==>
      a.recommendations[i] == ObfuscateIds(Present(hits)[i], secret)
    ensures forall j :: j in Present(hits) ==> ObfuscateIds(j, secret) in a.recommendations
  {
    var valid := Present(hits);
    PresentCount(hits);
    var recs := seq(|valid|, i requires 0 <= i < |valid| => ObfuscateIds(valid[i], secret));
    forall i | 0 <= i < |recs|
      ensures NoPlainIds(recs[i])
    {
      ObfuscatedHasNoPlainIds(valid[i], secret);
    }
    forall j | j in valid
      ensures ObfuscateIds(j, secret) in recs
    {
      var i :| 0 <= i < |valid| && valid[i] == j;
      assert recs[i] == ObfuscateIds(j, secret);
    }
    Answer(recs, |recs|,
      [ ("X-RateLimit-Limit", "25"),
        ("X-RateLimit-Remaining", IntToString(limit.remaining)),
        ("X-RateLimit-Reset", IntToString(limit.resetTime)),
        ("Cache-Control", "public, s-maxage=3600, stale-while-revalidate=3600"),
        ("X-Cache", "MISS") ])
  }
}
