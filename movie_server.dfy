/** The movie recommender's server: `parseOMDB` reshapes an OMDB title
    record into the movie object the client shows, the seed year is read
    from the record, and `POST /api/recommend` turns the language model's
    reply into recommendations merged with their OMDB records. The OMDB
    lookup and JSON parsing are given as functions; the model's reply is
    given as text. */
module MovieServer {
  import opened Base
  import opened Text

  // ===========================================================================
  // OMDB records
  // ===========================================================================

  /** One entry of an OMDB record's `Ratings` list. */
  datatype Rating = Rating(source: string, value: string)

  /** An OMDB title record as the server keeps it (one whose `Response` is
      "True"); OMDB writes "N/A" for a value it does not have. */
  datatype OmdbRecord = OmdbRecord(
    title: string,
    year: string,
    poster: string,
    plot: string,
    genre: string,
    director: string,
    runtime: string,
    imdbRating: string,
    ratings: Option<seq<Rating>>,
    imdbID: string,
    actors: string,
    awards: string)

  /** The movie object sent to the client. Every member may be missing;
      a missing member and a `null` one are both `None`. */
  datatype Movie = Movie(
    title: Option<string>,
    year: Option<string>,
    poster: Option<string>,
    synopsis: Option<string>,
    genre: Option<seq<string>>,
    director: Option<string>,
    runtime: Option<string>,
    imdbRating: Option<string>,
    rtRating: Option<string>,
    imdbId: Option<string>,
    actors: Option<string>,
    awards: Option<string>)

  /** The empty object `{}`. */
  const NoMovie: Movie := Movie(None, None, None, None, None, None, None, None, None, None, None, None)

  /** A movie object with only a title and a year. */
  function TitleAndYear(title: Option<string>, year: Option<string>): Movie {
    NoMovie.(title := title, year := year)
  }

  /** `v !== 'N/A' ? v : null`. */
  function Known(v: string): Option<string> {
    if v != "N/A" then Some(v) else None
  }

  /** A value OMDB had is passed through unchanged, and "N/A" becomes null. */
  predicate PassedThrough(v: string, o: Option<string>) {
    (v == "N/A" ==> o.None?) && (v != "N/A" ==> o == Some(v))
  }

  /** The index of the first rating from `source`. */
  function FindRating(ratings: seq<Rating>, source: string): (r: Option<nat>)
    ensures r.Some? ==> r.value < |ratings| && ratings[r.value].source == source
    ensures r.Some? ==> forall k | 0 <= k < r.value :: ratings[k].source != source
    ensures r.None? ==> forall k | 0 <= k < |ratings| :: ratings[k].source != source
  {
    if ratings == [] then None
    else if ratings[0].source == source then Some(0)
    else match FindRating(ratings[1..], source)
      case None => None
      case Some(i) => Some(i + 1)
  }

  /** The Rotten Tomatoes score: the value of the first rating whose source
      is "Rotten Tomatoes", or null. */
  function RottenTomatoes(ratings: Option<seq<Rating>>): (r: Option<string>)
    ensures r.Some? <==> ratings.Some? && exists k | 0 <= k < |ratings.value| :: ratings.value[k].source == "Rotten Tomatoes"
    ensures r.Some? ==> exists k | 0 <= k < |ratings.value| ::
      && ratings.value[k].source == "Rotten Tomatoes"
      && r.value == ratings.value[k].value
      && forall j | 0 <= j < k :: ratings.value[j].source != "Rotten Tomatoes"
  {
    if ratings.None? then None
    else match FindRating(ratings.value, "Rotten Tomatoes")
      case None => None
      case Some(i) => Some(ratings.value[i].value)
  }

  /** `parseOMDB` (server.js): the empty object for a missing record;
      otherwise the record's title and year, the other text members with
      "N/A" made null, the genre list split on ", " ("N/A" gives the empty
      list), the Rotten Tomatoes score and the IMDb id, null when empty. */
  function ParseOmdb(data: Option<OmdbRecord>): (m: Movie)
    ensures data.None? ==> m == NoMovie
    ensures data.Some? ==> var d := data.value;
      && m.title == Some(d.title) && m.year == Some(d.year)
      && PassedThrough(d.poster, m.poster)
      && PassedThrough(d.plot, m.synopsis)
      && PassedThrough(d.director, m.director)
      && PassedThrough(d.runtime, m.runtime)
      && PassedThrough(d.imdbRating, m.imdbRating)
      && PassedThrough(d.actors, m.actors)
      && PassedThrough(d.awards, m.awards)
      && m.genre.Some?
      && (d.genre == "N/A" ==> m.genre.value == [])
      && m.rtRating == RottenTomatoes(d.ratings)
      && (m.imdbId.None? <==> d.imdbID == "")
      && (m.imdbId.Some? ==> m.imdbId.value == d.imdbID)
  {
    match data
    case None => NoMovie
    case Some(d) =>
      Movie(
        Some(d.title),
        Some(d.year),
        Known(d.poster),
        Known(d.plot),
        Some(if d.genre != "N/A" then Split(d.genre, ", ") else []),
        Known(d.director),
        Known(d.runtime),
        Known(d.imdbRating),
        RottenTomatoes(d.ratings),
        if d.imdbID != "" then Some(d.imdbID) else None,
        Known(d.actors),
        Known(d.awards))
  }

  /** A genre OMDB had is split into pieces that join back with ", " into
      the original string, and no piece contains the separator. */
  lemma GenreRoundTrip(d: OmdbRecord)
    requires d.genre != "N/A"
    ensures Join(ParseOmdb(Some(d)).genre.value, ", ") == d.genre
    ensures forall g | g in ParseOmdb(Some(d)).genre.value :: !Contains(g, ", ")
  {
    SplitJoin(d.genre, ", ");
    SplitPiecesFree(d.genre, ", ");
  }

  /** `seedOMDB?.Year?.match(/\d{4}/)?.[0] || ''`: the first run of four
      digits in the seed record's year, or empty. */
  function SeedYear(seed: Option<OmdbRecord>): (r: string)
    ensures r == "" <==> seed.None? || forall j :: !FourDigitsAt(seed.value.year, j)
    ensures r != "" ==> exists i ::
      && FourDigitsAt(seed.value.year, i)
      && r == seed.value.year[i..i + 4]
      && forall j | 0 <= j < i :: !FourDigitsAt(seed.value.year, j)
  {
    if seed.None? then "" else FirstYear(seed.value.year).GetOr("")
  }

  // ===========================================================================
  // Salvaging a JSON array from the model's reply
  // ===========================================================================

  /** The index of the first `c` in `s`. */
  function FirstIndex(s: string, c: char): (r: Option<nat>)
    ensures r.Some? ==> r.value < |s| && s[r.value] == c && forall k | 0 <= k < r.value :: s[k] != c
    ensures r.None? <==> forall k | 0 <= k < |s| :: s[k] != c
  {
    if s == [] then None
    else if s[0] == c then Some(0)
    else match FirstIndex(s[1..], c)
      case None => None
      case Some(i) => Some(i + 1)
  }

  /** The index of the last `c` in `s`. */
  function LastIndex(s: string, c: char): (r: Option<nat>)
    ensures r.Some? ==> r.value < |s| && s[r.value] == c && forall k | r.value < k < |s| :: s[k] != c
    ensures r.None? <==> forall k | 0 <= k < |s| :: s[k] != c
  {
    if s == [] then None
    else if s[|s| - 1] == c then Some(|s| - 1)
    else LastIndex(s[..|s| - 1], c)
  }

  /** `text.match(/\[[\s\S]*\]/)?.[0]`: the text from the first '[' to the
      last ']' after it, when there is such a pair. */
  function Salvage(text: string): (r: Option<string>)
    ensures r.None? <==> forall i, j | 0 <= i < j < |text| :: !(text[i] == '[' && text[j] == ']')
    ensures r.Some? ==> exists i, j | 0 <= i < j < |text| ::
      && r.value == text[i..j + 1]
      && text[i] == '[' && text[j] == ']'
      && (forall k | 0 <= k < i :: text[k] != '[')
      && (forall k | j < k < |text| :: text[k] != ']')
  {
    match FirstIndex(text, '[')
    case None => None
    case Some(i) =>
      match LastIndex(text, ']')
      case None => None
      case Some(j) => if i < j then Some(text[i..j + 1]) else None
  }

  // ===========================================================================
  // POST /api/recommend
  // ===========================================================================

  /** One recommendation as the model's JSON reply gives it; members the
      reply leaves out are `None`. */
  datatype Recommendation = Recommendation(
    title: Option<string>,
    year: Option<string>,
    reason: Option<string>,
    streaming: Option<seq<string>>,
    oscarWins: Option<seq<string>>)

  /** What `JSON.parse` makes of a text: not JSON at all, JSON that is not
      an array, or an array of recommendations. */
  datatype Parsed = NotJson | NotArray | Recs(recs: seq<Recommendation>)

  /** A recommendation merged with its OMDB record. */
  datatype Merged = Merged(reason: Option<string>, streaming: seq<string>, oscarWins: seq<string>, movie: Movie)

  /** The record built for one recommendation: the model's reason, its
      streaming list and Oscar wins or empty lists, and the parsed OMDB
      record when the lookup found one, else the recommendation's title
      and year. */
  function MergeOne(rec: Recommendation, omdb: Option<OmdbRecord>): (m: Merged)
    ensures m.reason == rec.reason
    ensures rec.streaming.Some? ==> m.streaming == rec.streaming.value
    ensures rec.streaming.None? ==> m.streaming == []
    ensures rec.oscarWins.Some? ==> m.oscarWins == rec.oscarWins.value
    ensures rec.oscarWins.None? ==> m.oscarWins == []
    ensures omdb.Some? ==> m.movie == ParseOmdb(omdb)
    ensures omdb.Some? ==> m.movie.title == Some(omdb.value.title) && m.movie.year == Some(omdb.value.year)
    ensures omdb.None? ==> m.movie == TitleAndYear(rec.title, rec.year)
  {
    Merged(rec.reason, rec.streaming.GetOr([]), rec.oscarWins.GetOr([]),
      if omdb.Some? then ParseOmdb(omdb) else TitleAndYear(rec.title, rec.year))
  }

  /** The OMDB lookup `fetchFromOMDB(title, year)`: a record, or null when
      OMDB has none or the request fails. */
  type Lookup = (Option<string>, Option<string>) -> Option<OmdbRecord>

  /** The per-recommendation merge: one record per recommendation, in the
      same order, each built from that recommendation's own lookup. */
  function Merge(recs: seq<Recommendation>, lookup: Lookup): (r: seq<Merged>)
    ensures |r| == |recs|
    ensures forall i | 0 <= i < |recs| :: r[i] == MergeOne(recs[i], lookup(recs[i].title, recs[i].year))
  {
    seq(|recs|, i requires 0 <= i < |recs| => MergeOne(recs[i], lookup(recs[i].title, recs[i].year)))
  }

  /** The ways the recommend handler fails. */
  datatype RecommendError =
    | TitleRequired   // 400: no movie title, or only whitespace
    | NoArray         // 500: the reply is not JSON and holds no [...] span
    | BadJson         // 500: the salvaged span is not JSON either
    | NotAList        // 500: the parsed reply is not an array

  /** The HTTP status of a failure. */
  function Status(e: RecommendError): (code: int)
    ensures code == 400 <==> e.TitleRequired?
    ensures code == 400 || code == 500
  {
    if e.TitleRequired? then 400 else 500
  }

  /** The error message sent for a failure, when the handler chooses it. */
  function Message(e: RecommendError): Option<string> {
    match e
    case TitleRequired => Some("Movie title is required")
    case NoArray => Some("Could not parse AI response as JSON")
    case _ => None
  }

  datatype Response = Response(seed: Movie, recommendations: seq<Merged>)

  /** The recommendations read from the trimmed reply: parsed directly, or
      else from its salvaged [...] span. */
  function ReadRecommendations(text: string, parse: string -> Parsed): (r: Result<seq<Recommendation>, RecommendError>)
    ensures parse(text).Recs? ==> r == Ok(parse(text).recs)
    ensures parse(text).NotArray? ==> r == Err(NotAList)
    ensures parse(text).NotJson? && Salvage(text).None? ==> r == Err(NoArray)
    ensures parse(text).NotJson? && Salvage(text).Some? ==>
      match parse(Salvage(text).value)
      case Recs(recs) => r == Ok(recs)
      case NotArray => r == Err(NotAList)
      case NotJson => r == Err(BadJson)
  {
    match parse(text)
    case Recs(recs) => Ok(recs)
    case NotArray => Err(NotAList)
    case NotJson =>
      match Salvage(text)
      case None => Err(NoArray)
      case Some(span) =>
        match parse(span)
        case Recs(recs) => Ok(recs)
        case NotArray => Err(NotAList)
        case NotJson => Err(BadJson)
  }

  /** `POST /api/recommend` (server.js) for a movie title and the model's
      reply: the seed record is looked up by title alone; the seed object is
      the parsed seed record, or just the title when OMDB has none. */
  function Recommend(movieTitle: Option<string>, reply: string, parse: string -> Parsed, lookup: Lookup): (r: Result<Response, RecommendError>)
    ensures r == Err(TitleRequired) <==> movieTitle.None? || IsBlank(movieTitle.value)
    ensures r.Ok? ==> var seed := lookup(movieTitle, None);
      && (seed.Some? ==> r.value.seed == ParseOmdb(seed))
      && (seed.None? ==> r.value.seed == NoMovie.(title := movieTitle))
    ensures r.Ok? ==>
      && ReadRecommendations(Trim(reply), parse).Ok?
      && r.value.recommendations == Merge(ReadRecommendations(Trim(reply), parse).value, lookup)
    ensures r.Err? && r != Err(TitleRequired) ==>
      ReadRecommendations(Trim(reply), parse) == Err(r.error)
  {
    if movieTitle.None? || Trim(movieTitle.value) == "" then Err(TitleRequired)
    else
      var seedOmdb := lookup(movieTitle, None);
      match ReadRecommendations(Trim(reply), parse)
      case Err(e) => Err(e)
      case Ok(recs) =>
        var seedData := if seedOmdb.Some? then ParseOmdb(seedOmdb) else NoMovie.(title := movieTitle);
        Ok(Response(seedData, Merge(recs, lookup)))
  }

  /** A JSON array wrapped in prose that has no '[' before it and no ']'
      after it is salvaged exactly. */
  lemma SalvageWrapped(pre: string, arr: string, post: string)
    requires |arr| >= 2 && arr[0] == '[' && arr[|arr| - 1] == ']'
    requires forall k | 0 <= k < |pre| :: pre[k] != '['
    requires forall k | 0 <= k < |post| :: post[k] != ']'
    ensures Salvage(pre + arr + post) == Some(arr)
  {
    var text := pre + arr + post;
    var i, j := |pre|, |pre| + |arr| - 1;
    assert text[i] == '[' && text[j] == ']';
    assert forall k | 0 <= k < i :: text[k] == pre[k];
    assert forall k | j < k < |text| :: text[k] == post[k - j - 1];
    assert FirstIndex(text, '[') == Some(i);
    assert LastIndex(text, ']') == Some(j);
    assert text[i..j + 1] == arr;
  }
}
