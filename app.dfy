/**
 * The History Oracle: a timeline of listening events with a mood filter, a
 * genre filter and a click-to-inspect detail panel.
 *
 * The dataset is a sequence of already-loaded rows. The two dashboard
 * callbacks become functions of their inputs: `UpdateTimeline` returns the
 * per-point arrays handed to the scatter trace, `ShowTrackDetails` the
 * contents of the detail panel.
 */
module HistoryOracle {
  import opened Wrappers
  import opened Text
  import opened Sequences
  import opened Sorting

  // ---------------------------------------------------------------------------
  // Data model

  /** `%Y` renders four digits; the years a pandas timestamp can hold lie in this range. */
  type Year = y: int | 1000 <= y <= 9999 witness 2000
  type Month = m: int | 1 <= m <= 12 witness 1
  type Day = d: int | 1 <= d <= 31 witness 1

  /** Days in a month of the Gregorian calendar, as pandas timestamps use it. */
  function DaysInMonth(year: Year, month: Month): (n: int)
    ensures 28 <= n <= 31
  {
    if month == 2 then
      (if year % 4 == 0 && (year % 100 != 0 || year % 400 == 0) then 29 else 28)
    else if month == 4 || month == 6 || month == 9 || month == 11 then 30
    else 31
  }

  datatype CalendarDate = CalendarDate(year: Year, month: Month, day: Day)

  /** The calendar part of the `ts` column, a day that exists; only it is ever rendered. */
  type Date = d: CalendarDate | d.day <= DaysInMonth(d.year, d.month) witness CalendarDate(2000, 1, 1)

  /**
   * One row of the listening history. The columns are `ts`, `track_name`,
   * `artist_name`, `gracenote_top_mood`, `Genres`, `city_name` and
   * `Track_preview_url`; an empty cell (NaN) is `None`.
   */
  datatype Event = Event(
    ts: Date,
    track: string,
    artist: string,
    mood: Option<string>,
    genres: Option<string>,
    city: Option<string>,
    previewUrl: Option<string>)

  /** The value of a dropdown: `None` until something is picked. */
  type Selection = Option<string>

  /** Python truthiness of a selection: `None` and `""` are both false. */
  predicate Truthy(sel: Selection)
  {
    sel.Some? && sel.value != ""
  }

  // ---------------------------------------------------------------------------
  // Constants

  const MoodColors: map<string, string> := map[
    "Sensual" := "#FF69B4",
    "Fiery" := "#FF4500"
  ]

  const GenreAccents: map<string, string> := map[
    "alt country" := "#FF1493",
    "americana" := "#1DB954",
    "singer-songwriter" := "#FFD700",
    "soft pop" := "#00CED1",
    "neo soul" := "#8A2BE2"
  ]

  /** Fill colour of a point whose mood has no entry in `MoodColors`. */
  const DefaultMoodColor: string := "#39FF14"
  /** Accent of a row whose raw genre string has no entry in `GenreAccents`. */
  const DefaultAccent: string := "#FFD700"
  /** The colour every marker border is drawn in. */
  const MarkerBorder: string := "#FFD700"
  /** How a missing cell prints inside an f-string (NaN). */
  const Missing: string := "nan"
  const ClickPrompt: string := "Click a point on the timeline to see track details, moods, and more."

  // ---------------------------------------------------------------------------
  // Filter options

  /** The moods of the rows that have one, in row order (`dropna()`). */
  function PresentMoods(df: seq<Event>): (r: seq<string>)
    ensures forall v :: v in r <==> exists e :: e in df && e.mood == Some(v)
  {
    if df == [] then []
    else
      var rest := PresentMoods(df[1..]);
      assert forall e :: e in df <==> e == df[0] || e in df[1..];
      match df[0].mood
      case Some(m) => [m] + rest
      case None => rest
  }

  /** The genre strings of the rows that have one, in row order (`dropna()`). */
  function PresentGenres(df: seq<Event>): (r: seq<string>)
    ensures forall v :: v in r <==> exists e :: e in df && e.genres == Some(v)
  {
    if df == [] then []
    else
      var rest := PresentGenres(df[1..]);
      assert forall e :: e in df <==> e == df[0] || e in df[1..];
      match df[0].genres
      case Some(g) => [g] + rest
      case None => rest
  }

  /** One entry of a dropdown: its label (`caption`) and the value it selects. */
  datatype Choice = Choice(caption: string, value: string)

  /** `[{"label": v, "value": v} for v in values]` */
  function Choices(values: seq<string>): (r: seq<Choice>)
    ensures |r| == |values|
    ensures forall i :: 0 <= i < |r| ==> r[i] == Choice(values[i], values[i])
  {
    seq(|values|, i requires 0 <= i < |values| => Choice(values[i], values[i]))
  }

  /** The options of the mood dropdown, from the whole dataset. */
  function MoodOptions(df: seq<Event>): (r: seq<Choice>)
    ensures forall i :: 0 <= i < |r| ==> r[i].caption == r[i].value
    ensures forall i :: 0 <= i < |r| ==> exists e :: e in df && e.mood == Some(r[i].value)
  {
    Choices(SortedDistinct(PresentMoods(df)))
  }

  /** The options of the genre dropdown, from the whole dataset. */
  function GenreOptions(df: seq<Event>): (r: seq<Choice>)
    ensures forall i :: 0 <= i < |r| ==> r[i].caption == r[i].value
    ensures forall i :: 0 <= i < |r| ==> exists e :: e in df && e.genres == Some(r[i].value)
  {
    Choices(SortedDistinct(PresentGenres(df)))
  }

  /** The values a list of dropdown entries selects, in order. */
  function ChoiceValues(r: seq<Choice>): (vs: seq<string>)
    ensures |vs| == |r|
    ensures forall i :: 0 <= i < |r| ==> vs[i] == r[i].value
  {
    seq(|r|, i requires 0 <= i < |r| => r[i].value)
  }

  /**
   * The mood options are labelled by their own value, strictly increasing
   * (sorted, no repeats) and are exactly the moods present in the dataset.
   */
  lemma MoodOptionsSpec(df: seq<Event>)
    ensures forall c :: c in MoodOptions(df) ==> c.caption == c.value
    ensures StrictlyIncreasing(ChoiceValues(MoodOptions(df)))
    ensures forall v :: v in ChoiceValues(MoodOptions(df)) <==> exists e :: e in df && e.mood == Some(v)
  {
    var vals := SortedDistinct(PresentMoods(df));
    assert ChoiceValues(MoodOptions(df)) == vals;
  }

  /** The same three facts for the genre options. */
  lemma GenreOptionsSpec(df: seq<Event>)
    ensures forall c :: c in GenreOptions(df) ==> c.caption == c.value
    ensures StrictlyIncreasing(ChoiceValues(GenreOptions(df)))
    ensures forall v :: v in ChoiceValues(GenreOptions(df)) <==> exists e :: e in df && e.genres == Some(v)
  {
    var vals := SortedDistinct(PresentGenres(df));
    assert ChoiceValues(GenreOptions(df)) == vals;
  }

  /**
   * The mood options depend only on which moods occur: two datasets with the
   * same moods, in any order and with any repetitions, give the same list.
   */
  lemma MoodOptionsDeterministic(a: seq<Event>, b: seq<Event>)
    requires forall v :: (exists e :: e in a && e.mood == Some(v)) <==> (exists e :: e in b && e.mood == Some(v))
    ensures MoodOptions(a) == MoodOptions(b)
  {
    StrictlyIncreasingUnique(SortedDistinct(PresentMoods(a)), SortedDistinct(PresentMoods(b)));
  }

  /** Likewise, the genre options depend only on which genre strings occur. */
  lemma GenreOptionsDeterministic(a: seq<Event>, b: seq<Event>)
    requires forall v :: (exists e :: e in a && e.genres == Some(v)) <==> (exists e :: e in b && e.genres == Some(v))
    ensures GenreOptions(a) == GenreOptions(b)
  {
    StrictlyIncreasingUnique(SortedDistinct(PresentGenres(a)), SortedDistinct(PresentGenres(b)));
  }

  /**
   * Options are computed from the full dataset, so whatever filter is applied,
   * the mood and genre of every row still on the timeline are offered.
   */
  lemma OptionsCoverFilteredRows(df: seq<Event>, selMood: Selection, selGenre: Selection, e: Event)
    requires e in ApplyFilters(df, selMood, selGenre)
    ensures e.mood.Some? ==> e.mood.value in ChoiceValues(MoodOptions(df))
    ensures e.genres.Some? ==> e.genres.value in ChoiceValues(GenreOptions(df))
  {
    FilterSpec(df, selMood, selGenre);
    MoodOptionsSpec(df);
    GenreOptionsSpec(df);
  }

  // ---------------------------------------------------------------------------
  // Filtering

  /** Row mask of `df["gracenote_top_mood"] == m`: a missing mood never equals. */
  function MoodMask(m: string): Event -> bool
  {
    (e: Event) => e.mood == Some(m)
  }

  /** Row mask of `df["Genres"].str.contains(g, na=False)`: a missing genre never matches. */
  function GenreMask(g: string): Event -> bool
  {
    (e: Event) => e.genres.Some? && Contains(e.genres.value, g)
  }

  /** `update_timeline`'s filtering: each truthy selection narrows the rows by its mask. */
  function ApplyFilters(df: seq<Event>, selMood: Selection, selGenre: Selection): (r: seq<Event>)
    ensures |r| <= |df|
    ensures forall e :: e in r ==> e in df && Matches(e, selMood, selGenre)
  {
    var byMood := if Truthy(selMood) then Select(df, MoodMask(selMood.value)) else df;
    if Truthy(selGenre) then Select(byMood, GenreMask(selGenre.value)) else byMood
  }

  /** What it takes for a row to stay on the timeline: every truthy selection matches. */
  predicate Matches(e: Event, selMood: Selection, selGenre: Selection)
  {
    && (Truthy(selMood) ==> e.mood == Some(selMood.value))
    && (Truthy(selGenre) ==> e.genres.Some? && Contains(e.genres.value, selGenre.value))
  }

  /** `Matches` as a row mask. */
  function MatchMask(selMood: Selection, selGenre: Selection): Event -> bool
  {
    (e: Event) => Matches(e, selMood, selGenre)
  }

  /** The two masks combine by AND: filtering is one selection by `Matches`. */
  lemma FiltersAreConjunction(df: seq<Event>, selMood: Selection, selGenre: Selection)
    ensures ApplyFilters(df, selMood, selGenre) == Select(df, MatchMask(selMood, selGenre))
  {
    var both := MatchMask(selMood, selGenre);
    var always := (e: Event) => true;
    var moodOnly := if Truthy(selMood) then MoodMask(selMood.value) else always;
    var genreOnly := if Truthy(selGenre) then GenreMask(selGenre.value) else always;
    SelectAll(df, always);
    SelectAll(Select(df, moodOnly), always);
    SelectSelect(df, moodOnly, genreOnly, both);
  }

  /**
   * The timeline shows an order-preserving subsequence of the dataset that
   * holds every matching row as often as the dataset does and no other row.
   */
  lemma FilterSpec(df: seq<Event>, selMood: Selection, selGenre: Selection)
    ensures IsSubsequence(ApplyFilters(df, selMood, selGenre), df)
    ensures forall e ::
      multiset(ApplyFilters(df, selMood, selGenre))[e] == if Matches(e, selMood, selGenre) then multiset(df)[e] else 0
    ensures forall e :: e in ApplyFilters(df, selMood, selGenre) <==> e in df && Matches(e, selMood, selGenre)
  {
    var keep := MatchMask(selMood, selGenre);
    FiltersAreConjunction(df, selMood, selGenre);
    SelectIsSubsequence(df, keep);
    SelectCounts(df, keep);
    SelectMembership(df, keep);
  }

  /** With neither dropdown set (None or empty), the whole dataset is shown in its order. */
  lemma NoSelectionShowsAll(df: seq<Event>, selMood: Selection, selGenre: Selection)
    requires !Truthy(selMood) && !Truthy(selGenre)
    ensures ApplyFilters(df, selMood, selGenre) == df
  {
  }

  /**
   * A mood selection keeps exactly the rows with that mood: every kept row has
   * it, every dataset row with it is kept, rows without a mood are dropped.
   */
  lemma MoodFilterSpec(df: seq<Event>, m: string, selGenre: Selection)
    requires m != ""
    ensures forall e :: e in ApplyFilters(df, Some(m), selGenre) ==> e.mood == Some(m)
    ensures forall e :: e in df && e.mood.None? ==> e !in ApplyFilters(df, Some(m), selGenre)
    ensures forall e :: e in df && e.mood == Some(m) ==> e in ApplyFilters(df, Some(m), None)
  {
    FilterSpec(df, Some(m), selGenre);
    FilterSpec(df, Some(m), None);
  }

  /**
   * A genre selection keeps exactly the rows whose genre string contains it:
   * every kept row has such a string, every dataset row with one is kept,
   * rows without a genre are dropped.
   */
  lemma GenreFilterSpec(df: seq<Event>, selMood: Selection, g: string)
    requires g != ""
    ensures forall e :: e in ApplyFilters(df, selMood, Some(g)) ==> e.genres.Some? && Contains(e.genres.value, g)
    ensures forall e :: e in df && e.genres.None? ==> e !in ApplyFilters(df, selMood, Some(g))
    ensures forall e :: e in df && e.genres.Some? && Contains(e.genres.value, g) ==> e in ApplyFilters(df, None, Some(g))
  {
    FilterSpec(df, selMood, Some(g));
    FilterSpec(df, None, Some(g));
  }

  /** Filtering by mood then genre is filtering by genre then mood. */
  lemma FiltersCommute(df: seq<Event>, m: string, g: string)
    ensures Select(Select(df, MoodMask(m)), GenreMask(g)) == Select(Select(df, GenreMask(g)), MoodMask(m))
  {
    SelectCommutes(df, MoodMask(m), GenreMask(g));
  }

  /** Filtering the shown rows again with the same selections shows the same rows. */
  lemma FilterIdempotent(df: seq<Event>, selMood: Selection, selGenre: Selection)
    ensures ApplyFilters(ApplyFilters(df, selMood, selGenre), selMood, selGenre) == ApplyFilters(df, selMood, selGenre)
  {
    var keep := MatchMask(selMood, selGenre);
    FiltersAreConjunction(df, selMood, selGenre);
    FiltersAreConjunction(ApplyFilters(df, selMood, selGenre), selMood, selGenre);
    SelectIdempotent(df, keep);
  }

  // ---------------------------------------------------------------------------
  // Colours

  /** `.map(MOOD_COLORS).fillna("#39FF14")` on one mood cell. */
  function FillColor(mood: Option<string>): (c: string)
    ensures c in MoodColors.Values || c == DefaultMoodColor
  {
    if mood.Some? && mood.value in MoodColors then MoodColors[mood.value] else DefaultMoodColor
  }

  /** `.map(GENRE_ACCENTS).fillna("#FFD700")` on one raw genre cell. */
  function AccentColor(genres: Option<string>): (c: string)
    ensures c in GenreAccents.Values || c == DefaultAccent
  {
    if genres.Some? && genres.value in GenreAccents then GenreAccents[genres.value] else DefaultAccent
  }

  /**
   * Every mood gets a colour of the palette, and the fallback colour marks
   * exactly the moods that are missing or have no table entry.
   */
  lemma FillColorSpec(mood: Option<string>)
    ensures FillColor(mood) in MoodColors.Values || FillColor(mood) == DefaultMoodColor
    ensures FillColor(mood) == DefaultMoodColor <==> mood.None? || mood.value !in MoodColors
    ensures mood.Some? && mood.value in MoodColors ==> FillColor(mood) == MoodColors[mood.value]
  {
    if mood.Some? && mood.value in MoodColors {
      assert mood.value == "Sensual" || mood.value == "Fiery";
    }
  }

  /**
   * Every genre cell gets an accent of the palette. The key is the raw cell,
   * so the fallback is used for a missing genre, an unknown string, and
   * "singer-songwriter", whose table entry is the fallback colour itself.
   */
  lemma AccentColorSpec(genres: Option<string>)
    ensures AccentColor(genres) in GenreAccents.Values || AccentColor(genres) == DefaultAccent
    ensures genres.Some? && genres.value in GenreAccents ==> AccentColor(genres) == GenreAccents[genres.value]
    ensures AccentColor(genres) == DefaultAccent <==>
      genres.None? || genres.value !in GenreAccents || genres.value == "singer-songwriter"
  {
    if genres.Some? && genres.value in GenreAccents {
      var g := genres.value;
      assert g == "alt country" || g == "americana" || g == "singer-songwriter" || g == "soft pop" || g == "neo soul";
    }
  }

  /**
   * A row whose genre list names a genre of the table along with another gets
   * no accent of its own: the lookup does not split the list.
   */
  lemma AccentOfGenreList()
    ensures Contains("americana, alt country", "americana")
    ensures AccentColor(Some("americana, alt country")) == DefaultAccent
    ensures AccentColor(Some("americana")) == "#1DB954"
  {
    assert IsPrefix("americana", "americana, alt country");
  }

  // ---------------------------------------------------------------------------
  // Labels and hover text

  /** `ts.strftime("%Y-%m-%d")` */
  function FormatDate(d: Date): (s: string)
    ensures |s| == 10 && s[4] == '-' && s[7] == '-'
    ensures forall i :: 0 <= i < 10 && i != 4 && i != 7 ==> IsDigit(s[i])
  {
    Digits(d.year, 4) + "-" + Digits(d.month, 2) + "-" + Digits(d.day, 2)
  }

  predicate AllDigits(s: string)
  {
    forall i :: 0 <= i < |s| ==> IsDigit(s[i])
  }

  /** Reads a `YYYY-MM-DD` date back; the inverse of `FormatDate`. */
  function ParseDate(s: string): Option<Date>
  {
    if |s| == 10 && s[4] == '-' && s[7] == '-' && AllDigits(s[..4]) && AllDigits(s[5..7]) && AllDigits(s[8..]) then
      var y, m, d := DigitsValue(s[..4]), DigitsValue(s[5..7]), DigitsValue(s[8..]);
      if 1000 <= y && 1 <= m <= 12 && 1 <= d <= DaysInMonth(y, m) then Some(CalendarDate(y, m, d)) else None
    else None
  }

  /** A rendered date is ten characters, dashes at 4 and 7, and reads back as the same date. */
  lemma FormatDateRoundTrip(d: Date)
    ensures |FormatDate(d)| == 10
    ensures FormatDate(d)[4] == '-' && FormatDate(d)[7] == '-'
    ensures ParseDate(FormatDate(d)) == Some(d)
  {
    var s := FormatDate(d);
    assert s[..4] == Digits(d.year, 4);
    assert s[5..7] == Digits(d.month, 2);
    assert s[8..] == Digits(d.day, 2);
    DigitsRoundTrip(d.year, 4);
    DigitsRoundTrip(d.month, 2);
    DigitsRoundTrip(d.day, 2);
  }

  /** How an optional cell prints inside an f-string. */
  function Show(v: Option<string>): (s: string)
    ensures v.Some? ==> s == v.value
    ensures v.None? ==> s == "nan"
  {
    v.GetOr(Missing)
  }

  /** The text under a point: `track_name + " - " + artist_name`. */
  function Label(e: Event): (s: string)
    ensures |s| == |e.track| + 3 + |e.artist|
    ensures s[..|e.track|] == e.track && s[|e.track| + 3..] == e.artist
  {
    e.track + " - " + e.artist
  }

  /** The tooltip of a point. */
  function HoverText(e: Event): (s: string)
    ensures |s| > 10 && s[..10] == FormatDate(e.ts)
  {
    FormatDate(e.ts) + ": " + e.track + " by " + e.artist
      + "<br>Mood: " + Show(e.mood)
      + "<br>City: " + Show(e.city)
      + "<br>Genres: " + Show(e.genres)
  }

  /** A label splits back into the track and the artist around the three-character separator. */
  lemma LabelParts(e: Event)
    ensures |Label(e)| == |e.track| + 3 + |e.artist|
    ensures Label(e)[..|e.track|] == e.track
    ensures Label(e)[|e.track|..|e.track| + 3] == " - "
    ensures Label(e)[|e.track| + 3..] == e.artist
  {
  }

  /**
   * A tooltip opens with the row's date, which reads back as the date, then
   * `": "` and the track.
   */
  lemma HoverTextStart(e: Event)
    ensures ParseDate(HoverText(e)[..10]) == Some(e.ts)
    ensures HoverText(e)[10..12 + |e.track|] == ": " + e.track
  {
    FormatDateRoundTrip(e.ts);
    var date := FormatDate(e.ts);
    var head := date + ": " + e.track;
    var h := HoverText(e);
    var withArtist := head + " by " + e.artist;
    var withMood := withArtist + "<br>Mood: " + Show(e.mood);
    var withCity := withMood + "<br>City: " + Show(e.city);
    assert h == withCity + "<br>Genres: " + Show(e.genres);
    assert withArtist[..|head|] == head;
    assert withMood[..|head|] == head;
    assert withCity[..|head|] == head;
    assert h[..|head|] == head;
    assert h[..10] == date;
    assert h[10..12 + |e.track|] == head[10..];
  }

  /**
   * The middle of a tooltip: the artist after " by ", then the mood and the
   * city cells as printed (`nan` when missing), each behind its own caption.
   */
  lemma HoverTextMiddle(e: Event)
    ensures var head := FormatDate(e.ts) + ": " + e.track;
      var mid := " by " + e.artist + "<br>Mood: " + Show(e.mood) + "<br>City: " + Show(e.city);
      |HoverText(e)| >= |head| + |mid| && HoverText(e)[|head|..|head| + |mid|] == mid
    ensures Show(e.mood) == if e.mood.Some? then e.mood.value else "nan"
    ensures Show(e.city) == if e.city.Some? then e.city.value else "nan"
  {
    var head := FormatDate(e.ts) + ": " + e.track;
    var withArtist := head + " by " + e.artist;
    var withMood := withArtist + "<br>Mood: " + Show(e.mood);
    var withCity := withMood + "<br>City: " + Show(e.city);
    var mid := " by " + e.artist + "<br>Mood: " + Show(e.mood) + "<br>City: " + Show(e.city);
    var h := HoverText(e);
    assert h == withCity + "<br>Genres: " + Show(e.genres);
    assert withCity == head + mid;
    assert h[..|withCity|] == withCity;
  }

  /** A tooltip closes with the genre cell as printed. */
  lemma HoverTextEnd(e: Event)
    ensures var tail := "<br>Genres: " + Show(e.genres);
      |HoverText(e)| >= |tail| && HoverText(e)[|HoverText(e)| - |tail|..] == tail
    ensures |HoverText(e)| ==
      |FormatDate(e.ts) + ": " + e.track|
      + |" by " + e.artist + "<br>Mood: " + Show(e.mood) + "<br>City: " + Show(e.city)|
      + |"<br>Genres: " + Show(e.genres)|
  {
  }

  // ---------------------------------------------------------------------------
  // The timeline figure

  /** The data arrays of the scatter trace (layout and styling left out). */
  datatype Trace = Trace(
    x: seq<Date>,
    y: seq<int>,
    text: seq<string>,
    hovertext: seq<string>,
    color: seq<string>,
    lineColor: string)

  /** The accent column `update_timeline` computes; the figure never reads it. */
  function AccentMap(rows: seq<Event>): (accents: seq<string>)
    ensures |accents| == |rows|
    ensures forall i :: 0 <= i < |rows| ==> accents[i] == AccentColor(rows[i].genres)
  {
    seq(|rows|, i requires 0 <= i < |rows| => AccentColor(rows[i].genres))
  }

  /** `update_timeline(selected_mood, selected_genre)` */
  function UpdateTimeline(df: seq<Event>, selMood: Selection, selGenre: Selection): (fig: Trace)
    ensures |fig.x| == |fig.y| == |fig.text| == |fig.hovertext| == |fig.color| <= |df|
    ensures forall i :: 0 <= i < |fig.y| ==> fig.y[i] == 1
    ensures fig.lineColor == MarkerBorder
  {
    var rows := ApplyFilters(df, selMood, selGenre);
    Trace(
      seq(|rows|, i requires 0 <= i < |rows| => rows[i].ts),
      seq(|rows|, i requires 0 <= i < |rows| => 1),
      seq(|rows|, i requires 0 <= i < |rows| => Label(rows[i])),
      seq(|rows|, i requires 0 <= i < |rows| => HoverText(rows[i])),
      seq(|rows|, i requires 0 <= i < |rows| => FillColor(rows[i].mood)),
      MarkerBorder)
  }

  /**
   * Point i of the figure is row i of the filtered rows: every array has one
   * entry per shown row, y is always 1, the label and tooltip are the row's,
   * its fill follows its mood, and every border is the fixed colour.
   */
  lemma TimelinePoints(df: seq<Event>, selMood: Selection, selGenre: Selection)
    ensures var rows, fig := ApplyFilters(df, selMood, selGenre), UpdateTimeline(df, selMood, selGenre);
      && |fig.x| == |fig.y| == |fig.text| == |fig.hovertext| == |fig.color| == |rows|
      && fig.lineColor == MarkerBorder
      && forall i :: 0 <= i < |rows| ==>
        && fig.x[i] == rows[i].ts
        && fig.y[i] == 1
        && fig.text[i] == Label(rows[i])
        && fig.hovertext[i] == HoverText(rows[i])
        && fig.color[i] == FillColor(rows[i].mood)
  {
  }

  /**
   * Every point drawn satisfies the selections, and under a mood selection all
   * points share the selected mood's colour.
   */
  lemma TimelineMatchesSelection(df: seq<Event>, selMood: Selection, selGenre: Selection)
    ensures var rows, fig := ApplyFilters(df, selMood, selGenre), UpdateTimeline(df, selMood, selGenre);
      forall i :: 0 <= i < |rows| ==>
        && Matches(rows[i], selMood, selGenre)
        && (Truthy(selMood) ==> fig.color[i] == FillColor(selMood))
  {
    var rows := ApplyFilters(df, selMood, selGenre);
    FilterSpec(df, selMood, selGenre);
    forall i | 0 <= i < |rows|
      ensures Matches(rows[i], selMood, selGenre)
    {
      assert rows[i] in rows;
    }
  }

  /**
   * The genre accent is computed but not drawn: a row of a genre with its own
   * accent is still bordered in the fixed colour.
   */
  lemma AccentNotDrawn(df: seq<Event>, selMood: Selection, selGenre: Selection, i: nat)
    requires i < |ApplyFilters(df, selMood, selGenre)|
    requires ApplyFilters(df, selMood, selGenre)[i].genres == Some("americana")
    ensures AccentMap(ApplyFilters(df, selMood, selGenre))[i] == "#1DB954"
    ensures UpdateTimeline(df, selMood, selGenre).lineColor != AccentMap(ApplyFilters(df, selMood, selGenre))[i]
  {
  }

  // ---------------------------------------------------------------------------
  // Track details

  /** One entry of `clickData["points"]`. */
  datatype ClickPoint = ClickPoint(pointIndex: nat)

  /** The graph's `clickData`; `points` is `None` when the key is absent. */
  datatype ClickData = ClickData(points: Option<seq<ClickPoint>>)

  /** The children of the detail panel. */
  datatype Element = Heading(text: string) | Paragraph(text: string) | AudioPlayer(src: string)

  /** What the detail callback returns: the prompt string, or a panel of elements. */
  datatype Details = Prompt(text: string) | Panel(elements: seq<Element>)

  /** A click carrying a `"points"` entry. */
  predicate HasPoints(click: Option<ClickData>)
  {
    click.Some? && click.value.points.Some?
  }

  /** The panel heading: track, en dash, artist. */
  function Title(row: Event): (s: string)
    ensures |s| == |row.track| + 3 + |row.artist|
    ensures s[..|row.track|] == row.track && s[|row.track| + 3..] == row.artist
    ensures s[|row.track|..|row.track| + 3] == " \U{2013} "
  {
    row.track + " \U{2013} " + row.artist
  }

  /** The panel's summary line. */
  function Summary(row: Event): (s: string)
    ensures |s| > 16 && s[..6] == "Date: " && s[6..16] == FormatDate(row.ts)
  {
    "Date: " + FormatDate(row.ts)
      + " | Mood: " + Show(row.mood)
      + " | City: " + Show(row.city)
      + " | Genres: " + Show(row.genres)
  }

  /**
   * After the date, the summary holds the mood, city and genre cells behind
   * their captions, each printed as its value or `nan` when missing.
   */
  lemma SummaryFields(row: Event)
    ensures var mood, city, genres := " | Mood: " + Show(row.mood), " | City: " + Show(row.city), " | Genres: " + Show(row.genres);
      && |Summary(row)| == 16 + |mood| + |city| + |genres|
      && Summary(row)[16..16 + |mood|] == mood
      && Summary(row)[16 + |mood|..16 + |mood| + |city|] == city
      && Summary(row)[16 + |mood| + |city|..] == genres
  {
  }

  /** The panel for one row: heading, summary, and a player only if there is a preview. */
  function TrackPanel(row: Event): (elements: seq<Element>)
    ensures |elements| == if row.previewUrl.Some? then 3 else 2
    ensures elements[0] == Heading(Title(row)) && elements[1] == Paragraph(Summary(row))
  {
    [Heading(Title(row)), Paragraph(Summary(row))]
      + (if row.previewUrl.Some? then [AudioPlayer(row.previewUrl.value)] else [])
  }

  /**
   * A panel has the heading and the summary first, and an audio player (the
   * third and last element, playing the preview) exactly when the row has a preview URL.
   */
  lemma TrackPanelSpec(row: Event)
    ensures |TrackPanel(row)| == if row.previewUrl.Some? then 3 else 2
    ensures TrackPanel(row)[0] == Heading(Title(row)) && TrackPanel(row)[1] == Paragraph(Summary(row))
    ensures (exists el :: el in TrackPanel(row) && el.AudioPlayer?) <==> row.previewUrl.Some?
    ensures row.previewUrl.Some? ==> TrackPanel(row)[2] == AudioPlayer(row.previewUrl.value)
  {
    if row.previewUrl.Some? {
      assert TrackPanel(row)[2].AudioPlayer?;
    }
  }

  /**
   * `show_track_details(clickData)` as written: the clicked point's index is
   * looked up in the unfiltered dataset. An empty `points` list or an index
   * past the end raises in the source, so both are excluded here.
   */
  function ShowTrackDetails(df: seq<Event>, click: Option<ClickData>): (d: Details)
    requires HasPoints(click) ==>
      |click.value.points.value| > 0 && click.value.points.value[0].pointIndex < |df|
    ensures !HasPoints(click) <==> d == Prompt(ClickPrompt)
    ensures HasPoints(click) ==> d == Panel(TrackPanel(df[click.value.points.value[0].pointIndex]))
  {
    if !HasPoints(click) then Prompt(ClickPrompt)
    else Panel(TrackPanel(df[click.value.points.value[0].pointIndex]))
  }

  /**
   * The detail callback as evidently intended: the index refers to the points
   * on the timeline, i.e. to the filtered rows. A click without a usable point
   * shows the prompt.
   */
  function ShowTrackDetailsOfShown(df: seq<Event>, selMood: Selection, selGenre: Selection, click: Option<ClickData>): (d: Details)
    ensures d.Prompt? <==>
      (!HasPoints(click) || |click.value.points.value| == 0
       || click.value.points.value[0].pointIndex >= |ApplyFilters(df, selMood, selGenre)|)
    ensures d.Prompt? ==> d == Prompt(ClickPrompt)
    ensures d.Panel? ==> exists row :: row in df && Matches(row, selMood, selGenre) && d == Panel(TrackPanel(row))
  {
    var rows := ApplyFilters(df, selMood, selGenre);
    if HasPoints(click) && |click.value.points.value| > 0 && click.value.points.value[0].pointIndex < |rows| then
      Panel(TrackPanel(rows[click.value.points.value[0].pointIndex]))
    else Prompt(ClickPrompt)
  }

  /**
   * With the intended lookup, the panel describes the very point that was
   * clicked: the row under label `fig.text[i]` at date `fig.x[i]`.
   */
  lemma ClickedPointIsShown(df: seq<Event>, selMood: Selection, selGenre: Selection, i: nat)
    requires i < |ApplyFilters(df, selMood, selGenre)|
    ensures var row, fig := ApplyFilters(df, selMood, selGenre)[i], UpdateTimeline(df, selMood, selGenre);
      && ShowTrackDetailsOfShown(df, selMood, selGenre, Some(ClickData(Some([ClickPoint(i)])))) == Panel(TrackPanel(row))
      && fig.text[i] == Label(row)
      && fig.x[i] == row.ts
      && row in df
      && Matches(row, selMood, selGenre)
  {
    FilterSpec(df, selMood, selGenre);
    assert ApplyFilters(df, selMood, selGenre)[i] in ApplyFilters(df, selMood, selGenre);
  }

  /** Without any selection the index spaces agree, so the as-written lookup is right. */
  lemma UnfilteredLookupAgrees(df: seq<Event>, click: Option<ClickData>)
    requires HasPoints(click) ==>
      |click.value.points.value| > 0 && click.value.points.value[0].pointIndex < |df|
    ensures ShowTrackDetails(df, click) == ShowTrackDetailsOfShown(df, None, None, click)
  {
  }

  // ---------------------------------------------------------------------------
  // A worked example

  const SongA := Event(CalendarDate(2021, 1, 1), "Song A", "Artist X", Some("happy"), Some("rock"), None, None)
  const SongB := Event(CalendarDate(2021, 2, 1), "Song B", "Artist Y", Some("sad"), Some("hip-hop"), None, None)
  const SongC := Event(CalendarDate(2021, 3, 1), "Song C", "Artist X", Some("happy"), Some("rock,pop"), None, Some("https://p.example/c"))

  /** "pop" occurs in neither "rock" nor "hip-hop". */
  lemma ExampleGenresWithoutPop()
    ensures !Contains("rock", "pop") && !Contains("hip-hop", "pop")
  {
    assert !Contains("rock", "pop") by {
      assert "rock"[1..] == "ock" && "ock"[1..] == "ck" && "ck"[1..] == "k" && "k"[1..] == "";
      assert !IsPrefix("pop", "rock") by { assert "rock"[..3][0] == 'r'; }
      assert !IsPrefix("pop", "ock") by { assert "ock"[..3][0] == 'o'; }
      assert !Contains("k", "pop");
      assert !Contains("ck", "pop");
    }
    assert !Contains("hip-hop", "pop") by {
      assert "op"[1..] == "p" && "hop"[1..] == "op";
      assert !Contains("op", "pop");
      assert !IsPrefix("pop", "hop") by { assert "hop"[..3][0] == 'h'; }
      assert !Contains("hop", "pop");
      assert "-hop"[1..] == "hop";
      assert !Contains("-hop", "pop");
      assert "p-hop"[1..] == "-hop";
      assert !IsPrefix("pop", "p-hop") by { assert "p-hop"[..3][1] == '-'; }
      assert !Contains("p-hop", "pop");
      assert "ip-hop"[1..] == "p-hop";
      assert !Contains("ip-hop", "pop");
      assert "hip-hop"[1..] == "ip-hop";
    }
  }

  /** "rock,pop" contains both "rock" and "pop". */
  lemma ExampleGenreList()
    ensures Contains("rock,pop", "pop") && Contains("rock,pop", "rock")
  {
    assert Contains("rock,pop", "pop") by {
      assert "rock,pop"[1..] == "ock,pop" && "ock,pop"[1..] == "ck,pop" && "ck,pop"[1..] == "k,pop";
      assert "k,pop"[1..] == ",pop" && ",pop"[1..] == "pop";
      assert IsPrefix("pop", "pop");
    }
    assert IsPrefix("rock", "rock,pop");
  }

  /** Filtering the example by mood "happy" keeps Song A and Song C, in that order. */
  lemma ExampleMoodFilter()
    ensures ApplyFilters([SongA, SongB, SongC], Some("happy"), None) == [SongA, SongC]
  {
    var happy := MoodMask("happy");
    assert happy(SongA) && !happy(SongB) && happy(SongC);
    assert Select([SongC], happy) == [SongC];
    assert Select([SongB, SongC], happy) == [SongC];
    assert [SongA, SongB, SongC][1..] == [SongB, SongC];
  }

  /** Filtering the example by genre "pop" keeps Song C, whose genres are "rock,pop". */
  lemma ExampleGenreFilter()
    ensures ApplyFilters([SongA, SongB, SongC], None, Some("pop")) == [SongC]
  {
    ExampleGenresWithoutPop();
    ExampleGenreList();
    var pop := GenreMask("pop");
    assert !pop(SongA) && !pop(SongB) && pop(SongC);
    assert Select([SongC], pop) == [SongC];
    assert Select([SongB, SongC], pop) == [SongC];
    assert [SongA, SongB, SongC][1..] == [SongB, SongC];
  }

  /** Mood "happy" and genre "rock" keep both Song A and Song C: containment, not equality. */
  lemma ExampleBothFilters()
    ensures ApplyFilters([SongA, SongB, SongC], Some("happy"), Some("rock")) == [SongA, SongC]
  {
    ExampleMoodFilter();
    ExampleGenreList();
    var rock := GenreMask("rock");
    assert rock(SongA) && rock(SongC);
    assert Select([SongC], rock) == [SongC];
    assert [SongA, SongC][1..] == [SongC];
  }

  /** Filtering the example by mood "sad" leaves Song B alone on the timeline. */
  lemma ExampleSadFilter()
    ensures ApplyFilters([SongA, SongB, SongC], Some("sad"), None) == [SongB]
  {
    var sad := MoodMask("sad");
    assert !sad(SongA) && sad(SongB) && !sad(SongC);
    assert Select([SongC], sad) == [];
    assert Select([SongB, SongC], sad) == [SongB];
    assert [SongA, SongB, SongC][1..] == [SongB, SongC];
  }

  /**
   * With the mood "sad" selected only Song B is on the timeline, yet clicking
   * that single point shows Song A: the first row of the whole dataset.
   */
  lemma StaleIndexShowsWrongRow()
    ensures ApplyFilters([SongA, SongB, SongC], Some("sad"), None) == [SongB]
    ensures ShowTrackDetails([SongA, SongB, SongC], Some(ClickData(Some([ClickPoint(0)]))))
      == Panel(TrackPanel(SongA))
    ensures ShowTrackDetailsOfShown([SongA, SongB, SongC], Some("sad"), None, Some(ClickData(Some([ClickPoint(0)]))))
      == Panel(TrackPanel(SongB))
    ensures TrackPanel(SongA) != TrackPanel(SongB)
  {
    ExampleSadFilter();
    var titleA, titleB := Title(SongA), Title(SongB);
    assert titleA[5] == 'A' && titleB[5] == 'B';
    assert TrackPanel(SongA)[0] == Heading(titleA);
    assert TrackPanel(SongB)[0] == Heading(titleB);
  }
}
