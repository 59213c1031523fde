# The History Oracle — a Dafny model of the timeline pipeline

The History Oracle is a Dash page over a personal listening history. It has
one row per listening event: timestamp, track, artist, mood, genres, city
and an optional audio preview. The page offers two dropdowns (mood, genre),
a scatter timeline of the rows those dropdowns select, and a detail panel
for the point that was clicked.

This project models the data side of `api/app.py`:

- the option lists of the two dropdowns;
- the row filtering in `update_timeline`;
- the fill-colour and accent lookups with their fallbacks;
- the per-point arrays handed to the scatter trace (x, y, label, hover text, colour, border);
- `show_track_details`: the prompt when nothing was clicked, the panel for the clicked row, and the audio player only when a preview exists.

The dataset is a `seq<Event>` that is already loaded. Each optional column
is an `Option<string>`, and an empty (NaN) cell is `None`. The two callbacks
become pure functions of their inputs.

Files:

- `wrappers.dfy`: `Option`.
- `text.dfy`: Python's `str` ordering (`StrLess`) and its order laws; literal substring containment (`Contains`); zero-padded decimal fields and their parser.
- `sequences.dfy`: `Select`, the selection of rows by a boolean mask (`df[mask]`). It comes with lemmas for subsequence, multiplicities, conjunction, commutation and idempotence.
- `sorting.dfy`: `sorted(set(values))` as insertion into a strictly increasing list, and the lemma that such a list is fixed by its set of values.
- `app.dfy`: the module `HistoryOracle`, which holds the events, the filters, the colours, the labels, the trace, the details and a worked example.

## Model

| member | source | states |
|---|---|---|
| `Sequences.Select` | api/app.py:56-60 | a mask selection has at most as many rows as its input, and each kept row is an input row that satisfies the mask |
| `Sequences.SelectIsSubsequence` | api/app.py:56-60 | a mask selection is an order-preserving subsequence of its input, never re-sorted |
| `Sequences.SelectCounts` | api/app.py:56-60 | a matching row is kept exactly as many times as it occurs, and a non-matching row is never kept |
| `Sequences.SelectMembership` | api/app.py:56-60 | a row is kept iff it is an input row and matches the mask |
| `Sequences.SelectAll` | api/app.py:56 | a mask that every row satisfies keeps the whole input, in order |
| `Sequences.SelectSelect` | api/app.py:57-60 | applying two masks in a row is the same as one selection by their conjunction |
| `Sequences.SelectCommutes` | api/app.py:57-60 | two mask selections can be applied in either order |
| `Sequences.SelectIdempotent` | api/app.py:56-60 | selecting again with the same mask changes nothing |
| `Text.StrLessIrreflexive` | api/app.py:34 | no string sorts before itself under Python's `str` order |
| `Text.StrLessAsymmetric` | api/app.py:34 | if a sorts before b, b does not sort before a |
| `Text.StrLessTransitive` | api/app.py:34 | Python's `str` order is transitive |
| `Text.StrLessConnected` | api/app.py:34 | of two different strings, one sorts before the other |
| `Text.ContainsAt` | api/app.py:60 | the genre test holds iff the selection occurs in the genre string at some offset |
| `Text.Digits` | api/app.py:74 | a zero-padded field has exactly the requested width, and every character is a decimal digit |
| `Text.DigitsRoundTrip` | api/app.py:74 | reading a zero-padded field back gives the number that was written |
| `Sorting.Insert` | api/app.py:34 | inserting into a strictly increasing list keeps it strictly increasing, and the result holds exactly the old values plus the new one |
| `Sorting.SortedDistinct` | api/app.py:34 | `sorted(unique(values))` is strictly increasing (sorted, no duplicates) and holds exactly the input values |
| `Sorting.StrictlyIncreasingUnique` | api/app.py:34 | two strictly increasing lists with the same values are equal, so the option order is deterministic |
| `HistoryOracle.PresentMoods` | api/app.py:34 | `dropna()` on the mood column yields exactly the moods of the rows that have one |
| `HistoryOracle.PresentGenres` | api/app.py:41 | `dropna()` on the genre column yields exactly the genre strings of the rows that have one |
| `HistoryOracle.Choices` | api/app.py:34 | the dropdown gets one entry per value, in order, and each entry's label equals its value |
| `HistoryOracle.MoodOptions` | api/app.py:34 | each mood option's label equals its value, and every value is the mood of some dataset row; `MoodOptionsSpec` adds order, distinctness and completeness |
| `HistoryOracle.GenreOptions` | api/app.py:41 | each genre option's label equals its value, and every value is the genre string of some dataset row; `GenreOptionsSpec` adds order, distinctness and completeness |
| `HistoryOracle.MoodOptionsSpec` | api/app.py:34 | mood options: each label equals its value; the values are strictly increasing and are exactly the non-null moods of the full dataset |
| `HistoryOracle.GenreOptionsSpec` | api/app.py:41 | genre options: each label equals its value; the values are strictly increasing and are exactly the non-null genre strings of the full dataset |
| `HistoryOracle.MoodOptionsDeterministic` | api/app.py:34 | the mood options depend only on which moods occur, not on row order or repetition |
| `HistoryOracle.GenreOptionsDeterministic` | api/app.py:41 | the genre options depend only on which genre strings occur, not on row order or repetition |
| `HistoryOracle.OptionsCoverFilteredRows` | api/app.py:34-60 | options come from the unfiltered dataset, so the mood and genre of every row still shown are offered under any filter |
| `HistoryOracle.ApplyFilters` | api/app.py:56-60 | the shown rows are no more than the dataset, and each is a dataset row matching the selections; `FilterSpec` and `FiltersAreConjunction` give the exact characterisation |
| `HistoryOracle.FiltersAreConjunction` | api/app.py:55-60 | the two filters together keep the rows that satisfy every truthy selection (AND); a falsy selection (None or "") filters nothing |
| `HistoryOracle.FilterSpec` | api/app.py:56-60 | the shown rows are an order-preserving subsequence of the dataset; they hold every matching row with its multiplicity and no other row |
| `HistoryOracle.NoSelectionShowsAll` | api/app.py:56-60 | with neither dropdown set (None or empty) the whole dataset is shown, in its order |
| `HistoryOracle.MoodFilterSpec` | api/app.py:57-58 | with a mood selected: every kept row has exactly that mood; every dataset row with it is kept; rows without a mood are dropped |
| `HistoryOracle.GenreFilterSpec` | api/app.py:59-60 | with a genre selected: every kept row has a genre string containing it; every such row is kept; rows without a genre are dropped (`na=False`) |
| `HistoryOracle.FiltersCommute` | api/app.py:57-60 | filtering by mood then genre equals filtering by genre then mood |
| `HistoryOracle.FilterIdempotent` | api/app.py:56-60 | filtering the shown rows again with the same selections shows the same rows |
| `HistoryOracle.FillColor` | api/app.py:61 | the fill is always a `MOOD_COLORS` entry or the fallback `#39FF14`; `FillColorSpec` says which |
| `HistoryOracle.AccentColor` | api/app.py:62 | the accent is always a `GENRE_ACCENTS` entry or the fallback `#FFD700`; `AccentColorSpec` says which |
| `HistoryOracle.FillColorSpec` | api/app.py:61 | the fill is `MOOD_COLORS[mood]` for a known mood and `#39FF14` otherwise, including a missing mood; the fallback appears exactly for missing or unknown moods |
| `HistoryOracle.AccentColorSpec` | api/app.py:62 | the accent is always a palette colour; a genre cell that is a `GENRE_ACCENTS` key gets that key's entry; the accent equals `#FFD700` exactly for a missing genre, an unknown raw string, or "singer-songwriter", whose own entry is `#FFD700` |
| `HistoryOracle.AccentOfGenreList` | api/app.py:62 | the accent key is the raw cell: "americana, alt country" falls back to `#FFD700` even though it contains "americana" |
| `HistoryOracle.AccentMap` | api/app.py:62 | the accent list has one entry per shown row, the accent of that row's raw genre cell |
| `HistoryOracle.AccentNotDrawn` | api/app.py:62-71 | an "americana" row has accent `#1DB954`, but its border is still drawn in the fixed `#FFD700` |
| `HistoryOracle.FormatDateRoundTrip` | api/app.py:74 | `%Y-%m-%d` gives ten characters with dashes at positions 4 and 7, and it reads back as the same date |
| `HistoryOracle.FormatDate` | api/app.py:74 | `%Y-%m-%d` is ten characters: digits everywhere except dashes at positions 4 and 7; `FormatDateRoundTrip` shows it reads back as the date |
| `HistoryOracle.LabelParts` | api/app.py:73 | a point label is the track, then " - ", then the artist |
| `HistoryOracle.Label` | api/app.py:73 | a label is the track and the artist around a three-character separator; `LabelParts` names the separator |
| `HistoryOracle.HoverText` | api/app.py:74 | a tooltip is longer than a date and starts with the row's formatted date; `HoverTextStart`, `HoverTextMiddle` and `HoverTextEnd` give the rest |
| `HistoryOracle.HoverTextStart` | api/app.py:74 | a tooltip starts with the row's date (which reads back as the date), then ": " and the track |
| `HistoryOracle.HoverTextMiddle` | api/app.py:74 | after the date and track, a tooltip holds " by " and the artist, then "<br>Mood: " and the mood cell, then "<br>City: " and the city cell, each cell printed as its value or `nan` when missing |
| `HistoryOracle.HoverTextEnd` | api/app.py:74 | a tooltip ends with "<br>Genres: " and the genre cell as printed, and its length is exactly the sum of its date-and-track part, its artist/mood/city part and that genre part |
| `HistoryOracle.TimelinePoints` | api/app.py:64-74 | every trace array has one entry per shown row; point i has row i's date, y = 1, its label, its tooltip and its mood colour; the border is `#FFD700` |
| `HistoryOracle.TimelineMatchesSelection` | api/app.py:57-70 | every drawn point satisfies the selections; with a mood selected, all points have that mood's fill colour |
| `HistoryOracle.UpdateTimeline` | api/app.py:55-77 | all per-point arrays have the same length, at most the dataset's; every y is 1; the border colour is `#FFD700`; `TimelinePoints` ties point i to shown row i |
| `HistoryOracle.TrackPanelSpec` | api/app.py:100-105 | a panel is exactly [heading, summary] for a row without a preview URL, and [heading, summary, audio player of that URL] for a row with one; it has an audio player iff the row has a preview URL |
| `HistoryOracle.Title` | api/app.py:101 | the heading is the track, then exactly " – " (a space, an en dash, a space), then the artist |
| `HistoryOracle.Summary` | api/app.py:102 | the summary starts with "Date: " followed by the row's formatted date; `SummaryFields` gives the rest |
| `HistoryOracle.SummaryFields` | api/app.py:102 | after the date, the summary holds the mood cell, then the city cell, then the genre cell, each behind its separator and caption ("Mood: ", "City: ", "Genres: "), and nothing else |
| `HistoryOracle.Show` | api/app.py:102 | a cell prints as its value, and a missing cell prints as `nan` |
| `HistoryOracle.TrackPanel` | api/app.py:100-105 | a panel has three elements with a preview URL and two without, and starts with the title heading and the summary paragraph |
| `HistoryOracle.ShowTrackDetails` | api/app.py:94-106 | no click, or a click without "points", gives exactly the fixed prompt; otherwise the panel is for row `pointIndex` of the unfiltered dataset |
| `HistoryOracle.UnfilteredLookupAgrees` | api/app.py:94-99 | with no selection active, the as-written lookup and the lookup in the shown rows agree |
| `HistoryOracle.ClickedPointIsShown` | api/app.py:97-99 | with the lookup done in the shown rows, the panel describes the clicked point: the row under label `text[i]` at date `x[i]`, a dataset row that satisfies the selections |
| `HistoryOracle.ShowTrackDetailsOfShown` | api/app.py:94-106 | corrected lookup: the prompt exactly when the click has no usable point among the shown rows, and otherwise the panel of a dataset row that satisfies the selections |
| `HistoryOracle.StaleIndexShowsWrongRow` | api/app.py:99 | with mood "sad" on the example, the only point shown is Song B, but clicking it shows Song A |
| `HistoryOracle.ExampleGenresWithoutPop` | api/app.py:60 | "pop" is not a substring of "rock" or of "hip-hop" |
| `HistoryOracle.ExampleGenreList` | api/app.py:60 | "rock,pop" contains both "rock" and "pop" |
| `HistoryOracle.ExampleMoodFilter` | api/app.py:57-58 | on the example, mood "happy" keeps Song A and Song C, in that order |
| `HistoryOracle.ExampleGenreFilter` | api/app.py:59-60 | on the example, genre "pop" keeps only Song C (containment in "rock,pop") |
| `HistoryOracle.ExampleBothFilters` | api/app.py:57-60 | on the example, mood "happy" with genre "rock" keeps Song A and Song C |
| `HistoryOracle.ExampleSadFilter` | api/app.py:57-58 | on the example, mood "sad" keeps only Song B |

## Findings

| source | as written | input that shows it | evidently intended | confidence | as-written member | corrected member |
|---|---|---|---|---|---|---|
| api/app.py:99 | `df.iloc[idx]` looks up the clicked point's index in the unfiltered dataset, but the index counts the points of the filtered trace | rows Song A (happy), Song B (sad), Song C (happy); mood "sad" selected; click on point 0, the only point, Song B | look the index up in the rows currently shown (the filtered rows) | high; not executed | `HistoryOracle.StaleIndexShowsWrongRow` | `HistoryOracle.ShowTrackDetailsOfShown` |

`HistoryOracle.ShowTrackDetails` models the callback as written.
`HistoryOracle.ShowTrackDetailsOfShown` is the corrected lookup: it takes the
current selections, indexes the filtered rows, and shows the prompt when the
click has no usable point. `HistoryOracle.ClickedPointIsShown` proves that the
corrected lookup shows the clicked point.

## Behaviour kept from the code

- A missing cell prints as `nan` in tooltips and in the detail summary, as a Python f-string prints NaN (`api/app.py:74`, `api/app.py:102`).
- An index past the end, or an empty `points` list, raises in the code (`api/app.py:97-99`). `ShowTrackDetails` requires an existing point (see below).
- The audio player appears when the preview cell is not NaN (`pd.notna`, `api/app.py:104`). The code does not test whether the URL is empty.
- The option lists drop only null values (`dropna()`, `api/app.py:34`, `api/app.py:41`).
- The dropdown values are sorted by code point, as Python's `sorted` does, and case matters.
- The genre accent is computed (`api/app.py:62`) but never drawn. Every marker border is `#FFD700` (`api/app.py:71`).

## Left out

- Loading the CSV over the network (`api/app.py:8`) is I/O. The dataset is a given, already-normalised `seq<Event>`.
- The Dash app, its layout, its styling and the callback registration (`api/app.py:24-54`, `api/app.py:90-93`) are framework wiring. The callbacks are plain functions.
- Plotly figure construction and layout options (`api/app.py:63-64`, `api/app.py:67-72`, `api/app.py:75-88`) belong to a foreign rendering library. Only the data arrays fed to the trace are modelled (`Trace`).
- Server start and port configuration (`api/app.py:108-110`) are process and network plumbing.
- `test_app.py` only checks that the downloaded CSV has some columns. It holds no logic.
- GenreFilterSpec: `str.contains` treats its argument as a regular expression; the model tests literal substring containment, so a genre selection with regex metacharacters (`.`, `+`, `(`, …) may match differently, or raise (`re.error` for a selection such as `"("` or `"c++"`).
- FormatDateRoundTrip: only the calendar date of `ts` is modelled: a day that exists in the Gregorian calendar, in the years 1000–9999, which cover every pandas timestamp. The x values of the trace therefore carry no time of day.
- ShowTrackDetails: requires a non-empty `points` list and an index within the dataset, because the code raises there (`api/app.py:97-99`). `pointIndex` is a `nat`, so Python's negative-index wrap of `iloc` is not modelled; chart point indices are never negative.
- ShowTrackDetails: the `"Track_preview_url" in row` column test is always true in the model, because every `Event` has the field.
- Track and artist are required strings. A NaN track or artist, which pandas would carry into the label as NaN, is not modelled.
- Only `clickData["points"][0]` is read, as in the code. Other points of a click are ignored.
