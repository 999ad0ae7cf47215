# Mood2Music, modelled in Dafny

Mood2Music turns a sentence about the user's mood into at most five songs,
each with a video when one is found. This project models its two decision components and proves
what they promise.

* **Mood formatting and the recommendation filter** (`logic.py`):
  * `detect_mood` formats the classifier's top label as glyph, space, label.
  * `recommend_songs`:
    * drops catalog rows with a missing descriptor;
    * chooses one of twelve threshold predicates by a first-match substring
      test of the mood string, in a fixed order;
    * returns either five distinct rows drawn at random or the whole filtered
      set, projected to `name` and `artists`.
* **The page glue and video selection** (`app.py`):
  * the mood-label split of the detected mood;
  * the per-song query;
  * the search string;
  * `get_youtube_video_id`. It runs three full scans over the provider's
    results (official or channel match, aesthetic match, any clean title).
    Each test excludes titles that contain `cover`, `live`, `shorts` or
    `#shorts`, and any failure yields no video.

Files:

* `wrappers.dfy` holds `Option`.
* `strings.dfy` holds the string operations both files need:
  * Python's substring test `p in s`, with the lemma that the empty string
    occurs in every string;
  * ASCII `lower()`;
  * the search for the first space.
* `logic.dfy` models `logic.py`. It is pure, except for the random sample,
  which is a method with a nondeterministic choice of five distinct row
  positions.
* `app.dfy` models `app.py`. `get_youtube_video_id` is a method with the
  three early-returning loops of the source. It is proved equal to a
  specification function `SelectVideo`, and its properties are proved about
  that function.

The classifier is an input: its ranked label list. The catalog is an input:
a sequence of rows whose descriptors are `Option<real>`, where `None` stands
for pandas' NaN. The video search is an input as well: a function from the
search string to a response that is an error, a response without `items`,
or the list of items.

Three behaviours of the code are easy to misread:

* The predicate is chosen by substring containment in declaration order
  (logic.py:50-73), not by exact lookup of the label. So "Sadness" selects
  the Sad branch, and "HappySad" selects Happy. `SelectBranchIsFirstMatch`
  states this behaviour. `LabelSelectsOwnBranch` proves that each of the
  twelve candidate labels still reaches its own branch.
* The label passed on to the recommender is everything after the first
  space of the detected mood (app.py:113). `MoodLabelRecoversLabel` proves
  that this gives back the classifier's top label, because no glyph
  contains a space.
* Mood detection has no keyword-override tier: the classifier's top label
  is used as is (logic.py:38-40).

## Model

| member | source | states |
|---|---|---|
| Strings.Contains | logic.py:50 | Python's `p in s` on strings: `p` occurs at some position of `s`; the test of every branch of the chain and of `channel in query_lower` (app.py:32) |
| Strings.EmptyOccursEverywhere | app.py:32 | `"" in s` holds for every string `s`, so an empty channel name always passes the channel test |
| Strings.ContainsAny | app.py:32-33 | `any(w in title for w in words)`: some word of the list occurs in the string; used for the keyword and exclusion tests of all three loops |
| Strings.Lower | app.py:30 | `str.lower()` keeps the length and folds each ASCII capital to its lowercase letter; every other character is unchanged |
| Strings.LowerConcat | app.py:26 | lowercasing distributes over concatenation, so the lowercased query is built from the lowercased song name and artist |
| Strings.IndexOf | app.py:113 | `None` exactly when there is no such character; otherwise the position of the first occurrence |
| Logic.EmojiHasNoSpace | logic.py:29-34 | no glyph of the table, and not the empty default, contains a space |
| Logic.DetectMood | logic.py:39-40 | there is a result exactly when the classifier ranked some label; it starts with the glyph of the top label (the empty string for a label not in the table), its first space comes straight after that glyph, and the rest is the label |
| Logic.EmojiFor | logic.py:40 | `EMOJI.get(mood, '')`: the table's glyph for a known label, the empty string otherwise; `EmojiHasNoSpace` states what the label split needs of it |
| Logic.SelectBranch | logic.py:50-75 | the twelve-way if/elif chain over substring tests, ending in the identity branch; its meaning is stated by `SelectBranchIsFirstMatch` and `LabelSelectsOwnBranch` |
| Logic.Above | logic.py:51 | `x > c` on a descriptor; false on a missing value, as a comparison with NaN is |
| Logic.Below | logic.py:53 | `x < c` on a descriptor; false on a missing value, as a comparison with NaN is |
| Logic.Between | logic.py:45-46 | `between(lo, hi, inclusive="both")`; false on a missing value and on an empty range |
| Logic.Fits | logic.py:51-73 | the twelve threshold masks with the constants of the source, and the identity mask of the `else` branch; used by `Filtered`, `NeutralBoundsAreInclusive` and `GymTempoIsStrict` |
| Logic.Complete | logic.py:48 | the row survives `dropna` on the four descriptors: all four are present; used by `Filtered` and `FilteredRowIsMatch` |
| Logic.ToSong | logic.py:78 | the projection of one row to `name` and `artists` |
| Logic.Project | logic.py:78 | `frame[["name", "artists"]]`: the projection of every row, in order; used by `RecommendSongs` |
| Logic.FirstContained | logic.py:50-75 | the branch index found lies in the scanned range |
| Logic.FirstContainedIsFirst | logic.py:50-75 | the scan finds nothing exactly when no label from the start position on occurs in the mood; otherwise it finds a label that occurs, and no earlier label occurs |
| Logic.SelectBranchIsFirstMatch | logic.py:50-75 | the if/elif chain selects the branch of the first candidate label that occurs in the mood as a substring, and the identity branch when none occurs |
| Logic.LabelsHaveOneCapital | logic.py:23-27 | each candidate label has at least two letters, and its only capital is its first letter |
| Logic.LabelsDifferEarly | logic.py:23-27 | two different candidate labels already differ in their first two letters |
| Logic.LabelOmitsEarlierLabels | logic.py:23-27 | no candidate label contains a label declared before it |
| Logic.LabelSelectsOwnBranch | logic.py:50-75 | each of the twelve labels, given as the mood, selects its own branch |
| Logic.Where | logic.py:51 | boolean-mask selection keeps each row the mask accepts exactly as often as the frame has it, drops every other row, and never grows the frame |
| Logic.WhereAll | logic.py:75 | a mask that accepts every row returns the frame unchanged |
| Logic.Filtered | logic.py:48-75 | the filtered frame holds exactly the complete rows that satisfy the selected branch's thresholds, with their catalog multiplicity |
| Logic.UnfilteredKeepsComplete | logic.py:74-75 | the `else` branch returns exactly the rows that `dropna` kept, in order |
| Logic.NoLabelKeepsAllComplete | logic.py:74-75 | a mood naming no candidate label gets the identity filter, which returns all complete rows |
| Logic.NeutralBoundsAreInclusive | logic.py:54-55 | `between` is inclusive: Neutral accepts a valence of exactly 0.40 or 0.60 |
| Logic.GymTempoIsStrict | logic.py:62-63 | `>` is strict: Gym rejects a tempo of exactly 120 |
| Logic.Mask | logic.py:51-73 | the boolean mask `df[...]` of a branch, as a function on rows: true exactly where `Fits` holds |
| Logic.DistinctPositions | logic.py:77 | the positions drawn by `sample` are row positions of the frame and pairwise distinct: no replacement |
| Logic.ProjectAt | logic.py:77-78 | the drawn rows, in drawing order, projected to `name` and `artists` |
| Logic.IsSampleOf | logic.py:77 | what `filtered.sample(n=5)` may return, projected: five rows at five distinct positions of the frame, in some order |
| Logic.SampleSongs | logic.py:77 | `sample(n=5)` yields exactly five projected rows, at five distinct positions of the frame |
| Logic.RecommendSongs | logic.py:77-78 | at most five songs. From at least five matching rows: exactly five distinct ones, drawn without replacement. Otherwise: the whole filtered frame, projected, in order, with no padding and no duplication |
| Logic.FilteredRowIsMatch | logic.py:48 | a row of the filtered frame is a catalog row with all four descriptors that satisfies the branch predicate |
| Logic.RecommendationIsSound | logic.py:48-78 | every recommended song is the projection of a complete catalog row satisfying the selected branch's predicate |
| App.TrackQuery | app.py:128 | the query for a song: its name, one space, its artist; `TrackQuerySplitsAtName` reads the parts back |
| App.TrackQuerySplitsAtName | app.py:128 | the query is the name, a space, then the artist; when the name has no space, the query's first space is the one after the name |
| App.SearchQuery | app.py:15 | the query followed by the fixed suffix; `SearchQueryExtendsQuery` states its shape |
| App.MoodLabel | app.py:113 | the result is a suffix of the detected mood: the whole string when it has no space, otherwise what follows its first space |
| App.Clean | app.py:33 | no exclusion term occurs in the lowercased title; see `AliveIsNotClean` and `HashShortsIsRedundant` |
| App.Accepts | app.py:30-46 | the test of each of the three loops on one item, with the clean-title condition in every tier |
| App.SelectVideo | app.py:25-51 | `None` on a failed call or a missing `items`; otherwise the first item accepted by tier 1, else tier 2, else tier 3, else `None`; characterised by `OfficialMatchWins`, `AestheticMatchWins`, `AnyCleanMatchWins`, `NoVideoIff` and `SelectedVideoIsClean` |
| App.FirstAccepted | app.py:29-47 | the scan of one tier finds nothing exactly when no item passes that tier's test; otherwise it finds an item that passes it, and no earlier item passes it |
| App.ScanTier | app.py:29-34 | the id returned by one tier's loop: that of the first item the tier accepts, or nothing when the loop runs to its end (likewise app.py:37-41 and app.py:44-47) |
| App.ScanTierFinds | app.py:29-47 | a tier returns the id of the first item that passes its test |
| App.ScanTierMisses | app.py:29-47 | a tier in which no item passes returns nothing, so control falls through to the next tier |
| App.GetYoutubeVideoId | app.py:9-51 | the three early-returning loops compute `SelectVideo` of the provider's answer to the search string built from the query |
| App.SelectedVideoIsClean | app.py:29-47 | a returned id belongs to an item of the response whose lowercased title contains no exclusion term |
| App.OfficialMatchWins | app.py:29-34 | tier 1 returns the first item in provider order that has a clean title and either an official keyword in its title or a lowercased channel name occurring in the lowercased query |
| App.AestheticMatchWins | app.py:37-41 | when no item passes tier 1, the first clean item with an aesthetic keyword is returned |
| App.AnyCleanMatchWins | app.py:44-47 | when no item passes tiers 1 or 2, the first item with a clean title is returned |
| App.NoVideoIff | app.py:25-51 | no video exactly when the call failed, the response has no `items`, or no title is clean (which covers an empty list) |
| App.AliveIsNotClean | app.py:11 | exclusion terms match as substrings: a title "Alive" is excluded |
| App.HashShortsIsRedundant | app.py:11 | a title is clean exactly when it avoids `cover`, `live` and `shorts`: `#shorts` excludes nothing more |
| App.EmptyChannelPassesTierOne | app.py:31-33 | an empty channel name occurs in every query, so a clean item with one is accepted at tier 1 |
| App.ArtistChannelPassesTierOne | app.py:128 | for the query of a recommended song, a clean upload whose channel name equals the artist up to ASCII case passes tier 1 |
| App.SearchQueryExtendsQuery | app.py:15 | the search string is the query unchanged, followed by the fixed qualifier suffix, and so contains the query |
| App.MoodLabelRecoversLabel | app.py:113 | stripping the detected mood recovers the classifier's top label, whatever it is, because no glyph contains a space |
| App.DetectedMoodSelectsItsBranch | app.py:105-116 | when the classifier ranks a candidate label first, the label the page passes on selects that label's branch |

## Left out

- The Streamlit page: configuration, CSS, widgets, messages and HTML cards (app.py:53-148, apart from lines 113 and 128). This is presentation only.
- The blank-input check (app.py:101) and the `if video_id:` test (app.py:131) that decides whether a card is rendered. Both belong to the page. The model returns the id as found, even an empty one.
- The YouTube client and the request (app.py:6-7, 16-23). The provider is a parameter. The request options `maxResults=10`, `type="video"` and `videoEmbeddable` are honoured by the provider, not the code, so the model does not bound the number of items.
- `st.error` (app.py:50) is logging only. An exception during the call is the `Failed` response.
- Malformed items, where a missing `snippet` or `id` key raises and also yields no video, are not modelled: an item is a record that always has its three fields.
- The zero-shot classifier (logic.py:16-20, 38) is a foreign model. Its ranked label list is the input of `DetectMood`.
- DetectMood: Python raises on an empty label list, and the model returns `None` instead. The page then stops, which `Option` stands for.
- Loading the catalog (logic.py:5-13) is file I/O plus pandas' coercion. The catalog is a given sequence of rows with optional descriptors.
- SampleSongs: the random generator of `DataFrame.sample` is a nondeterministic choice. The model leaves the distribution, which is uniform in pandas, unstated.
- Floating point: descriptors are `real`. Only strict and inclusive comparisons against decimal constants occur.
- Lower: only ASCII letters are folded. Python's `str.lower()` also folds other Unicode capitals.
- The glyph strings of the emoji table are kept exactly as the code points the source file holds, which are UTF-8 bytes shown as Windows-1252 text. Only their lack of a space matters to the model.
- Mood detection has no keyword-override tier in this code, so the model has none.
