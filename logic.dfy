/** Mood detection output and mood-to-track recommendation (logic.py).

    The catalog is a sequence of rows; a descriptor that is absent or that
    failed numeric coercion is `None`, the model of pandas' NaN. As with NaN,
    every comparison against a missing descriptor is false. */
module Logic {

  import opened Wrappers
  import opened Strings

  // ---------------------------------------------------------------------
  // Data model
  // ---------------------------------------------------------------------

  /** One catalog row. */
  datatype Track = Track(
    name: string,
    artists: string,
    valence: Option<real>,
    energy: Option<real>,
    tempo: Option<real>,
    danceability: Option<real>)

  /** A row of the returned frame: only `name` and `artists` are kept. */
  datatype Song = Song(name: string, artists: string)

  /** The candidate labels handed to the classifier, in declaration order;
      the if/elif chain of `recommend_songs` tests them in the same order. */
  const CandidateMoods: seq<string> := [
    "Happy", "Sad", "Neutral", "Angry", "Romantic",
    "Chill", "Gym", "Party", "Motivational",
    "Melancholic", "Confident", "Peaceful"
  ]

  /** The branches of the if/elif chain: one per candidate mood, and the
      final `else`, which keeps every row. */
  datatype Branch =
    | Happy | Sad | Neutral | Angry | Romantic | Chill | Gym | Party
    | Motivational | Melancholic | Confident | Peaceful
    | Unfiltered

  /** `Branches[i]` is the branch guarded by `CandidateMoods[i]`. */
  const Branches: seq<Branch> := [
    Happy, Sad, Neutral, Angry, Romantic,
    Chill, Gym, Party, Motivational,
    Melancholic, Confident, Peaceful
  ]

  /** Most rows `recommend_songs` returns. */
  const SampleSize: nat := 5

  /** The display glyphs, keyed by label. The file stores them as UTF-8
      bytes read back as Windows-1252 text; these are the code points as
      written there. */
  const Emoji: map<string, string> := map[
    "Happy" := "\U{F0}\U{178}\U{2DC}\U{201E}",
    "Sad" := "\U{F0}\U{178}\U{2DC}\U{A2}",
    "Neutral" := "\U{F0}\U{178}\U{2DC}",
    "Angry" := "\U{F0}\U{178}\U{2DC}\U{A1}",
    "Romantic" := "\U{E2}\U{A4}\U{EF}\U{B8}",
    "Chill" := "\U{F0}\U{178}\U{2DC}\U{152}",
    "Gym" := "\U{F0}\U{178}\U{2019}\U{AA}",
    "Party" := "\U{F0}\U{178}\U{17D}\U{2030}",
    "Motivational" := "\U{E2}\U{161}\U{A1}",
    "Melancholic" := "\U{F0}\U{178}\U{152}\U{A7}",
    "Confident" := "\U{F0}\U{178}\U{2DC}\U{17D}",
    "Peaceful" := "\U{F0}\U{178}\U{152}\U{2026}"
  ]

  // ---------------------------------------------------------------------
  // detect_mood: formatting of the classifier's answer
  // ---------------------------------------------------------------------

  /** `EMOJI.get(mood, '')`. */
  function EmojiFor(mood: string): string {
    if mood in Emoji then Emoji[mood] else ""
  }

  /** No glyph contains a space, known or defaulted. */
  lemma EmojiHasNoSpace(mood: string)
    ensures forall i :: 0 <= i < |EmojiFor(mood)| ==> EmojiFor(mood)[i] != ' '
  {
  }

  /** The answer of `detect_mood`, given the classifier's ranked labels:
      the glyph of the top label, one space, the label. An empty ranking
      makes `result["labels"][0]` raise; that is `None` here. */
  function DetectMood(ranked: seq<string>): (r: Option<string>)
    ensures r.None? <==> ranked == []
    ensures r.Some? ==> var e := EmojiFor(ranked[0]);
      && |r.value| == |e| + 1 + |ranked[0]|
      && r.value[..|e|] == e
      && IndexOf(r.value, ' ') == Some(|e|)
      && r.value[|e| + 1..] == ranked[0]
  {
    if ranked == [] then None
    else
      var mood := ranked[0];
      var e := EmojiFor(mood);
      EmojiHasNoSpace(mood);
      IndexOfAfter(e, ' ', mood);
      assert (e + " " + mood)[..|e|] == e;
      assert (e + " " + mood)[|e| + 1..] == mood;
      Some(e + " " + mood)
  }

  // ---------------------------------------------------------------------
  // recommend_songs: choosing the branch
  // ---------------------------------------------------------------------

  /** The position of the first name in `names[from..]` that occurs in
      `mood`: a first-match scan in list order. */
  function FirstContained(mood: string, names: seq<string>, from: nat): (r: Option<nat>)
    requires from <= |names|
    ensures r.Some? ==> from <= r.value < |names|
    decreases |names| - from
  {
    if from == |names| then None
    else if Contains(mood, names[from]) then Some(from)
    else FirstContained(mood, names, from + 1)
  }

  /** The scan finds the earliest name that occurs, and finds nothing only
      when no name occurs. */
  lemma {:induction false} FirstContainedIsFirst(mood: string, names: seq<string>, from: nat)
    requires from <= |names|
    ensures var r := FirstContained(mood, names, from);
      && (r.None? <==> forall j :: from <= j < |names| ==> !Contains(mood, names[j]))
      && (r.Some? ==> from <= r.value < |names| && Contains(mood, names[r.value])
                      && forall j :: from <= j < r.value ==> !Contains(mood, names[j]))
    decreases |names| - from
  {
    if from < |names| && !Contains(mood, names[from]) {
      FirstContainedIsFirst(mood, names, from + 1);
    }
  }

  /** The if/elif chain of `recommend_songs`: the branch of the first mood
      name contained in `mood`, as a case-sensitive substring. */
  function SelectBranch(mood: string): Branch {
    if Contains(mood, "Happy") then Happy
    else if Contains(mood, "Sad") then Sad
    else if Contains(mood, "Neutral") then Neutral
    else if Contains(mood, "Angry") then Angry
    else if Contains(mood, "Romantic") then Romantic
    else if Contains(mood, "Chill") then Chill
    else if Contains(mood, "Gym") then Gym
    else if Contains(mood, "Party") then Party
    else if Contains(mood, "Motivational") then Motivational
    else if Contains(mood, "Melancholic") then Melancholic
    else if Contains(mood, "Confident") then Confident
    else if Contains(mood, "Peaceful") then Peaceful
    else Unfiltered
  }

  /** The chain is the first-match scan over `CandidateMoods`: the branch of
      the earliest listed name that `mood` contains, or the identity filter
      when it contains none. */
  lemma SelectBranchIsFirstMatch(mood: string)
    ensures SelectBranch(mood) ==
      match FirstContained(mood, CandidateMoods, 0)
      case None => Unfiltered
      case Some(k) => Branches[k]
  {
    var m := CandidateMoods;
    if Contains(mood, "Happy") {
      assert FirstContained(mood, m, 0) == Some(0);
    } else {
      assert FirstContained(mood, m, 0) == FirstContained(mood, m, 1);
      if Contains(mood, "Sad") {
        assert FirstContained(mood, m, 1) == Some(1);
      } else {
        assert FirstContained(mood, m, 1) == FirstContained(mood, m, 2);
        if Contains(mood, "Neutral") {
          assert FirstContained(mood, m, 2) == Some(2);
        } else {
          assert FirstContained(mood, m, 2) == FirstContained(mood, m, 3);
          if Contains(mood, "Angry") {
            assert FirstContained(mood, m, 3) == Some(3);
          } else {
            assert FirstContained(mood, m, 3) == FirstContained(mood, m, 4);
            if Contains(mood, "Romantic") {
              assert FirstContained(mood, m, 4) == Some(4);
            } else {
              assert FirstContained(mood, m, 4) == FirstContained(mood, m, 5);
              if Contains(mood, "Chill") {
                assert FirstContained(mood, m, 5) == Some(5);
              } else {
                assert FirstContained(mood, m, 5) == FirstContained(mood, m, 6);
                if Contains(mood, "Gym") {
                  assert FirstContained(mood, m, 6) == Some(6);
                } else {
                  assert FirstContained(mood, m, 6) == FirstContained(mood, m, 7);
                  if Contains(mood, "Party") {
                    assert FirstContained(mood, m, 7) == Some(7);
                  } else {
                    assert FirstContained(mood, m, 7) == FirstContained(mood, m, 8);
                    if Contains(mood, "Motivational") {
                      assert FirstContained(mood, m, 8) == Some(8);
                    } else {
                      assert FirstContained(mood, m, 8) == FirstContained(mood, m, 9);
                      if Contains(mood, "Melancholic") {
                        assert FirstContained(mood, m, 9) == Some(9);
                      } else {
                        assert FirstContained(mood, m, 9) == FirstContained(mood, m, 10);
                        if Contains(mood, "Confident") {
                          assert FirstContained(mood, m, 10) == Some(10);
                        } else {
                          assert FirstContained(mood, m, 10) == FirstContained(mood, m, 11);
                          if Contains(mood, "Peaceful") {
                            assert FirstContained(mood, m, 11) == Some(11);
                          } else {
                            assert FirstContained(mood, m, 11) == FirstContained(mood, m, 12);
                            assert FirstContained(mood, m, 12) == None;
                          }
                        }
                      }
                    }
                  }
                }
              }
            }
          }
        }
      }
    }
  }

  /** Each candidate label is capitalised and has no other capital. */
  lemma LabelsHaveOneCapital(k: nat)
    requires k < |CandidateMoods|
    ensures |CandidateMoods[k]| > 1 && IsUpper(CandidateMoods[k][0])
    ensures forall i :: 1 <= i < |CandidateMoods[k]| ==> !IsUpper(CandidateMoods[k][i])
  {
  }

  /** Two candidate labels already differ in their first two characters. */
  lemma LabelsDifferEarly(j: nat, k: nat)
    requires j < k < |CandidateMoods|
    ensures CandidateMoods[j][0] != CandidateMoods[k][0]
            || CandidateMoods[j][1] != CandidateMoods[k][1]
  {
  }

  /** No candidate label contains an earlier one. */
  lemma LabelOmitsEarlierLabels(j: nat, k: nat)
    requires j < k < |CandidateMoods|
    ensures !Contains(CandidateMoods[k], CandidateMoods[j])
  {
    LabelsHaveOneCapital(j);
    LabelsHaveOneCapital(k);
    LabelsDifferEarly(j, k);
    CapitalPatternIsPrefix(CandidateMoods[k], CandidateMoods[j]);
  }

  /** The chain is an exact lookup on the classifier's own labels: each
      label selects its own branch. */
  lemma LabelSelectsOwnBranch(k: nat)
    requires k < |CandidateMoods|
    ensures SelectBranch(CandidateMoods[k]) == Branches[k]
  {
    var name := CandidateMoods[k];
    forall j | 0 <= j < k ensures !Contains(name, CandidateMoods[j]) {
      LabelOmitsEarlierLabels(j, k);
    }
    ContainsSelf(name);
    FirstContainedIsFirst(name, CandidateMoods, 0);
    assert FirstContained(name, CandidateMoods, 0) == Some(k);
    SelectBranchIsFirstMatch(name);
  }

  // ---------------------------------------------------------------------
  // recommend_songs: the per-branch predicates
  // ---------------------------------------------------------------------

  /** `x > c`, false on a missing value. */
  predicate Above(x: Option<real>, c: real): (r: bool)
    ensures x.None? ==> !r
  {
    x.Some? && x.value > c
  }

  /** `x < c`, false on a missing value. */
  predicate Below(x: Option<real>, c: real): (r: bool)
    ensures x.None? ==> !r
  {
    x.Some? && x.value < c
  }

  /** `between(x, lo, hi)`: `Series.between(lo, hi, inclusive="both")`. */
  predicate Between(x: Option<real>, lo: real, hi: real): (r: bool)
    ensures x.None? ==> !r
    ensures hi < lo ==> !r
  {
    x.Some? && lo <= x.value <= hi
  }

  /** The boolean mask of each branch, on one row. */
  predicate Fits(b: Branch, t: Track) {
    match b
    case Happy => Above(t.valence, 0.75) && Above(t.energy, 0.60)
    case Sad => Below(t.valence, 0.35) && Below(t.energy, 0.50)
    case Neutral => Between(t.valence, 0.40, 0.60) && Between(t.energy, 0.40, 0.60)
    case Angry => Above(t.energy, 0.85) && Below(t.valence, 0.40)
    case Romantic =>
      Above(t.valence, 0.65) && Above(t.danceability, 0.55) && Below(t.energy, 0.70)
    case Chill =>
      Below(t.energy, 0.45) && Above(t.valence, 0.40) && Between(t.tempo, 60.0, 100.0)
    case Gym => Above(t.energy, 0.85) && Above(t.tempo, 120.0)
    case Party =>
      Above(t.danceability, 0.75) && Above(t.energy, 0.75) && Above(t.tempo, 110.0)
    case Motivational =>
      Above(t.valence, 0.65) && Above(t.energy, 0.65) && Above(t.tempo, 100.0)
    case Melancholic =>
      Below(t.valence, 0.45) && Between(t.energy, 0.30, 0.60) && Between(t.tempo, 60.0, 110.0)
    case Confident =>
      Above(t.energy, 0.70) && Above(t.valence, 0.50) && Above(t.danceability, 0.60)
      && Above(t.tempo, 100.0)
    case Peaceful =>
      Below(t.energy, 0.40) && Between(t.valence, 0.50, 0.80) && Between(t.tempo, 60.0, 90.0)
    case Unfiltered => true
  }

  /** All four descriptors are present: the row survives `dropna`. */
  predicate Complete(t: Track) {
    t.valence.Some? && t.energy.Some? && t.tempo.Some? && t.danceability.Some?
  }

  // ---------------------------------------------------------------------
  // recommend_songs: filtering the frame
  // ---------------------------------------------------------------------

  /** Boolean-mask selection `df[mask]`: the rows for which `keep` holds,
      in order, each as often as it occurs. */
  function Where(rows: seq<Track>, keep: Track -> bool): (r: seq<Track>)
    ensures |r| <= |rows|
    ensures forall t :: multiset(r)[t] == if keep(t) then multiset(rows)[t] else 0
  {
    if rows == [] then []
    else
      assert rows == [rows[0]] + rows[1..];
      (if keep(rows[0]) then [rows[0]] else []) + Where(rows[1..], keep)
  }

  /** Selecting with a mask that is true everywhere is the identity. */
  lemma {:induction false} WhereAll(rows: seq<Track>, keep: Track -> bool)
    requires forall t :: keep(t)
    ensures Where(rows, keep) == rows
  {
    if rows != [] {
      WhereAll(rows[1..], keep);
    }
  }

  /** The boolean mask of branch `b`, as a function on rows. */
  function Mask(b: Branch): Track -> bool {
    t => Fits(b, t)
  }

  /** The frame `filtered`: `dropna` on the four descriptors, then the mask of
      branch `b`. It holds exactly the complete rows that fit `b`, each as
      often as the catalog does. */
  function Filtered(b: Branch, catalog: seq<Track>): (r: seq<Track>)
    ensures |r| <= |catalog|
    ensures forall t ::
      multiset(r)[t] == (if Complete(t) && Fits(b, t) then multiset(catalog)[t] else 0)
  {
    Where(Where(catalog, Complete), Mask(b))
  }

  /** The `else` branch keeps exactly what `dropna` kept. */
  lemma UnfilteredKeepsComplete(catalog: seq<Track>)
    ensures Filtered(Unfiltered, catalog) == Where(catalog, Complete)
  {
    var complete := Where(catalog, Complete);
    assert forall t :: Mask(Unfiltered)(t);
    WhereAll(complete, Mask(Unfiltered));
  }

  // ---------------------------------------------------------------------
  // recommend_songs: sample or all, then projection
  // ---------------------------------------------------------------------

  /** `frame[["name", "artists"]]` on one row. */
  function ToSong(t: Track): Song {
    Song(t.name, t.artists)
  }

  /** `frame[["name", "artists"]]`. */
  function Project(rows: seq<Track>): seq<Song> {
    seq(|rows|, k requires 0 <= k < |rows| => ToSong(rows[k]))
  }

  /** `picks` are distinct row positions of a frame with `n` rows. */
  predicate DistinctPositions(picks: seq<nat>, n: nat) {
    && (forall k :: 0 <= k < |picks| ==> picks[k] < n)
    && (forall k, l :: 0 <= k < l < |picks| ==> picks[k] != picks[l])
  }

  /** The projected rows at `picks`, in the order drawn. */
  function ProjectAt(rows: seq<Track>, picks: seq<nat>): seq<Song>
    requires DistinctPositions(picks, |rows|)
  {
    seq(|picks|, k requires 0 <= k < |picks| => ToSong(rows[picks[k]]))
  }

  /** `songs` is a draw of `SampleSize` rows of `rows` without replacement,
      in some order, projected. */
  ghost predicate IsSampleOf(songs: seq<Song>, rows: seq<Track>) {
    exists picks :: |picks| == SampleSize && DistinctPositions(picks, |rows|)
                    && songs == ProjectAt(rows, picks)
  }

  /** `rows.sample(n=5)` followed by the projection: a nondeterministic
      choice of five distinct rows. pandas raises when there are fewer rows,
      which the guard in `recommend_songs` rules out. */
  method SampleSongs(rows: seq<Track>) returns (songs: seq<Song>)
    requires |rows| >= SampleSize
    ensures |songs| == SampleSize && IsSampleOf(songs, rows)
  {
    assert DistinctPositions([0, 1, 2, 3, 4], |rows|);
    var picks: seq<nat> :| |picks| == SampleSize && DistinctPositions(picks, |rows|);
    songs := ProjectAt(rows, picks);
    assert IsSampleOf(songs, rows);
  }

  /** `recommend_songs(mood)` on the given catalog: five distinct matching
      rows drawn at random when there are at least five, otherwise all of
      them in catalog order. */
  method RecommendSongs(mood: string, catalog: seq<Track>) returns (songs: seq<Song>)
    ensures |songs| <= SampleSize
    ensures var f := Filtered(SelectBranch(mood), catalog);
      if |f| >= SampleSize then |songs| == SampleSize && IsSampleOf(songs, f)
      else songs == Project(f)
  {
    var filtered := Filtered(SelectBranch(mood), catalog);
    if |filtered| >= SampleSize {
      songs := SampleSongs(filtered);
    } else {
      songs := Project(filtered);
    }
  }

  // ---------------------------------------------------------------------
  // Properties of the recommendation
  // ---------------------------------------------------------------------

  /** A row of the filtered frame is a complete catalog row that fits `b`. */
  lemma FilteredRowIsMatch(b: Branch, catalog: seq<Track>, t: Track)
    requires t in Filtered(b, catalog)
    ensures t in catalog && Complete(t) && Fits(b, t)
  {
    assert multiset(Filtered(b, catalog))[t] > 0;
  }

  /** Every recommended song is the projection of a complete catalog row that
      fits the branch `b` chosen for the mood: no row with a missing
      descriptor and no row outside the branch's predicate is ever returned.
      The requirement is what `RecommendSongs` ensures, with
      `b == SelectBranch(mood)`. */
  lemma RecommendationIsSound(b: Branch, catalog: seq<Track>, songs: seq<Song>)
    requires var f := Filtered(b, catalog);
      if |f| >= SampleSize then IsSampleOf(songs, f) else songs == Project(f)
    ensures forall k :: 0 <= k < |songs| ==>
      exists t :: t in catalog && Complete(t) && Fits(b, t) && songs[k] == ToSong(t)
  {
    var f := Filtered(b, catalog);
    forall k | 0 <= k < |songs|
      ensures exists t :: t in catalog && Complete(t) && Fits(b, t) && songs[k] == ToSong(t)
    {
      var t: Track;
      if |f| >= SampleSize {
        var picks :| |picks| == SampleSize && DistinctPositions(picks, |f|)
                     && songs == ProjectAt(f, picks);
        t := f[picks[k]];
        assert songs[k] == ToSong(t);
      } else {
        t := f[k];
        assert songs[k] == ToSong(t);
      }
      FilteredRowIsMatch(b, catalog, t);
    }
  }

  /** A mood string naming no candidate label selects the `else` branch,
      which returns every complete row. */
  lemma NoLabelKeepsAllComplete(mood: string, catalog: seq<Track>)
    requires forall k :: 0 <= k < |CandidateMoods| ==> !Contains(mood, CandidateMoods[k])
    ensures SelectBranch(mood) == Unfiltered
    ensures Filtered(SelectBranch(mood), catalog) == Where(catalog, Complete)
  {
    FirstContainedIsFirst(mood, CandidateMoods, 0);
    SelectBranchIsFirstMatch(mood);
    UnfilteredKeepsComplete(catalog);
  }

  /** `between` includes both ends: Neutral accepts a valence of exactly 0.40
      or 0.60. */
  lemma NeutralBoundsAreInclusive(t: Track)
    requires t.valence == Some(0.40) || t.valence == Some(0.60)
    requires Between(t.energy, 0.40, 0.60)
    ensures Fits(Neutral, t)
  {
  }

  /** The `>` tests are strict: Gym rejects a tempo of exactly 120. */
  lemma GymTempoIsStrict(t: Track)
    requires t.tempo == Some(120.0)
    ensures !Fits(Gym, t)
  {
  }

}
