/** Video selection and the glue between mood detection and recommendation
    (app.py). The search provider is a parameter: it maps a search string to
    the response the call produced. */
module App {

  import opened Wrappers
  import opened Strings
  import opened Logic

  // ---------------------------------------------------------------------
  // Data model
  // ---------------------------------------------------------------------

  /** One result: `snippet.title`, `snippet.channelTitle`, `id.videoId`. */
  datatype Item = Item(title: string, channelTitle: string, videoId: string)

  /** The outcome of the search call: it raised, the response has no
      `items` key, or the list of items in provider order. */
  datatype Response = Failed | NoItems | Items(items: seq<Item>)

  /** Title words that disqualify a video. */
  const Avoid: seq<string> := ["cover", "live", "shorts", "#shorts"]

  /** Title words of an official upload. */
  const OfficialKeywords: seq<string> := ["official", "lyrics", "lyrical"]

  /** Title words of an aesthetic re-edit. */
  const AestheticKeywords: seq<string> := ["lofi", "slowed", "reverb"]

  /** The fixed tail of every search string. */
  const Qualifiers: string := " official OR lyrics OR lyrical OR slowed OR reverb OR lofi"

  // ---------------------------------------------------------------------
  // Strings built and taken apart by the page
  // ---------------------------------------------------------------------

  /** The query for one recommended song: `f"{song_name} {artist}"`. */
  function TrackQuery(name: string, artist: string): string {
    name + " " + artist
  }

  /** The song name and the artist can be read back from the query; when
      the name has no space, the first space of the query separates them. */
  lemma TrackQuerySplitsAtName(name: string, artist: string)
    ensures var q := TrackQuery(name, artist);
      && |q| == |name| + 1 + |artist|
      && q[..|name|] == name && q[|name|] == ' ' && q[|name| + 1..] == artist
    ensures (forall i :: 0 <= i < |name| ==> name[i] != ' ') ==>
      IndexOf(TrackQuery(name, artist), ' ') == Some(|name|)
  {
    var q := TrackQuery(name, artist);
    assert q[..|name|] == name;
    assert q[|name| + 1..] == artist;
    if forall i :: 0 <= i < |name| ==> name[i] != ' ' {
      IndexOfAfter(name, ' ', artist);
    }
  }

  /** The string sent to the provider: the query, then the qualifiers. */
  function SearchQuery(query: string): string {
    query + Qualifiers
  }

  /** `s.split(" ", 1)[1] if " " in s else s`: the text after the first
      space, or the whole string when it has none. */
  function MoodLabel(detected: string): (r: string)
    ensures |r| <= |detected| && r == detected[|detected| - |r|..]
    ensures (forall i :: 0 <= i < |detected| ==> detected[i] != ' ') ==> r == detected
    ensures (exists i :: 0 <= i < |detected| && detected[i] == ' ') ==>
      |r| < |detected| && detected[|detected| - |r| - 1] == ' '
      && forall i :: 0 <= i < |detected| - |r| - 1 ==> detected[i] != ' '
  {
    match IndexOf(detected, ' ')
    case None => detected
    case Some(i) => detected[i + 1..]
  }

  // ---------------------------------------------------------------------
  // The three tiers
  // ---------------------------------------------------------------------

  /** No exclusion term occurs in the lowercased title. */
  predicate Clean(title: string) {
    !ContainsAny(Lower(title), Avoid)
  }

  datatype Tier = OfficialTier | AestheticTier | AnyCleanTier

  /** The test each loop applies to an item; `queryLower` is the lowercased
      query. */
  predicate Accepts(tier: Tier, item: Item, queryLower: string) {
    match tier
    case OfficialTier =>
      (ContainsAny(Lower(item.title), OfficialKeywords)
       || Contains(queryLower, Lower(item.channelTitle)))
      && Clean(item.title)
    case AestheticTier =>
      ContainsAny(Lower(item.title), AestheticKeywords) && Clean(item.title)
    case AnyCleanTier =>
      Clean(item.title)
  }

  /** The position of the first item of `items[from..]` that `tier` accepts. */
  function FirstAccepted(items: seq<Item>, tier: Tier, queryLower: string, from: nat)
    : (r: Option<nat>)
    requires from <= |items|
    ensures r.None? <==> forall j :: from <= j < |items| ==> !Accepts(tier, items[j], queryLower)
    ensures r.Some? ==> from <= r.value < |items| && Accepts(tier, items[r.value], queryLower)
                        && forall j :: from <= j < r.value ==> !Accepts(tier, items[j], queryLower)
    decreases |items| - from
  {
    if from == |items| then None
    else if Accepts(tier, items[from], queryLower) then Some(from)
    else FirstAccepted(items, tier, queryLower, from + 1)
  }

  /** The id of the first item `tier` accepts, if any. */
  function ScanTier(items: seq<Item>, tier: Tier, queryLower: string): Option<string> {
    match FirstAccepted(items, tier, queryLower, 0)
    case None => None
    case Some(i) => Some(items[i].videoId)
  }

  /** The scan of a tier finds the item at `i` when it is the first accepted. */
  lemma ScanTierFinds(items: seq<Item>, tier: Tier, queryLower: string, i: nat)
    requires i < |items| && Accepts(tier, items[i], queryLower)
    requires forall j :: 0 <= j < i ==> !Accepts(tier, items[j], queryLower)
    ensures ScanTier(items, tier, queryLower) == Some(items[i].videoId)
  {
    var r := FirstAccepted(items, tier, queryLower, 0);
    assert r.Some? && r.value == i;
  }

  /** The scan of a tier finds nothing when no item is accepted. */
  lemma ScanTierMisses(items: seq<Item>, tier: Tier, queryLower: string)
    requires forall j :: 0 <= j < |items| ==> !Accepts(tier, items[j], queryLower)
    ensures ScanTier(items, tier, queryLower) == None
  {
  }

  /** What `get_youtube_video_id(query)` returns once the provider has
      answered: each tier scans the whole list before the next is tried. */
  function SelectVideo(response: Response, query: string): Option<string> {
    match response
    case Failed => None
    case NoItems => None
    case Items(items) =>
      var queryLower := Lower(query);
      match ScanTier(items, OfficialTier, queryLower)
      case Some(id) => Some(id)
      case None =>
        match ScanTier(items, AestheticTier, queryLower)
        case Some(id) => Some(id)
        case None => ScanTier(items, AnyCleanTier, queryLower)
  }

  /** `get_youtube_video_id(query)`, with the provider as `search`: three
      loops in provider order, each returning on its first match. */
  method GetYoutubeVideoId(query: string, search: string -> Response)
    returns (videoId: Option<string>)
    ensures videoId == SelectVideo(search(SearchQuery(query)), query)
  {
    var response := search(SearchQuery(query));
    if !response.Items? {
      return None;
    }
    var items := response.items;
    var queryLower := Lower(query);

    for i := 0 to |items|
      invariant forall j :: 0 <= j < i ==> !Accepts(OfficialTier, items[j], queryLower)
    {
      var title := Lower(items[i].title);
      var channel := Lower(items[i].channelTitle);
      if (ContainsAny(title, OfficialKeywords) || Contains(queryLower, channel))
         && !ContainsAny(title, Avoid)
      {
        ScanTierFinds(items, OfficialTier, queryLower, i);
        return Some(items[i].videoId);
      }
    }
    ScanTierMisses(items, OfficialTier, queryLower);

    for i := 0 to |items|
      invariant forall j :: 0 <= j < i ==> !Accepts(AestheticTier, items[j], queryLower)
    {
      var title := Lower(items[i].title);
      if ContainsAny(title, AestheticKeywords) && !ContainsAny(title, Avoid) {
        ScanTierFinds(items, AestheticTier, queryLower, i);
        return Some(items[i].videoId);
      }
    }
    ScanTierMisses(items, AestheticTier, queryLower);

    for i := 0 to |items|
      invariant forall j :: 0 <= j < i ==> !Accepts(AnyCleanTier, items[j], queryLower)
    {
      var title := Lower(items[i].title);
      if !ContainsAny(title, Avoid) {
        ScanTierFinds(items, AnyCleanTier, queryLower, i);
        return Some(items[i].videoId);
      }
    }
    ScanTierMisses(items, AnyCleanTier, queryLower);
    return None;
  }

  // ---------------------------------------------------------------------
  // Properties of the selection
  // ---------------------------------------------------------------------

  /** A selected id belongs to an item of the response with a clean title. */
  lemma SelectedVideoIsClean(response: Response, query: string, id: string)
    requires SelectVideo(response, query) == Some(id)
    ensures response.Items?
    ensures exists i :: 0 <= i < |response.items| && response.items[i].videoId == id
                        && Clean(response.items[i].title)
  {
    var items := response.items;
    var q := Lower(query);
    var k: nat;
    if FirstAccepted(items, OfficialTier, q, 0).Some? {
      k := FirstAccepted(items, OfficialTier, q, 0).value;
    } else if FirstAccepted(items, AestheticTier, q, 0).Some? {
      k := FirstAccepted(items, AestheticTier, q, 0).value;
    } else {
      k := FirstAccepted(items, AnyCleanTier, q, 0).value;
    }
    assert items[k].videoId == id && Clean(items[k].title);
  }

  /** Tier 1: the first item that is clean and official-looking, or whose
      channel name occurs in the query, wins. */
  lemma OfficialMatchWins(items: seq<Item>, query: string, i: nat)
    requires i < |items| && Accepts(OfficialTier, items[i], Lower(query))
    requires forall j :: 0 <= j < i ==> !Accepts(OfficialTier, items[j], Lower(query))
    ensures SelectVideo(Items(items), query) == Some(items[i].videoId)
  {
    ScanTierFinds(items, OfficialTier, Lower(query), i);
  }

  /** Tier 2 is reached only when no item passes tier 1; then the first clean
      aesthetic item wins. */
  lemma AestheticMatchWins(items: seq<Item>, query: string, i: nat)
    requires forall j :: 0 <= j < |items| ==> !Accepts(OfficialTier, items[j], Lower(query))
    requires i < |items| && Accepts(AestheticTier, items[i], Lower(query))
    requires forall j :: 0 <= j < i ==> !Accepts(AestheticTier, items[j], Lower(query))
    ensures SelectVideo(Items(items), query) == Some(items[i].videoId)
  {
    ScanTierMisses(items, OfficialTier, Lower(query));
    ScanTierFinds(items, AestheticTier, Lower(query), i);
  }

  /** Tier 3 is reached only when no item passes tiers 1 or 2; then the first
      clean item wins. */
  lemma AnyCleanMatchWins(items: seq<Item>, query: string, i: nat)
    requires forall j :: 0 <= j < |items| ==> !Accepts(OfficialTier, items[j], Lower(query))
    requires forall j :: 0 <= j < |items| ==> !Accepts(AestheticTier, items[j], Lower(query))
    requires i < |items| && Clean(items[i].title)
    requires forall j :: 0 <= j < i ==> !Clean(items[j].title)
    ensures SelectVideo(Items(items), query) == Some(items[i].videoId)
  {
    var q := Lower(query);
    ScanTierMisses(items, OfficialTier, q);
    ScanTierMisses(items, AestheticTier, q);
    assert forall j :: 0 <= j < i ==> !Accepts(AnyCleanTier, items[j], q);
    ScanTierFinds(items, AnyCleanTier, q, i);
  }

  /** There is no video exactly when the call failed, the response has no
      `items`, or no title is clean (which covers the empty list). */
  lemma NoVideoIff(response: Response, query: string)
    ensures SelectVideo(response, query) == None <==>
      || response.Failed?
      || response.NoItems?
      || (response.Items? &&
          forall j :: 0 <= j < |response.items| ==> !Clean(response.items[j].title))
  {
    if response.Items? {
      var items := response.items;
      var q := Lower(query);
      if forall j :: 0 <= j < |items| ==> !Clean(items[j].title) {
        assert forall j :: 0 <= j < |items| ==> !Accepts(OfficialTier, items[j], q);
        assert forall j :: 0 <= j < |items| ==> !Accepts(AestheticTier, items[j], q);
        assert forall j :: 0 <= j < |items| ==> !Accepts(AnyCleanTier, items[j], q);
      } else {
        var j :| 0 <= j < |items| && Clean(items[j].title);
        assert Accepts(AnyCleanTier, items[j], q);
      }
    }
  }

  /** Exclusion terms are matched as substrings: "Alive" is not clean. */
  lemma AliveIsNotClean()
    ensures !Clean("Alive")
  {
    assert Lower("Alive") == "alive";
    assert OccursAt("alive", "live", 1);
    assert Contains(Lower("Alive"), Avoid[1]);
  }

  /** "#shorts" adds nothing to the exclusion list: any title containing it
      contains "shorts". */
  lemma HashShortsIsRedundant(title: string)
    ensures Clean(title) <==> !ContainsAny(Lower(title), ["cover", "live", "shorts"])
  {
    var t := Lower(title);
    var shorter: seq<string> := ["cover", "live", "shorts"];
    assert forall k :: 0 <= k < 3 ==> Avoid[k] == shorter[k];
    if Contains(t, Avoid[3]) {
      assert OccursAt(Avoid[3], shorter[2], 1);
      ContainsTransitive(t, Avoid[3], shorter[2]);
    }
  }

  /** An item with an empty channel name passes the channel test, since the
      empty string occurs in every query; with a clean title it is accepted
      at tier 1. */
  lemma EmptyChannelPassesTierOne(item: Item, queryLower: string)
    requires item.channelTitle == "" && Clean(item.title)
    ensures Accepts(OfficialTier, item, queryLower)
  {
    EmptyOccursEverywhere(queryLower);
  }

  /** For a recommended song, a clean upload on a channel named like the
      artist (ignoring ASCII case) passes tier 1. */
  lemma ArtistChannelPassesTierOne(name: string, artist: string, item: Item)
    requires Clean(item.title) && Lower(item.channelTitle) == Lower(artist)
    ensures Accepts(OfficialTier, item, Lower(TrackQuery(name, artist)))
  {
    LowerConcat(name + " ", artist);
    var q := Lower(name + " ") + Lower(artist);
    assert q[|Lower(name + " ")|..] == Lower(artist);
    assert OccursAt(q, Lower(artist), |Lower(name + " ")|);
  }

  /** The search string is the query, unchanged, followed by the qualifiers. */
  lemma SearchQueryExtendsQuery(query: string)
    ensures |SearchQuery(query)| == |query| + |Qualifiers|
    ensures SearchQuery(query)[..|query|] == query
    ensures SearchQuery(query)[|query|..] == Qualifiers
    ensures Contains(SearchQuery(query), query)
  {
    assert SearchQuery(query)[0..|query|] == query;
    assert OccursAt(SearchQuery(query), query, 0);
  }

  // ---------------------------------------------------------------------
  // From detected mood to branch
  // ---------------------------------------------------------------------

  /** Stripping the glyph recovers the classifier's top label, whatever it
      is, because no glyph contains a space. */
  lemma MoodLabelRecoversLabel(ranked: seq<string>)
    requires ranked != []
    ensures DetectMood(ranked).Some? && MoodLabel(DetectMood(ranked).value) == ranked[0]
  {
    var e := EmojiFor(ranked[0]);
    assert (e + " " + ranked[0])[|e| + 1..] == ranked[0];
  }

  /** The page's pipeline: when the classifier ranks candidate `k` first,
      the stripped label selects branch `k` of the recommendation chain. */
  lemma DetectedMoodSelectsItsBranch(ranked: seq<string>, k: nat)
    requires ranked != [] && k < |CandidateMoods| && ranked[0] == CandidateMoods[k]
    ensures SelectBranch(MoodLabel(DetectMood(ranked).value)) == Branches[k]
  {
    MoodLabelRecoversLabel(ranked);
    LabelSelectsOwnBranch(k);
  }

}
