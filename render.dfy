/**
 * What the component renders from its state (src/App.jsx): the view
 * state and its hero message, the "Load More" pagination over the
 * filtered list, and the flag image with its placeholder fallback.
 */
module Render {
  import opened Text
  import opened Countries

  /** The three values of the `states` constant. */
  datatype ViewState = Loading | Loaded | Error

  /** Cards are shown, and "Load More" reveals them, this many at a time. */
  const PageSize: nat := 8

  /** `renderHeroMessage()`: a message per view state; once loaded it
      reports how many countries were fetched, not how many match the query. */
  function HeroMessage(state: ViewState, total: nat): (m: string)
    ensures state == Loading <==> m == "Loading..."
    ensures state == Error <==> m == "Something went wrong."
    ensures state == Loaded ==>
      && 28 < |m| && m[..18] == "Currently we have " && m[|m| - 10..] == " countries"
      && m[18..|m| - 10] == NatToString(total) && DigitsValue(m[18..|m| - 10]) == total
  {
    match state
    case Loading => "Loading..."
    case Error => "Something went wrong."
    case Loaded =>
      var digits := NatToString(total);
      var m := "Currently we have " + digits + " countries";
      NatToStringRoundTrip(total);
      assert m[18..|m| - 10] == digits;
      assert m[0] == 'C';
      m
  }

  /** The hero message tells the three states apart and, once loaded,
      tells every country count apart (it follows from the digits of the
      loaded message reading back as the count). */
  lemma HeroMessageDistinguishes(s1: ViewState, n1: nat, s2: ViewState, n2: nat)
    requires HeroMessage(s1, n1) == HeroMessage(s2, n2)
    ensures s1 == s2
    ensures s1 == Loaded ==> n1 == n2
  {
  }

  /** `filteredCountries.slice(0, displayCount)`: the first
      `min(displayCount, |filtered|)` filtered countries, in order. */
  function VisibleSlice(filtered: seq<Country>, displayCount: nat): (visible: seq<Country>)
    ensures |visible| == if displayCount < |filtered| then displayCount else |filtered|
    ensures forall i :: 0 <= i < |visible| ==> visible[i] == filtered[i]
  {
    if displayCount < |filtered| then filtered[..displayCount] else filtered
  }

  /** The condition under which the "Load More" button is rendered. With at
      least one page shown, it holds exactly when some filtered country is
      not yet rendered. */
  predicate ShowLoadMore(filtered: seq<Country>, displayCount: nat): (shown: bool)
    ensures displayCount >= PageSize ==> (shown <==> |VisibleSlice(filtered, displayCount)| < |filtered|)
  {
    |filtered| > PageSize && |filtered| > displayCount
  }

  /** A click on "Load More" renders the next page: the old cards stay, and
      up to `PageSize` more follow. */
  lemma LoadMoreExtends(filtered: seq<Country>, displayCount: nat)
    requires ShowLoadMore(filtered, displayCount)
    ensures var before, after := VisibleSlice(filtered, displayCount), VisibleSlice(filtered, displayCount + PageSize);
      before < after && |after| - |before| == if |filtered| - displayCount < PageSize then |filtered| - displayCount else PageSize
  {
  }

  /** How many clicks on "Load More" it takes until the button disappears. */
  function ClicksToExhaust(filtered: seq<Country>, displayCount: nat): (k: nat)
    ensures !ShowLoadMore(filtered, displayCount + PageSize * k)
    ensures forall j :: 0 <= j < k ==> ShowLoadMore(filtered, displayCount + PageSize * j)
    decreases |filtered| - displayCount
  {
    if ShowLoadMore(filtered, displayCount) then
      var rest := ClicksToExhaust(filtered, displayCount + PageSize);
      assert forall j :: 1 <= j < rest + 1 ==>
        displayCount + PageSize * j == displayCount + PageSize + PageSize * (j - 1);
      1 + rest
    else 0
  }

  /** The source of a flag image. */
  datatype Image = Placeholder | FlagUrl(url: string)

  /** The `img` `src`: the placeholder once the country's name is among the
      broken flags, its own flag URL before. */
  function ImageSource(c: Country, brokenFlags: seq<string>): (img: Image)
    ensures img == Placeholder <==> c.name in brokenFlags
    ensures img != Placeholder ==> img == FlagUrl(c.flag)
  {
    if c.name in brokenFlags then Placeholder else FlagUrl(c.flag)
  }

  /** Recording one broken flag swaps the image of the countries with that
      name, and of no other country. */
  lemma FlagErrorSwapsOnlyThatName(c: Country, brokenFlags: seq<string>, name: string)
    ensures ImageSource(c, brokenFlags + [name]) == if c.name == name then Placeholder else ImageSource(c, brokenFlags)
  {
  }

  /** Recording a name again changes no image. */
  lemma FlagErrorRepeated(c: Country, brokenFlags: seq<string>, name: string)
    requires name in brokenFlags
    ensures ImageSource(c, brokenFlags + [name]) == ImageSource(c, brokenFlags)
  {
  }

  /** Once a placeholder, always a placeholder: the broken flags only grow. */
  lemma PlaceholderIsPermanent(c: Country, brokenFlags: seq<string>, later: seq<string>)
    requires ImageSource(c, brokenFlags) == Placeholder
    ensures ImageSource(c, brokenFlags + later) == Placeholder
  {
  }

  /** One rendered country card: the country and the image it shows. */
  datatype Card = Card(country: Country, image: Image)

  /** What the component renders: the hero message, whether the search box
      is there, the country cards, and whether "Load More" is there. */
  datatype View = View(hero: string, search: bool, cards: seq<Card>, loadMore: bool)

  /** The cards for the visible countries, each with its image source. */
  function Cards(visible: seq<Country>, brokenFlags: seq<string>): (cards: seq<Card>)
    ensures |cards| == |visible|
    ensures forall i :: 0 <= i < |visible| ==>
      cards[i].country == visible[i] && cards[i].image == ImageSource(visible[i], brokenFlags)
  {
    seq(|visible|, i requires 0 <= i < |visible| => Card(visible[i], ImageSource(visible[i], brokenFlags)))
  }

  /** The component's output for one state: the search box, the cards and
      the button exist only once the countries are loaded. */
  function RenderView(state: ViewState, countries: seq<Country>, query: Option<string>,
                      displayCount: nat, brokenFlags: seq<string>): (v: View)
    ensures v.hero == HeroMessage(state, |countries|)
    ensures v.search <==> state == Loaded
    ensures state != Loaded ==> v.cards == [] && !v.loadMore
    ensures state == Loaded ==>
      |v.cards| == if displayCount < |Filter(countries, query)| then displayCount else |Filter(countries, query)|
    ensures forall i :: 0 <= i < |v.cards| ==>
      i < |Filter(countries, query)| && v.cards[i].country == Filter(countries, query)[i]
      && v.cards[i].image == ImageSource(v.cards[i].country, brokenFlags)
    ensures v.loadMore ==> |v.cards| < |Filter(countries, query)|
    ensures state == Loaded && displayCount >= PageSize ==>
      (v.loadMore <==> |v.cards| < |Filter(countries, query)|)
  {
    var filtered := Filter(countries, query);
    View(HeroMessage(state, |countries|),
         state == Loaded,
         if state == Loaded then Cards(VisibleSlice(filtered, displayCount), brokenFlags) else [],
         state == Loaded && ShowLoadMore(filtered, displayCount))
  }

  /** The hero message shows the number of fetched countries, whatever the
      query, the display count or the broken flags. */
  lemma HeroShowsFetchedCount(state: ViewState, countries: seq<Country>,
                              q1: Option<string>, d1: nat, b1: seq<string>,
                              q2: Option<string>, d2: nat, b2: seq<string>)
    ensures RenderView(state, countries, q1, d1, b1).hero == RenderView(state, countries, q2, d2, b2).hero
    ensures state == Loaded ==>
      var hero := RenderView(state, countries, q1, d1, b1).hero;
      28 < |hero| && IsDigits(hero[18..|hero| - 10]) && DigitsValue(hero[18..|hero| - 10]) == |countries|
  {
  }

  /** A fetch that brings back no countries: loaded, "0 countries", no card, no button. */
  lemma EmptyFetchView()
    ensures RenderView(Loaded, [], None, PageSize, []) == View("Currently we have 0 countries", true, [], false)
  {
  }

  /** A failed fetch: the error message, and neither search box nor list. */
  lemma ErrorView(query: Option<string>, displayCount: nat, brokenFlags: seq<string>)
    ensures RenderView(Error, [], query, displayCount, brokenFlags) == View("Something went wrong.", false, [], false)
  {
  }

  /** Ten countries and no query: eight cards and the button; one click
      later all ten cards and no button. */
  lemma TenCountriesView(countries: seq<Country>)
    requires |countries| == 10
    ensures var first := RenderView(Loaded, countries, None, PageSize, []);
      |first.cards| == 8 && first.loadMore
    ensures var second := RenderView(Loaded, countries, None, PageSize + PageSize, []);
      |second.cards| == 10 && !second.loadMore
      && forall i :: 0 <= i < 10 ==> second.cards[i] == Card(countries[i], FlagUrl(countries[i].flag))
  {
  }
}
