/**
 * The component's state and its event handlers (src/App.jsx). Each
 * handler, together with the query-reset effect it may trigger, is one
 * step; React's scheduling and batching are not modelled.
 */
module AppState {
  import opened Text
  import opened Countries
  import opened Render

  class App {
    var countries: seq<Country>
    var state: ViewState
    var query: Option<string>
    var displayCount: nat
    var brokenFlags: seq<string>

    /** What every reachable state satisfies: the display count is a
        whole number of pages, the query is one the input handler can
        produce, nothing but the fetch happens before the countries are
        loaded, and every broken flag belongs to a fetched country. */
    ghost predicate Valid()
      reads this
    {
      && displayCount >= PageSize && displayCount % PageSize == 0
      && NormalQuery(query)
      && (state != Loaded ==>
            countries == [] && query == None && displayCount == PageSize && brokenFlags == [])
      && forall n :: n in brokenFlags ==> n in Names(countries)
    }

    /** The initial `useState` values. */
    constructor ()
      ensures Valid()
      ensures state == Loading && countries == [] && query == None
      ensures displayCount == PageSize && brokenFlags == []
    {
      countries := [];
      state := Loading;
      query := None;
      displayCount := PageSize;
      brokenFlags := [];
    }

    /** `filteredCountries`: the fetched countries the query selects, in order. */
    function Filtered(): (r: seq<Country>)
      reads this
      ensures IsSubsequence(r, countries)
      ensures query.None? ==> r == countries
      ensures forall i :: 0 <= i < |r| ==> Selected(r[i], query)
    {
      Filter(countries, query)
    }

    /** The countries whose cards are rendered: the leading filtered countries, at most a display count of them. */
    function Visible(): (r: seq<Country>)
      reads this
      ensures |r| <= displayCount && |r| <= |Filtered()|
      ensures forall i :: 0 <= i < |r| ==> r[i] == Filtered()[i]
      ensures |r| < displayCount ==> r == Filtered()
    {
      VisibleSlice(Filtered(), displayCount)
    }

    /** Everything rendered in the current state: the hero message counts
        the fetched countries, and once loaded the cards are those of the
        visible countries, in order. */
    function Rendered(): (v: View)
      reads this
      ensures v.hero == HeroMessage(state, |countries|)
      ensures |v.cards| == if state == Loaded then |Visible()| else 0
      ensures forall i :: 0 <= i < |v.cards| ==>
        v.cards[i].country == Visible()[i] && v.cards[i].image == ImageSource(Visible()[i], brokenFlags)
      ensures v.loadMore <==> state == Loaded && ShowLoadMore(Filtered(), displayCount)
    {
      var v := RenderView(state, countries, query, displayCount, brokenFlags);
      assert v.cards == if state == Loaded then Cards(Visible(), brokenFlags) else [];
      v
    }

    /** `fetchCountries` resolving with `data`: a non-empty collection
        replaces the (empty) country list, and the view becomes loaded. */
    method FetchSucceeded(data: seq<Country>)
      requires Valid() && state == Loading
      modifies this
      ensures Valid()
      ensures state == Loaded
      ensures countries == (if |data| > 0 then data else old(countries))
      ensures countries == data
      ensures query == old(query) && displayCount == old(displayCount) && brokenFlags == old(brokenFlags)
    {
      if |data| > 0 {
        countries := data;
      }
      state := Loaded;
    }

    /** `fetchCountries` failing: the view shows the error, the country list stays empty. */
    method FetchFailed()
      requires Valid() && state == Loading
      modifies this`state
      ensures Valid()
      ensures state == Error && countries == []
    {
      state := Error;
    }

    /** The search input's `onChange` with the new input value, followed by
        the effect on `[query]`: a changed query sets the display count
        back to one page. */
    method SetInput(input: string)
      requires Valid() && state == Loaded
      modifies this`query, this`displayCount
      ensures Valid()
      ensures query == Normalize(input)
      ensures displayCount == if query != old(query) then PageSize else old(displayCount)
    {
      var previous := query;
      query := Normalize(input);
      if query != previous {
        if displayCount != PageSize {
          displayCount := PageSize;
        }
      }
    }

    /** A click on "Load More", which is rendered only when `ShowLoadMore` holds. */
    method LoadMore()
      requires Valid() && state == Loaded && ShowLoadMore(Filtered(), displayCount)
      modifies this`displayCount
      ensures Valid()
      ensures displayCount == old(displayCount) + PageSize
      ensures old(Visible()) < Visible()
    {
      LoadMoreExtends(Filtered(), displayCount);
      displayCount := displayCount + PageSize;
    }

    /** The `onError` of the flag image of a rendered country `c`: its name
        is appended, whether or not it is already there. */
    method FlagError(c: Country)
      requires Valid() && state == Loaded && c in Visible()
      modifies this`brokenFlags
      ensures Valid()
      ensures brokenFlags == old(brokenFlags) + [c.name]
      ensures forall d: Country :: d.name == c.name ==> ImageSource(d, brokenFlags) == Placeholder
      ensures forall d: Country :: d.name != c.name ==> ImageSource(d, brokenFlags) == ImageSource(d, old(brokenFlags))
    {
      VisibleCountryIsFetched(c);
      brokenFlags := brokenFlags + [c.name];
    }

    /** A rendered country is one of the fetched countries. */
    lemma VisibleCountryIsFetched(c: Country)
      requires c in Visible()
      ensures c in countries
      ensures c.name in Names(countries)
    {
      var i :| 0 <= i < |Visible()| && Visible()[i] == c;
      FilterMembership(countries, query, c);
      var j :| 0 <= j < |countries| && countries[j] == c;
      assert Names(countries)[j] == c.name;
    }
  }

  /** Fetching ten countries renders eight cards and "Load More"; one
      click renders all ten and removes the button. */
  method TenCountriesScenario(data: seq<Country>)
    requires |data| == 10
  {
    var app := new App();
    app.FetchSucceeded(data);
    TenCountriesView(data);
    assert |app.Rendered().cards| == 8 && app.Rendered().loadMore;
    app.LoadMore();
    assert |app.Rendered().cards| == 10 && !app.Rendered().loadMore;
  }

  /** A new search after "Load More" starts again from the first page. */
  method QueryResetScenario(data: seq<Country>)
  {
    var app := new App();
    app.FetchSucceeded(data);
    app.SetInput("X");
    assert Lower("X") == "x";
    assert app.query == Some("x");
    if ShowLoadMore(app.Filtered(), app.displayCount) {
      app.LoadMore();
      assert app.displayCount == 16;
    }
    app.SetInput("y");
    assert Lower("y") == "y";
    assert app.displayCount == PageSize;
  }

  /** A failed fetch leaves the error view for good: no event of the
      loaded view can be handled. */
  method FetchFailedScenario()
  {
    var app := new App();
    app.FetchFailed();
    ErrorView(None, PageSize, []);
    assert app.Rendered() == View("Something went wrong.", false, [], false);
  }
}
