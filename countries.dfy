/**
 * The country records the component receives and the filter engine that
 * narrows them down to the ones matching the search query
 * (src/App.jsx, the `filteredCountries` expression and the search
 * input's `onChange` handler).
 */
module Countries {
  import opened Text

  datatype Option<T> = None | Some(value: T)

  datatype Language = Language(name: string)

  /** One entry of the fetched collection. `name` is the key the flag fallback uses. */
  datatype Country = Country(
    name: string,
    capital: string,
    population: nat,
    flag: string,
    languages: seq<Language>)

  /** `languages.map((language) => language.name)` */
  function LanguageNames(langs: seq<Language>): (r: seq<string>)
    ensures |r| == |langs|
    ensures forall i :: 0 <= i < |langs| ==> r[i] == langs[i].name
  {
    if langs == [] then [] else [langs[0].name] + LanguageNames(langs[1..])
  }

  /** The lower-cased text a country is searched by: its name, its capital
      and its language names, separated by single spaces. */
  function Haystack(c: Country): (hay: string)
    ensures IsLower(hay)
    ensures |hay| == |c.name| + 1 + |c.capital| + 1 + |Join(LanguageNames(c.languages), " ")|
    ensures hay[..|c.name|] == Lower(c.name) && hay[|c.name|] == ' '
  {
    var text := c.name + " " + c.capital + " " + Join(LanguageNames(c.languages), " ");
    LowerSlice(text, 0, |c.name|);
    assert text[..|c.name|] == c.name;
    Lower(text)
  }

  /** Whether `needle` selects `c`: the empty needle selects every country,
      and a needle longer than the haystack none. */
  predicate Matches(c: Country, needle: string): (b: bool)
    ensures needle == "" ==> b
    ensures b ==> |needle| <= |Haystack(c)|
  {
    Contains(Haystack(c), needle)
  }

  /** `countries.filter(...)`: the countries that `needle` selects, in their original order. */
  function FilterBy(cs: seq<Country>, needle: string): (r: seq<Country>)
    ensures IsSubsequence(r, cs)
    ensures forall i :: 0 <= i < |r| ==> Matches(r[i], needle)
    ensures forall c :: c in cs && Matches(c, needle) ==> c in r
  {
    if cs == [] then []
    else if Matches(cs[0], needle) then [cs[0]] + FilterBy(cs[1..], needle)
    else FilterBy(cs[1..], needle)
  }

  /** `query ? countries.filter(...) : countries`: a missing (or empty,
      hence falsy) query leaves the list as it is. */
  function Filter(cs: seq<Country>, query: Option<string>): (r: seq<Country>)
    ensures query.None? ==> r == cs
    ensures IsSubsequence(r, cs)
    ensures forall i :: 0 <= i < |r| ==> Selected(r[i], query)
  {
    match query
    case None =>
      IsSubsequenceReflexive(cs);
      cs
    case Some(needle) =>
      if needle == "" then
        FilterByEmptyNeedle(cs);
        cs
      else FilterBy(cs, needle)
  }

  /** Whether a country survives the query; every country survives no query. */
  predicate Selected(c: Country, query: Option<string>) {
    query.None? || Matches(c, query.value)
  }

  /** `a` is `b` with some elements dropped, the rest kept in order. */
  predicate IsSubsequence<T(==)>(a: seq<T>, b: seq<T>)
    decreases |b|
  {
    if a == [] then true
    else if b == [] then false
    else (a[0] == b[0] && IsSubsequence(a[1..], b[1..])) || IsSubsequence(a, b[1..])
  }

  lemma {:induction false} IsSubsequenceReflexive<T>(s: seq<T>)
    ensures IsSubsequence(s, s)
    decreases |s|
  {
    if s != [] {
      IsSubsequenceReflexive(s[1..]);
    }
  }


  /** An empty needle selects every country, so treating it as "no query"
      agrees with the substring test. */
  lemma {:induction false} FilterByEmptyNeedle(cs: seq<Country>)
    ensures FilterBy(cs, "") == cs
  {
    if cs != [] {
      FilterByEmptyNeedle(cs[1..]);
    }
  }

  /** Soundness and completeness: a country is in the filtered list exactly
      when it is in the country list and the query selects it. */
  lemma FilterMembership(cs: seq<Country>, query: Option<string>, c: Country)
    ensures c in Filter(cs, query) <==> c in cs && Selected(c, query)
  {
    if query.Some? && query.value == "" {
      assert Matches(c, "");
    } else if query.Some? && c in FilterBy(cs, query.value) {
      var i :| 0 <= i < |FilterBy(cs, query.value)| && FilterBy(cs, query.value)[i] == c;
      SubsequenceMembers(FilterBy(cs, query.value), cs, i);
    }
  }

  /** Every element of a subsequence comes from the sequence. */
  lemma {:induction false} SubsequenceMembers<T>(a: seq<T>, b: seq<T>, i: nat)
    requires IsSubsequence(a, b) && i < |a|
    ensures a[i] in b
    decreases |b|
  {
    if a[0] == b[0] && IsSubsequence(a[1..], b[1..]) {
      if i > 0 {
        SubsequenceMembers(a[1..], b[1..], i - 1);
      }
    } else {
      SubsequenceMembers(a, b[1..], i);
    }
  }

  /** The filtered list keeps every selected country as often as the
      country list holds it, and no other country. */
  lemma {:induction false} FilterByMultiplicity(cs: seq<Country>, needle: string, c: Country)
    ensures multiset(FilterBy(cs, needle))[c] == if Matches(c, needle) then multiset(cs)[c] else 0
  {
    if cs != [] {
      FilterByMultiplicity(cs[1..], needle, c);
      assert cs == [cs[0]] + cs[1..];
    }
  }


  /** Filtering a filtered list again with the same needle changes nothing. */
  lemma {:induction false} FilterByIdempotent(cs: seq<Country>, needle: string)
    ensures FilterBy(FilterBy(cs, needle), needle) == FilterBy(cs, needle)
  {
    if cs != [] {
      FilterByIdempotent(cs[1..], needle);
      if Matches(cs[0], needle) {
        assert ([cs[0]] + FilterBy(cs[1..], needle))[1..] == FilterBy(cs[1..], needle);
      }
    }
  }

  lemma FilterIdempotent(cs: seq<Country>, query: Option<string>)
    ensures Filter(Filter(cs, query), query) == Filter(cs, query)
  {
    if query.Some? && query.value != "" {
      FilterByIdempotent(cs, query.value);
    }
  }

  /** A needle found in the lower-cased name, capital or one language
      name selects the country. */
  lemma FieldMatch(c: Country, needle: string)
    ensures Contains(Lower(c.name), needle) ==> Matches(c, needle)
    ensures Contains(Lower(c.capital), needle) ==> Matches(c, needle)
    ensures forall k :: 0 <= k < |c.languages| && Contains(Lower(c.languages[k].name), needle) ==> Matches(c, needle)
  {
    var joined := Join(LanguageNames(c.languages), " ");
    var text := c.name + " " + c.capital + " " + joined;
    assert text == c.name + (" " + c.capital + " " + joined);
    assert text == (c.name + " ") + c.capital + (" " + joined);
    assert text == (c.name + " " + c.capital + " ") + joined;
    FieldInText(text, c.name, needle);
    ContainsSelf(c.capital);
    ContainsAppend(c.name + " ", c.capital, c.capital);
    ContainsAppend(c.name + " " + c.capital, " " + joined, c.capital);
    FieldInText(text, c.capital, needle);
    forall k | 0 <= k < |c.languages| && Contains(Lower(c.languages[k].name), needle)
      ensures Matches(c, needle)
    {
      assert LanguageNames(c.languages)[k] == c.languages[k].name;
      ContainsSelf(joined);
      ContainsAppend(c.name + " " + c.capital + " ", joined, joined);
      ContainsTransitive(text, joined, c.languages[k].name);
      FieldInText(text, c.languages[k].name, needle);
    }
  }

  /** A needle inside the lower-cased field is inside the lower-cased text holding the field. */
  lemma FieldInText(text: string, field: string, needle: string)
    requires Contains(text, field) || (|field| <= |text| && text[..|field|] == field)
    ensures Contains(Lower(field), needle) ==> Contains(Lower(text), needle)
  {
    if !Contains(text, field) {
      assert OccursAt(text, field, 0);
    }
    if Contains(Lower(field), needle) {
      LowerContains(text, field);
      ContainsTransitive(Lower(text), Lower(field), needle);
    }
  }

  /** The names of the given countries, in order. */
  function Names(cs: seq<Country>): (r: seq<string>)
    ensures |r| == |cs| && forall i :: 0 <= i < |cs| ==> r[i] == cs[i].name
  {
    seq(|cs|, i requires 0 <= i < |cs| => cs[i].name)
  }

  /** The haystack is one string, so a needle may straddle two fields:
      "e p" selects France, whose capital is Paris, though it occurs in
      neither the name nor the capital nor a language name. */
  lemma StraddlingNeedle()
    ensures var france := Country("France", "Paris", 67000000, "fr.svg", [Language("French")]);
      Matches(france, "e p")
      && !Contains(Lower(france.name), "e p")
      && !Contains(Lower(france.capital), "e p")
      && !Contains(Lower(france.languages[0].name), "e p")
  {
    var france := Country("France", "Paris", 67000000, "fr.svg", [Language("French")]);
    assert LanguageNames(france.languages) == ["French"];
    var text := "France" + " " + "Paris" + " " + "French";
    assert Haystack(france) == Lower(text);
    LowerSlice(text, 5, 8);
    assert text[5..8] == "e P";
    assert Lower("e P") == "e p";
    assert OccursAt(Haystack(france), "e p", 5);
    NoSpaceNoStraddle("France");
    NoSpaceNoStraddle("Paris");
    NoSpaceNoStraddle("French");
  }

  /** A field without a space cannot hold a needle that has one. */
  lemma NoSpaceNoStraddle(field: string)
    requires forall i :: 0 <= i < |field| ==> field[i] != ' '
    ensures !Contains(Lower(field), "e p")
  {
    forall i | 0 <= i <= |field| - 3
      ensures !OccursAt(Lower(field), "e p", i)
    {
      assert Lower(field)[i + 1] != ' ';
    }
  }

  /** The search input's `onChange`: an empty input clears the query,
      any other input becomes its lower-case form. */
  function Normalize(input: string): (q: Option<string>)
    ensures q.None? <==> input == ""
    ensures q.Some? ==> q.value != "" && IsLower(q.value) && |q.value| == |input|
  {
    if input != "" then Some(Lower(input)) else None
  }

  /** A query the input handler can produce: absent, or non-empty and lower-case. */
  predicate NormalQuery(q: Option<string>) {
    q.Some? ==> q.value != "" && IsLower(q.value)
  }

  /** The query does not depend on the case the user types in. */
  lemma NormalizeIgnoresCase(input: string)
    ensures Normalize(Lower(input)) == Normalize(input)
  {
    LowerIdempotent(input);
  }

  /** A stored query is a fixed point of the input handler: typing it
      again gives the same query. */
  lemma NormalizeFixesNormal(q: Option<string>)
    requires NormalQuery(q)
    ensures Normalize(if q.None? then "" else q.value) == q
  {
    if q.Some? {
      LowerOfLower(q.value);
    }
  }
}
