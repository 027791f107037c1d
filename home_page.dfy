/** The home page's derived state: the title search, the poem the route
    selects, and when the result count, the not-found message and the
    highlight are shown. */
module HomePage {
  import opened Wrappers
  import Seqs
  import Text
  import opened ApiService

  /** `poem.title.toLowerCase().includes(searchTerm.toLowerCase())`, with
      `lower` standing for the case mapping. */
  predicate TitleMatches(p: Poem, term: string, lower: char -> char) {
    Text.Includes(Text.MapChars(p.title, lower), Text.MapChars(term, lower))
  }

  /** `filteredPoems`: the poems whose title matches, in their order. */
  function FilteredPoems(poems: seq<Poem>, term: string, lower: char -> char): (r: seq<Poem>)
    ensures Seqs.IsSubsequence(r, poems)
    ensures forall p :: p in r <==> p in poems && TitleMatches(p, term, lower)
    ensures forall p :: multiset(r)[p] == if TitleMatches(p, term, lower) then multiset(poems)[p] else 0
  {
    Seqs.Filter(poems, p => TitleMatches(p, term, lower))
  }

  /** A matching title contains the lowered term at some offset. */
  lemma MatchHasOffset(p: Poem, term: string, lower: char -> char)
    requires TitleMatches(p, term, lower)
    ensures exists k :: Text.OccursAt(Text.MapChars(p.title, lower), Text.MapChars(term, lower), k)
  {
    Text.IncludesWitness(Text.MapChars(p.title, lower), Text.MapChars(term, lower));
  }

  /** The empty search term keeps every poem, in order. */
  lemma EmptyTermKeepsAll(poems: seq<Poem>, lower: char -> char)
    ensures FilteredPoems(poems, "", lower) == poems
  {
    forall i | 0 <= i < |poems| ensures TitleMatches(poems[i], "", lower) {
      assert Text.OccursAt(Text.MapChars(poems[i].title, lower), Text.MapChars("", lower), 0);
      Text.IncludesAt(Text.MapChars(poems[i].title, lower), Text.MapChars("", lower), 0);
    }
    Seqs.FilterKeepsAll(poems, p => TitleMatches(p, "", lower));
  }

  /** `poems.find(p => p._id === id)`: no route id selects nothing. */
  function SelectedPoem(poems: seq<Poem>, routeId: Option<string>): (r: Option<Poem>)
    ensures routeId.None? ==> r.None?
    ensures routeId.Some? ==> (r.None? <==> forall i :: 0 <= i < |poems| ==> poems[i].id != routeId.value)
    ensures r.Some? ==> routeId.Some? && exists k :: FirstWithId(poems, routeId.value, k) && r.value == poems[k]
  {
    match routeId
    case None => None
    case Some(id) =>
      Seqs.Find(poems, HasId(id))
  }

  /** `p => p._id === id`. */
  function HasId(id: string): Poem -> bool {
    (p: Poem) => p.id == id
  }

  /** Position `k` holds the first poem with id `id`. */
  predicate FirstWithId(poems: seq<Poem>, id: string, k: int) {
    Seqs.FirstMatchAt(poems, HasId(id), k)
  }

  /** `{searchTerm && ...}`: the count appears for a non-empty term. */
  predicate ShowsResultCount(term: string) {
    term != ""
  }

  /** `filteredPoems.length === 0 && searchTerm`. */
  predicate ShowsNotFound(filtered: seq<Poem>, term: string) {
    |filtered| == 0 && term != ""
  }

  /** `selectedPoem?._id === poem._id`. */
  predicate Highlighted(selected: Option<Poem>, p: Poem) {
    selected.Some? && selected.value.id == p.id
  }

  /** The not-found message appears exactly when the term is non-empty and
      no poem's title matches it; it never appears without a term. */
  lemma NotFoundIffNoMatch(poems: seq<Poem>, term: string, lower: char -> char)
    ensures ShowsNotFound(FilteredPoems(poems, term, lower), term) <==>
              term != "" && forall i :: 0 <= i < |poems| ==> !TitleMatches(poems[i], term, lower)
    ensures ShowsNotFound(FilteredPoems(poems, term, lower), term) ==> ShowsResultCount(term)
  {
    var r := FilteredPoems(poems, term, lower);
    if |r| > 0 {
      assert r[0] in r;
    }
  }

  /** No ids in `poems` are repeated. */
  predicate DistinctIds(poems: seq<Poem>) {
    forall i, j :: 0 <= i < j < |poems| ==> poems[i].id != poems[j].id
  }

  /** With distinct ids, the one highlighted entry of the filtered list is
      the selected poem itself, and nothing is highlighted when no poem is
      selected. */
  lemma HighlightIsSelection(poems: seq<Poem>, term: string, lower: char -> char, routeId: Option<string>)
    requires DistinctIds(poems)
    ensures var selected := SelectedPoem(poems, routeId);
            var filtered := FilteredPoems(poems, term, lower);
            forall i :: 0 <= i < |filtered| ==>
              (Highlighted(selected, filtered[i]) <==> selected.Some? && filtered[i] == selected.value)
  {
    var selected := SelectedPoem(poems, routeId);
    var filtered := FilteredPoems(poems, term, lower);
    if selected.Some? {
      var k :| FirstWithId(poems, routeId.value, k) && selected.value == poems[k];
      forall i | 0 <= i < |filtered| && Highlighted(selected, filtered[i])
        ensures filtered[i] == selected.value
      {
        assert filtered[i] in poems;
        var j :| 0 <= j < |poems| && poems[j] == filtered[i];
        assert poems[j].id == poems[k].id;
        assert j == k;
      }
    }
  }
}
