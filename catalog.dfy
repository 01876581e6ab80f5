/**
 * The catalog responses (`Car` in the original: the brands of the car
 * category, or the models of one brand) and the loop in `main` that picks
 * the entry whose label the user named on the command line.
 */
module Catalog {
  import opened Wrappers
  import opened Decimal

  /** One entry of a catalog response. */
  datatype CategoryCounter = CategoryCounter(
    searchParameters: string,  // the query string that selects this brand or model
    displayLabel: string,      // the display name the user types (`label` in the JSON)
    apiQuery: string,
    adCounter: Int64)

  datatype Car = Car(categoryCounters: seq<CategoryCounter>)

  /**
   * The position of the last entry whose label is exactly `query`, or `None`
   * when no label is.
   */
  function LastMatch(cs: seq<CategoryCounter>, query: string): (r: Option<nat>)
    ensures r.Some? ==> r.value < |cs| && cs[r.value].displayLabel == query
    ensures r.Some? ==> forall j :: r.value < j < |cs| ==> cs[j].displayLabel != query
    ensures r.None? <==> forall j :: 0 <= j < |cs| ==> cs[j].displayLabel != query
    decreases |cs|
  {
    if |cs| == 0 then None
    else if cs[|cs| - 1].displayLabel == query then Some(|cs| - 1)
    else LastMatch(cs[..|cs| - 1], query)
  }

  /**
   * What the selection loop leaves in its two variables: the search
   * parameters and the label of the last matching entry, or two empty strings
   * (Go's zero values) when nothing matches.
   */
  function Selected(cs: seq<CategoryCounter>, query: string): (r: (string, string))
    ensures LastMatch(cs, query).None? ==> r == ("", "")
    ensures LastMatch(cs, query).Some? ==>
      r == (cs[LastMatch(cs, query).value].searchParameters, query)
  {
    match LastMatch(cs, query)
    case None => ("", "")
    case Some(k) => (cs[k].searchParameters, cs[k].displayLabel)
  }

  /** One more entry: it wins when it matches, and otherwise changes nothing. */
  lemma LastMatchStep(cs: seq<CategoryCounter>, query: string, i: nat)
    requires i < |cs|
    ensures LastMatch(cs[..i + 1], query) ==
      if cs[i].displayLabel == query then Some(i) else LastMatch(cs[..i], query)
  {
    assert cs[..i + 1][..i] == cs[..i];
  }

  /**
   * The selection loop of `main` (run once over the brands and once over the
   * models): scan every entry and overwrite both variables on each exact match.
   */
  method SelectByLabel(cs: seq<CategoryCounter>, query: string) returns (params: string, name: string)
    ensures (params, name) == Selected(cs, query)
    ensures LastMatch(cs, query).None? ==> params == "" && name == ""
    ensures LastMatch(cs, query).Some? ==>
      params == cs[LastMatch(cs, query).value].searchParameters && name == query
  {
    params, name := "", "";
    for i := 0 to |cs|
      invariant (params, name) == Selected(cs[..i], query)
    {
      LastMatchStep(cs, query, i);
      if cs[i].displayLabel == query {
        params := cs[i].searchParameters;
        name := cs[i].displayLabel;
      }
    }
    assert cs[..|cs|] == cs;
  }

  /**
   * The selection is empty exactly when no label matches, or when the query
   * itself is empty and the last entry with an empty label has empty search
   * parameters: the zero values cannot tell those two apart.
   */
  lemma EmptySelection(cs: seq<CategoryCounter>, query: string)
    ensures Selected(cs, query) == ("", "") <==>
      (forall j :: 0 <= j < |cs| ==> cs[j].displayLabel != query) ||
      (query == "" && cs[LastMatch(cs, query).value].searchParameters == "")
  {
  }

  /** Duplicate labels: an entry appended after a match replaces the earlier one. */
  lemma {:induction false} LastEntryWins(cs: seq<CategoryCounter>, e: CategoryCounter)
    ensures Selected(cs + [e], e.displayLabel) == (e.searchParameters, e.displayLabel)
  {
    assert (cs + [e])[|cs + [e]| - 1] == e;
  }

  /** Appending entries with other labels does not change the selection. */
  lemma {:induction false} OtherEntriesIgnored(cs: seq<CategoryCounter>, e: CategoryCounter, query: string)
    requires e.displayLabel != query
    ensures Selected(cs + [e], query) == Selected(cs, query)
  {
    assert (cs + [e])[..|cs|] == cs;
  }
}
