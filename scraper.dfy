/**
 * The request chain of `main`: scrape the token, fetch the brands, pick the
 * brand, fetch its models, pick the model, and build the listing request.
 * The API's replies to the catalog requests are a parameter.
 */
module Scraper {
  import opened Wrappers
  import opened BearerToken
  import opened Catalog
  import opened Requests

  /** Everything `main` computes before it fetches the listings. */
  datatype Plan = Plan(
    token: string,
    brandsRequest: Request,
    brandParams: string,
    brandName: string,
    modelsRequest: Request,
    modelParams: string,
    modelName: string,
    listingsRequest: Request)

  /**
   * Runs the chain against a web server that answers `fetch(url)` to an
   * unauthenticated request for `url` (only the front page is fetched so) and
   * a catalog endpoint that answers `counters(r)` to request `r`. It stops
   * only when the token cannot be extracted (the original panics there); a brand or model that is not found is not an
   * error, it leaves empty search parameters that the next request carries.
   */
  method PlanRequests(fetch: string -> string, brandQuery: string, modelQuery: string,
                      counters: Request -> seq<CategoryCounter>)
    returns (r: Result<Plan, ExtractError>)
    ensures r.Failure? <==> Extract(fetch(TokenPageUrl)).Failure?
    ensures r.Failure? ==> r.error == Extract(fetch(TokenPageUrl)).error
    ensures r.Success? ==>
      var p := r.value;
      && p.token == Extract(fetch(TokenPageUrl)).value
      && p.brandsRequest == BrandsRequest(p.token)
      && (p.brandParams, p.brandName) == Selected(counters(p.brandsRequest), brandQuery)
      && p.modelsRequest == ModelsRequest(p.token, p.brandParams)
      && (p.modelParams, p.modelName) == Selected(counters(p.modelsRequest), modelQuery)
      && p.listingsRequest == ListingsRequest(p.token, p.modelParams)
  {
    var page := fetch(TokenPageUrl);
    var extracted := Extract(page);
    if extracted.Failure? {
      return Failure(extracted.error);
    }
    var token := extracted.value;
    var brandsRequest := BrandsRequest(token);
    var brandParams, brandName := SelectByLabel(counters(brandsRequest), brandQuery);
    var modelsRequest := ModelsRequest(token, brandParams);
    var modelParams, modelName := SelectByLabel(counters(modelsRequest), modelQuery);
    var listingsRequest := ListingsRequest(token, modelParams);
    r := Success(Plan(token, brandsRequest, brandParams, brandName,
                      modelsRequest, modelParams, modelName, listingsRequest));
  }

  /**
   * With brand `Volvo` selecting `cg=1020&brand=abc` and model `V70`
   * selecting `cg=1020&brand=abc&model=xyz`, the models are fetched with the
   * brand's parameters and the listings with exactly the model's parameters
   * followed by `&include=all`.
   */
  lemma ExampleChain(token: string, brands: seq<CategoryCounter>, models: seq<CategoryCounter>)
    requires brands == [CategoryCounter("cg=1020&brand=abc", "Volvo", "", 12)]
    requires models == [CategoryCounter("cg=1020&brand=abc&model=xyz", "V70", "", 3)]
    ensures ModelsRequest(token, Selected(brands, "Volvo").0).url ==
      CountersEndpoint + "cg=1020&brand=abc" + IncludeAll
    ensures ListingsRequest(token, Selected(models, "V70").0).url ==
      SearchEndpoint + "cg=1020&brand=abc&model=xyz" + IncludeAll
  {
    assert LastMatch(brands, "Volvo") == Some(0);
    assert LastMatch(models, "V70") == Some(0);
  }

  /** A brand that is not in the catalog leaves the model request with empty parameters. */
  lemma UnknownBrandQueriesAllCounters(token: string, brands: seq<CategoryCounter>, brandQuery: string)
    requires forall j :: 0 <= j < |brands| ==> brands[j].displayLabel != brandQuery
    ensures ModelsRequest(token, Selected(brands, brandQuery).0).url == CountersEndpoint + IncludeAll
  {
  }
}
