/**
 * The three authenticated requests to the marketplace API (`getCarBrand`,
 * `getBrandModel`, `getListedAds`), as the URL and the `authorization` header
 * value they send. Sending them and decoding the replies is not modelled.
 */
module Requests {

  /** The page the bearer token is scraped from (fetched without authorization). */
  const TokenPageUrl: string := "https://blocket.se/"

  const CountersEndpoint: string := "https://api.blocket.se/classifieds/v1/ad_counters?"
  const SearchEndpoint: string := "https://api.blocket.se/search_bff/v1/content?"
  const IncludeAll: string := "&include=all"

  /** The query string of the car category, which the brand list is fetched with. */
  const CarCategory: string := "cg=1020"

  const BearerPrefix: string := "Bearer "

  datatype Request = Request(url: string, authorization: string)

  /** The `authorization` header value: the token after the `Bearer ` scheme name. */
  function AuthHeader(token: string): (h: string)
    ensures |h| == |BearerPrefix| + |token|
    ensures h[..|BearerPrefix|] == BearerPrefix && h[|BearerPrefix|..] == token
  {
    BearerPrefix + token
  }

  /**
   * `endpoint`, the search parameters and `&include=all`; the parameters can
   * be read back from between the two fixed parts.
   */
  function QueryUrl(endpoint: string, params: string): (u: string)
    ensures |u| == |endpoint| + |params| + |IncludeAll|
    ensures u[..|endpoint|] == endpoint && u[|u| - |IncludeAll|..] == IncludeAll
    ensures u[|endpoint|..|u| - |IncludeAll|] == params
  {
    endpoint + params + IncludeAll
  }

  /** `getCarBrand`: the fixed URL of the brand list. */
  function BrandsRequest(token: string): (r: Request)
    ensures r.authorization == AuthHeader(token)
  {
    Request("https://api.blocket.se/classifieds/v1/ad_counters?cg=1020&include=all", AuthHeader(token))
  }

  /** `getBrandModel`: the models of the brand that `brandParams` selects. */
  function ModelsRequest(token: string, brandParams: string): (r: Request)
    ensures r.url == QueryUrl(CountersEndpoint, brandParams)
    ensures r.authorization == AuthHeader(token)
  {
    Request(CountersEndpoint + brandParams + IncludeAll, BearerPrefix + token)
  }

  /** `getListedAds`: the listings of the model that `modelParams` selects. */
  function ListingsRequest(token: string, modelParams: string): (r: Request)
    ensures r.url == QueryUrl(SearchEndpoint, modelParams)
    ensures r.authorization == AuthHeader(token)
  {
    Request(SearchEndpoint + modelParams + IncludeAll, BearerPrefix + token)
  }

  /** The fixed brand-list URL is the counters endpoint queried with the car category. */
  lemma BrandsIsCategoryQuery(token: string)
    ensures BrandsRequest(token) == Request(QueryUrl(CountersEndpoint, CarCategory), AuthHeader(token))
  {
    assert CountersEndpoint + CarCategory + IncludeAll ==
      "https://api.blocket.se/classifieds/v1/ad_counters?cg=1020&include=all";
  }

  /** Different search parameters give different URLs on the same endpoint. */
  lemma QueryUrlInjective(endpoint: string, p: string, q: string)
    requires QueryUrl(endpoint, p) == QueryUrl(endpoint, q)
    ensures p == q
  {
  }

  /** A model-list request and a listing request never share a URL. */
  lemma EndpointsDisjoint(p: string, q: string)
    ensures QueryUrl(CountersEndpoint, p) != QueryUrl(SearchEndpoint, q)
  {
    var u, v := QueryUrl(CountersEndpoint, p), QueryUrl(SearchEndpoint, q);
    assert u[23] == CountersEndpoint[23] == 'c';
    assert v[23] == SearchEndpoint[23] == 's';
  }

  /** Different tokens give different headers. */
  lemma AuthHeaderInjective(s: string, t: string)
    requires AuthHeader(s) == AuthHeader(t)
    ensures s == t
  {
  }
}
