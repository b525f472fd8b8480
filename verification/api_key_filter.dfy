/** `ApiKeyAuthFilter`: requests under "/api/" must carry the configured key
    in the "X-API-Key" header; every other request is let through. */
module ApiKeyFilter {
  import opened Wrappers
  import opened JavaText

  const ApiPrefix := "/api/"
  const UnauthorizedStatus := 401
  const UnauthorizedBody := "Error: Invalid or Missing API Key"

  /** What the filter does with a request: hand it to the rest of the chain,
      or answer it with a status and a body. */
  datatype FilterResult = PassOn | Reject(status: int, body: string)

  /** `shouldNotFilter`: only URIs under "/api/" are checked. */
  predicate ShouldNotFilter(uri: string) {
    !StartsWith(uri, ApiPrefix)
  }

  /** `doFilterInternal`: the request goes on only when a key is configured
      and the header (possibly absent) equals it exactly. */
  function DoFilterInternal(requiredKey: Option<string>, providedKey: Option<string>): (r: FilterResult)
    ensures r.PassOn? <==> requiredKey.Some? && providedKey == requiredKey
    ensures r.Reject? ==> r == Reject(UnauthorizedStatus, UnauthorizedBody)
  {
    if requiredKey.None? || providedKey != requiredKey then Reject(UnauthorizedStatus, UnauthorizedBody)
    else PassOn
  }

  /** The filter as a whole, for a request's URI and header. */
  function Filter(uri: string, requiredKey: Option<string>, providedKey: Option<string>): (r: FilterResult)
    ensures ShouldNotFilter(uri) ==> r.PassOn?
    ensures r.PassOn? <==> ShouldNotFilter(uri) || (requiredKey.Some? && providedKey == requiredKey)
    ensures r.Reject? ==> r == Reject(UnauthorizedStatus, UnauthorizedBody)
  {
    if ShouldNotFilter(uri) then PassOn else DoFilterInternal(requiredKey, providedKey)
  }

  /** Without a configured key every API request is refused, whatever header
      it carries. */
  lemma NoKeyRejectsApi(uri: string, providedKey: Option<string>)
    requires StartsWith(uri, ApiPrefix)
    ensures Filter(uri, None, providedKey) == Reject(UnauthorizedStatus, UnauthorizedBody)
  {
  }

  /** Only the configured key opens an API route: two different headers are
      never both let through. */
  lemma AtMostOneKeyAccepted(uri: string, requiredKey: Option<string>, k1: string, k2: string)
    requires StartsWith(uri, ApiPrefix) && k1 != k2
    ensures !(Filter(uri, requiredKey, Some(k1)).PassOn? && Filter(uri, requiredKey, Some(k2)).PassOn?)
  {
  }
}
