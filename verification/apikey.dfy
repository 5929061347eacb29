/** The optional API-key check remote-server.js puts in front of its upload and listing
    routes: the key is read from the `Authorization` header (with `Bearer ` removed) or
    from the `apiKey` query parameter, and compared with the configured `API_KEY`. */
module ApiKey {
  import opened Wrappers
  import opened Strings

  /** What the middleware does with a request: hand it on, or answer 401. */
  datatype Decision = Next | Unauthorized

  /** The status the middleware itself sends: 401 for a refusal, and none when it calls
      `next()` and leaves the answer to the route. */
  function StatusOf(d: Decision): (status: Option<nat>)
    ensures status == Some(401) <==> d == Unauthorized
    ensures status.None? <==> d == Next
  {
    match d
    case Next => None
    case Unauthorized => Some(401)
  }

  /** `req.headers.authorization?.replace('Bearer ', '') || req.query.apiKey`: the header
      with its first `Bearer ` removed, unless that is absent or empty, in which case the
      query parameter (which may itself be absent). */
  function SuppliedKey(authorization: Option<string>, queryKey: Option<string>): Option<string>
  {
    match authorization
    case Some(h) =>
      var stripped := ReplaceFirst(h, "Bearer ", "");
      if stripped != "" then Some(stripped) else queryKey
    case None => queryKey
  }

  /** `verifyApiKey`: an unset or empty `API_KEY` lets everything through; otherwise the
      supplied key must be present, non-empty and equal to it. */
  function VerifyApiKey(authorization: Option<string>, queryKey: Option<string>,
                        requiredKey: Option<string>): Decision
  {
    if requiredKey.None? || requiredKey.value == "" then Next
    else
      match SuppliedKey(authorization, queryKey)
      case None => Unauthorized
      case Some(k) => if k == "" || k != requiredKey.value then Unauthorized else Next
  }
}

module ApiKeyProperties {
  import opened Wrappers
  import opened Strings
  import opened ApiKey

  /** Removing a leading `p` from `p + t` leaves `t`. */
  lemma ReplaceLeading(p: string, t: string)
    ensures ReplaceFirst(p + t, p, "") == t
  {
    assert StartsWith(p + t, p) by {
      assert (p + t)[..|p|] == p;
    }
    assert (p + t)[|p|..] == t;
  }

  /** Without a configured key every request passes, whatever it carries. */
  lemma OpenWithoutKey(authorization: Option<string>, queryKey: Option<string>, requiredKey: Option<string>)
    requires requiredKey.None? || requiredKey == Some("")
    ensures VerifyApiKey(authorization, queryKey, requiredKey) == Next
  {
  }

  /** With a configured key, a request passes exactly when the key it supplies is that
      key; every other request gets status 401. */
  lemma PassesIffKeyMatches(authorization: Option<string>, queryKey: Option<string>, requiredKey: string)
    requires requiredKey != ""
    ensures VerifyApiKey(authorization, queryKey, Some(requiredKey)) == Next
        <==> SuppliedKey(authorization, queryKey) == Some(requiredKey)
    ensures StatusOf(VerifyApiKey(authorization, queryKey, Some(requiredKey))) == Some(401)
        <==> SuppliedKey(authorization, queryKey) != Some(requiredKey)
  {
  }

  /** A `Bearer` header carrying a non-empty key supplies that key; the query parameter is
      not consulted. */
  lemma BearerSuppliesKey(key: string, queryKey: Option<string>)
    requires key != ""
    ensures SuppliedKey(Some("Bearer " + key), queryKey) == Some(key)
  {
    ReplaceLeading("Bearer ", key);
  }

  /** A header without `Bearer ` in it is taken as the key itself. */
  lemma RawHeaderIsKey(header: string, queryKey: Option<string>)
    requires header != ""
    requires forall j :: 0 <= j <= |header| ==> !OccursAt(header, "Bearer ", j)
    ensures SuppliedKey(Some(header), queryKey) == Some(header)
  {
  }

  /** The query parameter is used exactly when the header is absent or leaves nothing
      once `Bearer ` is removed. */
  lemma QueryIsFallback(authorization: Option<string>, queryKey: Option<string>)
    ensures SuppliedKey(authorization, queryKey) == queryKey
        || (authorization.Some? && SuppliedKey(authorization, queryKey) == Some(ReplaceFirst(authorization.value, "Bearer ", "")))
    ensures (authorization.None? || ReplaceFirst(authorization.value, "Bearer ", "") == "")
        ==> SuppliedKey(authorization, queryKey) == queryKey
    ensures (authorization.Some? && ReplaceFirst(authorization.value, "Bearer ", "") != "")
        ==> SuppliedKey(authorization, queryKey) == Some(ReplaceFirst(authorization.value, "Bearer ", ""))
  {
  }

  /** A bare `Bearer ` header with no key falls back to the query parameter, so the key
      may come from the query string alone. */
  lemma EmptyBearerUsesQuery(key: string)
    requires key != ""
    ensures VerifyApiKey(Some("Bearer "), Some(key), Some(key)) == Next
    ensures VerifyApiKey(None, Some(key), Some(key)) == Next
    ensures VerifyApiKey(None, None, Some(key)) == Unauthorized
  {
    ReplaceLeading("Bearer ", "");
    assert "Bearer " + "" == "Bearer ";
  }
}
