/**
 * The shared-secret check that guards the bot-facing endpoints of the v1
 * router (`check_api_key`).
 */
module ApiKey {
  import opened Common

  /**
   * `check_api_key`: `authorization` is the `Authorization` header (`None`
   * when the request has none) and `apiKey` the configured `LINKER_API_KEY`.
   * The header is split on single spaces; exactly two fields are required and
   * only the second is compared with the key.
   */
  function CheckApiKey(authorization: Option<string>, apiKey: Option<string>): (ok: bool)
    ensures ok ==> authorization.Some? && apiKey.Some? && SchemeAndKey(authorization.value, apiKey.value)
  {
    if apiKey.None? then false
    else if authorization.None? then false
    else
      var parts := Split(authorization.value, ' ');
      if |parts| != 2 then false
      else
        JoinTwo(parts, ' ');
        assert authorization.value[..|parts[0]|] == parts[0];
        parts[1] == apiKey.value
  }

  /**
   * A header of the form `<word> <key>`: one space, a space-free first word,
   * and the key itself after it.
   */
  predicate SchemeAndKey(header: string, key: string) {
    && ' ' !in key
    && |header| > |key|
    && header[|header| - |key| - 1] == ' '
    && header[|header| - |key|..] == key
    && ' ' !in header[..|header| - |key| - 1]
  }

  /**
   * The check accepts exactly the headers `<word> <key>` with no other space,
   * whatever the first word is.
   */
  lemma CheckApiKeyAccepts(authorization: Option<string>, apiKey: Option<string>)
    ensures CheckApiKey(authorization, apiKey)
        <==> authorization.Some? && apiKey.Some? && SchemeAndKey(authorization.value, apiKey.value)
  {
    if authorization.Some? && apiKey.Some? {
      var h, k := authorization.value, apiKey.value;
      if SchemeAndKey(h, k) {
        var w := h[..|h| - |k| - 1];
        assert h == w + [' '] + k;
        SplitAtFirstSeparator(w, ' ', k);
        SplitWithoutSeparator(k, ' ');
      }
    }
  }

  /** The scheme word is never inspected: `Basic <key>` passes as well as `Bearer <key>`. */
  lemma SchemeWordIgnored(scheme: string, key: string)
    requires ' ' !in scheme && ' ' !in key
    ensures CheckApiKey(Some(scheme + " " + key), Some(key))
  {
    var h := scheme + " " + key;
    assert h[..|h| - |key| - 1] == scheme;
    assert h[|h| - |key|..] == key;
    CheckApiKeyAccepts(Some(h), Some(key));
  }
}
