/**
 * `ApiKeyGuard.canActivate`: the `Authorization` header, with an optional
 * `"ApiKey "` prefix stripped, must equal the configured key exactly. The
 * configured key (the `API_KEY` environment variable) is a parameter; `None`
 * stands for an unset variable.
 */
module ApiKeyGuard {
  import opened Wrappers
  import opened Strings

  const Prefix: string := "ApiKey "

  /** The key carried by a header: the text after an exact, case-sensitive `"ApiKey "`, else the whole header. */
  function ExtractKey(header: string): (key: string)
    ensures StartsWith(header, Prefix) ==> header == Prefix + key
    ensures !StartsWith(header, Prefix) ==> key == header
    ensures |key| <= |header|
  {
    if StartsWith(header, Prefix) then
      assert header == header[..|Prefix|] + header[|Prefix|..];
      header[|Prefix|..]
    else
      header
  }

  /**
   * The guard's verdict. A missing or empty header is refused; otherwise the
   * extracted key must equal the configured one, so an unset key refuses all.
   */
  function CanActivate(authHeader: Option<string>, configuredKey: Option<string>): (ok: bool)
    ensures authHeader.None? || authHeader == Some("") ==> !ok
    ensures configuredKey.None? ==> !ok
    ensures ok ==> authHeader.value == configuredKey.value || authHeader.value == Prefix + configuredKey.value
  {
    match authHeader
    case None => false
    case Some(header) =>
      if header == "" then false
      else configuredKey == Some(ExtractKey(header))
  }

  /**
   * Independent description of the accepted headers for a configured key:
   * `"ApiKey " + key`, or the bare key when the key does not itself begin
   * with `"ApiKey "` and is not empty.
   */
  lemma CanActivateIff(header: string, key: string)
    ensures CanActivate(Some(header), Some(key)) <==>
      (header == Prefix + key || (header == key && key != "" && !StartsWith(key, Prefix)))
  {
    if header == Prefix + key {
      assert StartsWith(header, Prefix) by {
        assert header[..|Prefix|] == Prefix;
      }
      assert header[|Prefix|..] == key;
    }
  }

  /** A prefixed header always carries exactly the text after the prefix, even an empty key. */
  lemma PrefixedHeaderAccepted(key: string)
    ensures CanActivate(Some(Prefix + key), Some(key))
    ensures CanActivate(Some("ApiKey "), Some(""))
  {
    CanActivateIff(Prefix + key, key);
    CanActivateIff("ApiKey ", "");
  }

  /** The prefix is case-sensitive: `"apikey secret"` is compared whole. */
  lemma PrefixIsCaseSensitive()
    ensures !CanActivate(Some("apikey secret"), Some("secret"))
    ensures CanActivate(Some("apikey secret"), Some("apikey secret"))
  {
    assert !StartsWith("apikey secret", Prefix) by {
      assert "apikey secret"[0] != Prefix[0];
    }
  }
}
