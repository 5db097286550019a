/**
 * The media settings derived from the environment: placeholder detection
 * for the remote-store credentials, the storage driver chosen from them,
 * and the public base URL of locally stored files.
 */
module EnvConfig {
  import opened Common
  import opened JsString

  /** The sample credentials the configuration ships with. */
  const CloudNamePlaceholder := "dcmb4ila2"
  const ApiKeyPlaceholder := "355744866469354"
  const ApiSecretPlaceholder := "8RLtrhTPu-u8e5gYezs6C-mcBhY"
  const DefaultPort := "5000"

  datatype StorageDriver = Local | Cloudinary

  function Normalized(value: string): string {
    ToLower(Trim(value))
  }

  /** isPlaceholder: a blank value, the given placeholder (ignoring case and
      surrounding whitespace; an empty placeholder is not consulted), or
      anything starting with "your-". */
  function IsPlaceholder(value: string, placeholder: Option<string>): bool {
    var normalized := Normalized(value);
    if |normalized| == 0 then true
    else if placeholder.Some? && placeholder.value != "" && normalized == Normalized(placeholder.value) then true
    else StartsWith(normalized, "your-")
  }

  lemma IsPlaceholderIff(value: string, placeholder: Option<string>)
    ensures IsPlaceholder(value, placeholder) <==>
              || AllWhitespace(value)
              || (placeholder.Some? && placeholder.value != "" && Normalized(value) == Normalized(placeholder.value))
              || StartsWith(Normalized(value), "your-")
  {
    TrimEmptyIff(value);
  }

  /** All three credentials are real values. */
  function HasCloudinaryConfig(cloudName: string, apiKey: string, apiSecret: string): bool {
    && !IsPlaceholder(cloudName, Some(CloudNamePlaceholder))
    && !IsPlaceholder(apiKey, Some(ApiKeyPlaceholder))
    && !IsPlaceholder(apiSecret, Some(ApiSecretPlaceholder))
  }

  /** A lower-case string without surrounding whitespace is its own normal form. */
  lemma NormalizedOfPlain(s: string)
    requires s != [] ==> !IsWhitespace(s[0]) && !IsWhitespace(s[|s| - 1])
    requires ToLower(s) == s
    ensures Normalized(s) == s
  {
    TrimOfTrimmed(s);
  }

  /** The shipped sample cloud name counts as a missing credential. */
  lemma ShippedCredentialsAreMissing(apiKey: string, apiSecret: string)
    ensures !HasCloudinaryConfig(CloudNamePlaceholder, apiKey, apiSecret)
  {
    ToLowerOfLower(CloudNamePlaceholder);
    NormalizedOfPlain(CloudNamePlaceholder);
  }

  /** The driver asked for; cloudinary when none is. */
  function Requested(requested: Option<StorageDriver>): StorageDriver {
    if requested.Some? then requested.value else Cloudinary
  }

  function SelectStorageDriver(requested: Option<StorageDriver>, cloudName: string, apiKey: string,
                               apiSecret: string): StorageDriver
  {
    if Requested(requested) == Local then Local
    else if HasCloudinaryConfig(cloudName, apiKey, apiSecret) then Cloudinary
    else Local
  }

  /** The fallback warning is printed when cloudinary was asked for but the
      local store is used. */
  function FallbackWarning(requested: Option<StorageDriver>, cloudName: string, apiKey: string,
                           apiSecret: string): bool
  {
    Requested(requested) == Cloudinary && SelectStorageDriver(requested, cloudName, apiKey, apiSecret) == Local
  }

  /** Local storage whenever it is asked for; the remote store exactly when
      it is asked for (or nothing is) and all credentials are real; the
      warning exactly when the remote store was wanted but lacks credentials. */
  lemma StorageDriverChoice(requested: Option<StorageDriver>, cloudName: string, apiKey: string, apiSecret: string)
    ensures requested == Some(Local) ==> SelectStorageDriver(requested, cloudName, apiKey, apiSecret) == Local
    ensures SelectStorageDriver(requested, cloudName, apiKey, apiSecret) == Cloudinary <==>
              requested != Some(Local) && HasCloudinaryConfig(cloudName, apiKey, apiSecret)
    ensures FallbackWarning(requested, cloudName, apiKey, apiSecret) <==>
              requested != Some(Local) && !HasCloudinaryConfig(cloudName, apiKey, apiSecret)
  {
  }

  /** The public base URL: the configured one, or http://localhost:<PORT>
      (PORT defaulting to 5000), without one trailing '/'. */
  function PublicBaseUrl(configured: Option<string>, port: Option<string>): (r: string)
    ensures var fallback := if configured.Some? then configured.value
                            else "http://localhost:" + (if port.Some? then port.value else DefaultPort);
            && (EndsWith(fallback, "/") ==> r + "/" == fallback)
            && (!EndsWith(fallback, "/") ==> r == fallback)
  {
    var fallback := if configured.Some? then configured.value
                    else "http://localhost:" + (if port.Some? then port.value else DefaultPort);
    if EndsWith(fallback, "/") then fallback[..|fallback| - 1] else fallback
  }

  /** Only one slash goes: a URL ending in "//" keeps one of them. */
  lemma OnlyOneSlashRemoved(url: string)
    ensures PublicBaseUrl(Some(url + "//"), None) == url + "/"
  {
    assert (url + "//")[..|url + "//"| - 1] == url + "/";
  }
}
