/** The configuration check done before any request is made, and the settings read later. */
module Config {
  import opened Basics
  import opened Php

  /** What evaluating the configuration file returned: an array of settings, or something else. */
  datatype ConfigFile = NotArray | Settings(entries: map<string, Value>)

  /** The settings that must be present and non-empty, in the order they are checked. */
  const Required: seq<string> :=
    ["consumer_key", "consumer_secret", "access_token", "access_token_secret", "screen_name", "list_name"]

  /** `$config[$key]`: a missing key reads as null. */
  function Get(entries: map<string, Value>, key: string): Value
  {
    if key in entries then entries[key] else Null
  }

  /** A usable configuration: an array in which no required setting is empty. */
  predicate ConfigValid(config: ConfigFile)
  {
    config.Settings? && forall key :: key in Required ==> !IsEmpty(Get(config.entries, key))
  }

  /**
   * `validateConfig`: rejects a non-array, then checks the required settings in order and
   * stops at the first empty one, which it reports as `missing`.
   */
  method ValidateConfig(config: ConfigFile) returns (ok: bool, missing: Option<string>)
    ensures ok <==> ConfigValid(config)
    ensures ok ==> missing == None
    ensures !ok && config.Settings? ==>
      exists i :: 0 <= i < |Required| && missing == Some(Required[i])
        && IsEmpty(Get(config.entries, Required[i]))
        && forall j :: 0 <= j < i ==> !IsEmpty(Get(config.entries, Required[j]))
  {
    if !config.Settings? {
      return false, None;
    }
    var i := 0;
    while i < |Required|
      invariant 0 <= i <= |Required|
      invariant forall j :: 0 <= j < i ==> !IsEmpty(Get(config.entries, Required[j]))
    {
      if IsEmpty(Get(config.entries, Required[i])) {
        return false, Some(Required[i]);
      }
      i := i + 1;
    }
    return true, None;
  }

  /**
   * `exclude_users`: absent or null gives no handles; an array gives its values; any other
   * value is one handle (PHP's `(array)` cast).
   */
  function ExcludeHandles(entries: map<string, Value>): (r: seq<Value>)
    ensures "exclude_users" !in entries ==> r == []
    ensures Get(entries, "exclude_users").Array? ==> r == Get(entries, "exclude_users").items
    ensures !Get(entries, "exclude_users").Null? && !Get(entries, "exclude_users").Array? ==>
      r == [Get(entries, "exclude_users")]
    ensures Get(entries, "exclude_users").Null? ==> r == []
    ensures r == [] <==> Get(entries, "exclude_users") == Null || Get(entries, "exclude_users") == Array([])
  {
    match Get(entries, "exclude_users")
    case Null => []
    case Array(items) => items
    case other => [other]
  }
}
