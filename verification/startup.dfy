/** The check the server makes on its processor secret key before it
    starts: the key must be present and begin with `sk_`, otherwise the
    process exits with status 1. */
module Startup {
  import opened Wrappers
  import opened JsString

  const SecretKeyPrefix: string := "sk_"

  datatype StartupDecision = Start(secretKey: string) | Exit(status: int)

  /** `key` is the environment variable, `None` when it is unset. The server
      exits when `!key || !key.startsWith('sk_')`; the empty string is falsy. */
  function CheckSecretKey(key: Option<string>): (d: StartupDecision)
    ensures d.Start? ==> key == Some(d.secretKey)
    ensures d.Exit? ==> d.status == 1
    ensures d.Start? <==>
      key.Some? && |key.value| >= 3 && key.value[0] == 's' && key.value[1] == 'k' && key.value[2] == '_'
  {
    if key.None? || key.value == "" || !StartsWith(key.value, SecretKeyPrefix) then Exit(1)
    else Start(key.value)
  }

  /** Every key of the form `sk_...` is accepted, whatever follows the prefix. */
  lemma AcceptsEveryPrefixedKey(rest: string)
    ensures CheckSecretKey(Some("sk_" + rest)) == Start("sk_" + rest)
  {
    assert ("sk_" + rest)[..3] == "sk_";
  }

  /** Every accepted key is the prefix followed by some remainder. */
  lemma AcceptedKeyHasPrefix(key: Option<string>)
    requires CheckSecretKey(key).Start?
    ensures key.value == "sk_" + key.value[3..]
  {
    assert key.value[..3] == "sk_";
  }
}
