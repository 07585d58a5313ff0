/** `readEnv` of run.js: a setting is looked up under four names, and JavaScript's
    `||` chain decides which one wins. */
module Env {
  import opened JsValues

  /** The process environment: names to string values. */
  type Environment = map<string, string>

  /** The prefix Azure puts in front of connection-string settings. */
  const AzurePrefix: string := "CUSTOMCONNSTR_"

  /** `process.env[k]`. */
  function Get(env: Environment, k: string): (v: Value)
    ensures v.Str? <==> k in env
    ensures v.Str? ==> v.s == env[k]
  {
    if k in env then Str(env[k]) else Undefined
  }

  /** The names consulted for `key`, in the order the `||` chain tries them. */
  function Candidates(key: string): (ks: seq<string>)
    ensures |ks| == 4
  {
    [key, ToLowerCase(key), AzurePrefix + key, AzurePrefix + ToLowerCase(key)]
  }

  /** `readEnv(key, defaultVal)`: the value of the first candidate name whose value
      is non-empty. When none is, the `||` chain evaluates to its last operand, so
      the result is the fourth candidate's value ("") if that name is set at all,
      and the default only when it is not. */
  function ReadEnv(env: Environment, key: string, default: Value): (r: Value)
    ensures forall i ::
              (0 <= i < 4 && Truthy(Get(env, Candidates(key)[i]))
               && (forall j :: 0 <= j < i ==> !Truthy(Get(env, Candidates(key)[j]))))
              ==> r == Get(env, Candidates(key)[i])
    ensures (forall i :: 0 <= i < 4 ==> !Truthy(Get(env, Candidates(key)[i])))
      ==> r == (if Candidates(key)[3] in env then Str("") else default)
  {
    var ks := Candidates(key);
    var val := Or(Or(Or(Get(env, ks[0]), Get(env, ks[1])), Get(env, ks[2])), Get(env, ks[3]));
    if val != Undefined then val else default
  }

  /** The setting is truthy exactly when one of the candidate names holds a non-empty
      value, or, with none of them set at all under the last name, the default is
      truthy. */
  lemma ReadEnvTruthy(env: Environment, key: string, default: Value)
    ensures Truthy(ReadEnv(env, key, default)) <==>
      (exists i :: 0 <= i < 4 && Truthy(Get(env, Candidates(key)[i])))
      || (Candidates(key)[3] !in env && Truthy(default))
  {
  }

  /** The empty string comes out of `readEnv` only from the fourth candidate name
      being set to "" (or from an empty default): an empty value under any of the
      first three names falls through. */
  lemma ReadEnvEmpty(env: Environment, key: string, default: Value)
    requires ReadEnv(env, key, default) == Str("")
    ensures (Candidates(key)[3] in env && env[Candidates(key)[3]] == "") || default == Str("")
  {
  }
}
