/** Shared vocabulary: optional values, results with an error, and the process environment. */
module Common {

  datatype Option<+T> = None | Some(value: T)

  datatype Result<+T, +E> = Success(value: T) | Failure(error: E)

  /** The process environment: variable name to value. An unset variable is simply absent. */
  type Env = map<string, string>

  /** `process.env[key]` used in a boolean context: an unset variable and the empty
      string are both falsy, so only a non-empty value comes back. */
  function Truthy(env: Env, key: string): (r: Option<string>)
    ensures r.Some? ==> key in env && r.value == env[key] && r.value != ""
    ensures r.None? ==> key !in env || env[key] == ""
  {
    if key in env && env[key] != "" then Some(env[key]) else None
  }
}
