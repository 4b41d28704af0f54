/** The deployment settings read from the process environment: all four must be set and
    non-empty, or no settings are produced at all. */
module Environment {
  import opened Common

  datatype Environment = Environment(accountId: string, region: string, topicName: string, baseArn: string)

  const AccountIdVar := "ACCOUNT_ID"
  const RegionVar := "REGION"
  const TopicNameVar := "TOPIC_NAME"
  const BaseArnVar := "BASE_ARN"

  const MissingVariables := "Missing environment variables"

  /** A variable is present for this check when it is set to a non-empty value. */
  predicate Present(env: Env, key: string)
  {
    key in env && env[key] != ""
  }

  /** Reads the four variables; throws (here: `Failure`) when any of them is unset or empty. */
  function GetEnvironment(env: Env): (r: Result<Environment, string>)
    ensures r.Success? <==>
      Present(env, AccountIdVar) && Present(env, RegionVar) && Present(env, TopicNameVar) && Present(env, BaseArnVar)
    ensures r.Success? ==> r.value == Environment(env[AccountIdVar], env[RegionVar], env[TopicNameVar], env[BaseArnVar])
    ensures r.Failure? ==> r.error == MissingVariables
  {
    var accountId := Truthy(env, AccountIdVar);
    var region := Truthy(env, RegionVar);
    var topicName := Truthy(env, TopicNameVar);
    var baseArn := Truthy(env, BaseArnVar);
    if accountId.None? || region.None? || topicName.None? || baseArn.None? then
      Failure(MissingVariables)
    else
      Success(Environment(accountId.value, region.value, topicName.value, baseArn.value))
  }

  /** All or nothing: a returned record never has an empty field. */
  lemma NeverPartial(env: Env)
    requires GetEnvironment(env).Success?
    ensures var e := GetEnvironment(env).value;
      e.accountId != "" && e.region != "" && e.topicName != "" && e.baseArn != ""
  {
  }

  /** Setting a variable to the empty string is the same as leaving it unset. */
  lemma EmptyIsUnset(env: Env, key: string)
    requires key == AccountIdVar || key == RegionVar || key == TopicNameVar || key == BaseArnVar
    ensures GetEnvironment(env[key := ""]) == GetEnvironment(env - {key})
  {
  }

  /** Only the four variables matter: two environments that agree on them give the same answer. */
  lemma OnlyFourVariablesMatter(env: Env, env': Env)
    requires forall k :: k in {AccountIdVar, RegionVar, TopicNameVar, BaseArnVar} ==>
      (k in env <==> k in env') && (k in env ==> env[k] == env'[k])
    ensures GetEnvironment(env) == GetEnvironment(env')
  {
  }
}
