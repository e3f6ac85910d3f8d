/** `get_socrata_app_token`: where the Socrata API token comes from. */
module AppToken {
  import opened Wrappers
  import opened Errors

  /** The two command-line options; argparse leaves an option that was not given as `None`. */
  datatype TokenArgs = TokenArgs(socrataAppToken: Option<string>, socrataAppTokenEnvVar: Option<string>)

  /** Python truthiness of an optional string: `None` and `''` are false. */
  predicate Truthy(o: Option<string>) {
    o.Some? && o.value != ""
  }

  /** The token: the command-line value if it is truthy, else the value of the
      environment variable the other option names (failing with the lookup
      error if it is unset, as the handler evidently means to), else no token. */
  function GetSocrataAppToken(args: TokenArgs, environ: map<string, string>): (r: Result<Option<string>, Error>)
    ensures Truthy(args.socrataAppToken) ==> r == Ok(Some(args.socrataAppToken.value))
    ensures !Truthy(args.socrataAppToken) && Truthy(args.socrataAppTokenEnvVar) ==>
      var name := args.socrataAppTokenEnvVar.value;
      && (r.Ok? <==> name in environ)
      && (r.Ok? ==> r.value == Some(environ[name]))
      && (r.Err? ==> r.error == EnvVarNotSet(name))
    ensures r == Ok(None) <==> !Truthy(args.socrataAppToken) && !Truthy(args.socrataAppTokenEnvVar)
  {
    if Truthy(args.socrataAppToken) then
      Ok(Some(args.socrataAppToken.value))
    else if Truthy(args.socrataAppTokenEnvVar) then
      var name := args.socrataAppTokenEnvVar.value;
      if name in environ then Ok(Some(environ[name])) else Err(EnvVarNotSet(name))
    else
      Ok(None)
  }

  /** A truthy command-line token makes the environment and the other option irrelevant. */
  lemma CommandLineTokenWins(token: string, envVar1: Option<string>, envVar2: Option<string>,
                             environ1: map<string, string>, environ2: map<string, string>)
    requires token != ""
    ensures GetSocrataAppToken(TokenArgs(Some(token), envVar1), environ1)
         == GetSocrataAppToken(TokenArgs(Some(token), envVar2), environ2)
         == Ok(Some(token))
  {
  }

  /** The function as written: its handler is `except e:`, and `e` is not
      bound when the lookup fails, so evaluating the handler's expression
      raises `NameError` in place of the lookup error, and the error is never
      logged. Every other input behaves as intended. */
  function GetSocrataAppTokenAsWritten(args: TokenArgs, environ: map<string, string>): (r: Result<Option<string>, Error>)
    ensures r.Err? ==> r.error == NameNotDefined("e")
  {
    if Truthy(args.socrataAppToken) then
      Ok(Some(args.socrataAppToken.value))
    else if Truthy(args.socrataAppTokenEnvVar) then
      var name := args.socrataAppTokenEnvVar.value;
      if name in environ then Ok(Some(environ[name])) else Err(NameNotDefined("e"))
    else
      Ok(None)
  }

  /** The two differ exactly on the error a missing variable raises; both
      fail on the same inputs, so no token is ever returned for it. */
  lemma AsWrittenDiffersOnlyInError(args: TokenArgs, environ: map<string, string>)
    ensures GetSocrataAppTokenAsWritten(args, environ).Ok? <==> GetSocrataAppToken(args, environ).Ok?
    ensures GetSocrataAppToken(args, environ).Ok? ==>
      GetSocrataAppTokenAsWritten(args, environ) == GetSocrataAppToken(args, environ)
    ensures GetSocrataAppToken(args, environ).Err? ==>
      && GetSocrataAppToken(args, environ).error == EnvVarNotSet(args.socrataAppTokenEnvVar.value)
      && GetSocrataAppTokenAsWritten(args, environ).error == NameNotDefined("e")
  {
  }

  /** The input that shows it: an option naming a variable that is not set. */
  lemma UnsetVariableRaisesNameError()
    ensures var args := TokenArgs(None, Some("SOCRATA_APP_TOKEN"));
      && GetSocrataAppTokenAsWritten(args, map[]) == Err(NameNotDefined("e"))
      && GetSocrataAppToken(args, map[]) == Err(EnvVarNotSet("SOCRATA_APP_TOKEN"))
  {
  }
}
