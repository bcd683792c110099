/** The older key refresher (pkgs/basescripts/scripts/copilotkey.js): the
    key lives in the `COPILOT_API_KEY` environment variable, counts as valid
    up to its expiry itself, and `main` replaces it with a fetched key. */
module LegacyCopilotKey {
  import opened Wrappers
  import opened KeyText
  import opened GitHubToken
  import CopilotKey

  /** `checkExistingKey`: the variable is set, not empty, holds
      `exp=<digits>`, and that time is still ahead (no margin). */
  function LegacyCheckExistingKey(envKey: Option<string>, nowMillis: int): (valid: bool)
    ensures envKey.None? || envKey == Some("") ==> !valid
    ensures envKey.Some? && ExpValue(envKey.value).None? ==> !valid
  {
    match envKey
    case None => false
    case Some(currentKey) =>
      if currentKey == "" then false
      else
        match ExpValue(currentKey)
        case None => false
        case Some(expTimestamp) => expTimestamp > CopilotKey.EpochSeconds(nowMillis)
  }

  /** The legacy rule accepts exactly the keys whose expiry is after now. */
  lemma LegacyValidExactly(envKey: Option<string>, nowMillis: int)
    ensures LegacyCheckExistingKey(envKey, nowMillis)
            <==> envKey.Some? && ExpValue(envKey.value).Some?
                 && ExpValue(envKey.value).value > CopilotKey.EpochSeconds(nowMillis)
  {
    if envKey == Some("") {
      NoExpInEmpty();
    }
  }

  lemma NoExpInEmpty()
    ensures ExpValue("") == None
  {
    NoExp("");
  }

  /** The two refreshers read the same key differently: the keys-file rule
      accepts a key only if the legacy rule does, and the two disagree
      exactly when the key expires within the next fifteen minutes. */
  lemma ThresholdOnlyNarrows(content: string, nowMillis: int)
    requires KeyValue(content).Some?
    ensures CopilotKey.CheckExistingKey(CopilotKey.Present(content), nowMillis)
            ==> LegacyCheckExistingKey(KeyValue(content), nowMillis)
    ensures LegacyCheckExistingKey(KeyValue(content), nowMillis)
            && !CopilotKey.CheckExistingKey(CopilotKey.Present(content), nowMillis)
            <==> CopilotKey.StoredExpiry(content).Some?
                 && CopilotKey.EpochSeconds(nowMillis) < CopilotKey.StoredExpiry(content).value
                 <= CopilotKey.EpochSeconds(nowMillis) + CopilotKey.RefreshThreshold
  {
    LegacyValidExactly(KeyValue(content), nowMillis);
  }

  /** The process environment the script runs in. */
  class Environment {
    var copilotApiKey: Option<string>

    constructor (key: Option<string>)
      ensures copilotApiKey == key
    {
      copilotApiKey := key;
    }
  }

  /** How `main` ends. */
  datatype Outcome =
    | KeyStillValid
    | LookupFailed(message: string)
    | FetchFailed
    | Refreshed(newKey: string, exportLine: string)

  /** The exit status each outcome leads to. */
  function ExitCode(outcome: Outcome): (code: int)
    ensures code == 0 <==> outcome.KeyStillValid? || outcome.Refreshed?
    ensures code == 1 <==> outcome.LookupFailed? || outcome.FetchFailed?
  {
    match outcome
    case KeyStillValid => 0
    case LookupFailed(_) => 1
    case FetchFailed => 1
    case Refreshed(_, _) => 0
  }

  /** The line printed for a parent shell to evaluate. */
  function ExportLine(newKey: string): string {
    "export COPILOT_API_KEY='" + newKey + "'"
  }

  /** `main`: keep a valid key; otherwise look up the GitHub token, fetch a
      key with it (`fetchNewKey`, given as `fetch`, None when it fails) and
      store that key in the environment. */
  method RefreshKey(env: Environment, hosts: ConfigFile, apps: ConfigFile, nowMillis: int,
                    fetch: string -> Option<string>) returns (outcome: Outcome)
    modifies env
    ensures LegacyCheckExistingKey(old(env.copilotApiKey), nowMillis) ==> outcome == KeyStillValid
    ensures outcome == KeyStillValid ==> LegacyCheckExistingKey(old(env.copilotApiKey), nowMillis)
    ensures !LegacyCheckExistingKey(old(env.copilotApiKey), nowMillis) && FindToken([hosts, apps]).Err?
            ==> outcome == LookupFailed(TokenNotFound)
    ensures !LegacyCheckExistingKey(old(env.copilotApiKey), nowMillis) && FindToken([hosts, apps]).Ok?
            ==> match fetch(FindToken([hosts, apps]).value)
                case None => outcome == FetchFailed
                case Some(k) => outcome == Refreshed(k, ExportLine(k))
    ensures outcome.Refreshed? ==> env.copilotApiKey == Some(outcome.newKey)
    ensures !outcome.Refreshed? ==> env.copilotApiKey == old(env.copilotApiKey)
  {
    if LegacyCheckExistingKey(env.copilotApiKey, nowMillis) {
      return KeyStillValid;
    }
    var token := GetGitHubToken(hosts, apps);
    if token.Err? {
      return LookupFailed(token.error);
    }
    var fetched := fetch(token.value);
    if fetched.None? {
      return FetchFailed;
    }
    env.copilotApiKey := Some(fetched.value);
    outcome := Refreshed(fetched.value, ExportLine(fetched.value));
  }
}
