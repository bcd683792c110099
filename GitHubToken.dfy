/** `getGitHubToken`, the same in both key refreshers: the first truthy
    `oauth_token` among the hosts of `hosts.json`, then of `apps.json`. */
module GitHubToken {
  import opened Wrappers

  /** One host of a parsed config file, in `for ... in` order, and its
      `oauth_token` when that is a string (None when it is absent). */
  datatype HostEntry = HostEntry(host: string, oauthToken: Option<string>)

  /** A config file as the lookup finds it: not there, not readable or not
      JSON (both end in the `catch`), or parsed. */
  datatype ConfigFile = Missing | Unreadable | Parsed(entries: seq<HostEntry>)

  const TokenNotFound := "GitHub token not found in config files"

  /** `config[host]?.oauth_token` is truthy: present and not "". */
  predicate Truthy(token: Option<string>) {
    token.Some? && token.value != ""
  }

  /** Index of the first host with a truthy token. */
  function FirstTokenIndex(entries: seq<HostEntry>): (r: Option<nat>)
    ensures r.Some? ==> r.value < |entries| && Truthy(entries[r.value].oauthToken)
    ensures r.Some? ==> forall j :: 0 <= j < r.value ==> !Truthy(entries[j].oauthToken)
    ensures r.None? ==> forall j :: 0 <= j < |entries| ==> !Truthy(entries[j].oauthToken)
  {
    if entries == [] then None
    else if Truthy(entries[0].oauthToken) then Some(0)
    else
      match FirstTokenIndex(entries[1..])
      case None => None
      case Some(i) => Some(i + 1)
  }

  /** The token a single config file yields, if any. */
  function TokenIn(file: ConfigFile): (r: Option<string>)
    ensures r.Some? ==> r.value != ""
    ensures r.Some? <==> file.Parsed? && exists j :: 0 <= j < |file.entries| && Truthy(file.entries[j].oauthToken)
  {
    match file
    case Missing => None
    case Unreadable => None
    case Parsed(entries) =>
      match FirstTokenIndex(entries)
      case None => None
      case Some(i) => Some(entries[i].oauthToken.value)
  }

  /** The lookup over config files tried in order. */
  function FindToken(configs: seq<ConfigFile>): (r: Result<string, string>)
    ensures r.Err? ==> r.error == TokenNotFound
    ensures r.Err? <==> forall k :: 0 <= k < |configs| ==> TokenIn(configs[k]).None?
    ensures r.Ok? ==> exists k :: 0 <= k < |configs| && TokenIn(configs[k]) == Some(r.value)
                                  && forall k' :: 0 <= k' < k ==> TokenIn(configs[k']).None?
  {
    if configs == [] then Err(TokenNotFound)
    else
      match TokenIn(configs[0])
      case Some(t) => Ok(t)
      case None =>
        var r := FindToken(configs[1..]);
        assert forall k :: 1 <= k < |configs| ==> configs[k] == configs[1..][k - 1];
        r
  }

  /** One step of the lookup: the file at `k` decides unless it has no token. */
  lemma FindTokenStep(configs: seq<ConfigFile>, k: nat)
    requires k < |configs|
    ensures TokenIn(configs[k]).Some? ==> FindToken(configs[k..]) == Ok(TokenIn(configs[k]).value)
    ensures TokenIn(configs[k]).None? ==> FindToken(configs[k..]) == FindToken(configs[k + 1..])
  {
    assert configs[k..][0] == configs[k] && configs[k..][1..] == configs[k + 1..];
  }

  /** The inner `for (const host in config)` scan of one parsed file. */
  method ScanHosts(entries: seq<HostEntry>) returns (r: Option<string>)
    ensures r == TokenIn(Parsed(entries))
  {
    var i := 0;
    while i < |entries|
      invariant 0 <= i <= |entries|
      invariant forall j :: 0 <= j < i ==> !Truthy(entries[j].oauthToken)
    {
      if Truthy(entries[i].oauthToken) {
        assert FirstTokenIndex(entries) == Some(i);
        return Some(entries[i].oauthToken.value);
      }
      i := i + 1;
    }
    assert FirstTokenIndex(entries).None?;
    r := None;
  }

  /** `getGitHubToken` over `hosts.json` and `apps.json`: the files in
      order, each scanned for a token that ends the search at once, the
      missing or unreadable ones skipped. */
  method GetGitHubToken(hosts: ConfigFile, apps: ConfigFile) returns (r: Result<string, string>)
    ensures r == FindToken([hosts, apps])
  {
    var configs := [hosts, apps];
    var k := 0;
    while k < |configs|
      invariant 0 <= k <= |configs|
      invariant FindToken(configs[k..]) == FindToken(configs)
    {
      FindTokenStep(configs, k);
      if configs[k].Parsed? {
        var token := ScanHosts(configs[k].entries);
        if token.Some? {
          return Ok(token.value);
        }
      }
      k := k + 1;
    }
    assert configs[k..] == [];
    r := Err(TokenNotFound);
  }

  /** A token in `hosts.json` wins over anything in `apps.json`. */
  lemma HostsFileFirst(hosts: ConfigFile, apps: ConfigFile)
    requires TokenIn(hosts).Some?
    ensures FindToken([hosts, apps]) == Ok(TokenIn(hosts).value)
  {
  }

  /** A file without a token, missing or unreadable, passes the search on
      to `apps.json`. */
  lemma HostsFileSkipped(hosts: ConfigFile, apps: ConfigFile)
    requires TokenIn(hosts).None?
    ensures FindToken([hosts, apps]) == FindToken([apps])
  {
    assert [hosts, apps][1..] == [apps];
  }

  /** The token found is the first truthy one of the first file that has
      one, never an empty or absent `oauth_token`. */
  lemma FoundTokenIsFirstInItsFile(hosts: ConfigFile, apps: ConfigFile)
    requires FindToken([hosts, apps]).Ok?
    ensures exists k, i :: 0 <= k < 2 && [hosts, apps][k].Parsed?
                           && FirstTokenIndex([hosts, apps][k].entries) == Some(i)
                           && [hosts, apps][k].entries[i].oauthToken == Some(FindToken([hosts, apps]).value)
    ensures forall k :: 0 <= k < 2 && TokenIn([hosts, apps][k]).Some? ==>
              FindToken([hosts, apps]).value == TokenIn([hosts, apps][k]).value
              || (k == 1 && TokenIn(hosts).Some?)
  {
    var configs := [hosts, apps];
    var k :| 0 <= k < 2 && TokenIn(configs[k]) == Some(FindToken(configs).value);
    assert configs[k].Parsed? && FirstTokenIndex(configs[k].entries).Some?;
  }
}
