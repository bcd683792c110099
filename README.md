# LiteLLM proxy hook and Copilot key refreshers, modelled in Dafny

This project models three small pieces of logic from a NixOS/home-manager
configuration. Each is stated over explicit inputs, and properties about
each are proved.

- **The LiteLLM proxy handler** (`home-manager/llm/custom_litellm.py`).
  - `async_pre_call_hook` rewrites the messages of a request for Qwen
    models that are not "thinking" variants:
    - it takes out the first `system` message, or makes an empty one;
    - it joins `/no_think` onto that message's content with one space and
      strips the result;
    - it puts the message first.

    The hook updates the request dictionary in place. Here that
    dictionary is the class `PreCallHook.CallData`, and the method
    `PreCallHook.AsyncPreCallHook` is proved against the list function
    `PreCallHook.NoThinkRewrite`.
  - `log_event` and the success and failure hooks turn a call's keyword
    arguments and response into one usage record:
    - a null response gives only a warning;
    - GitHub Copilot calls cost 0.0;
    - any other call's cost comes from `litellm.completion_cost`, which is
      a function parameter whose exception escapes;
    - missing usage counts read as 0;
    - the prompt preview is the first ten words of the first user message.
- **The Copilot key refresher** (`pkgs/llmscripts/scripts/copilotkey.js`),
  which keeps the key in a keys file:
  - the expiry check with its fifteen-minute margin;
  - the rewrite of the file's text (`updateKeysFile`), which replaces the
    first `COPILOT_API_KEY=` line or appends one;
  - the search for a GitHub OAuth token over `hosts.json` and then
    `apps.json`.

  The regular expressions involved are modelled as JavaScript defines
  them:
  - `[^\n]*` reads up to a "\n";
  - `.` stops at any line terminator;
  - `$` (without the `m` flag) matches only at the end of the text;
  - the replacement string's `$` patterns are expanded.
- **The older key refresher** (`pkgs/basescripts/scripts/copilotkey.js`),
  which keeps the key in the `COPILOT_API_KEY` environment variable:
  - its expiry check has no margin;
  - `main` keeps a valid key, or looks up the token, fetches a key and
    stores it in the environment (the class
    `LegacyCopilotKey.Environment`).

The files, in dependency order:

- `Wrappers.dfy`: Option and Result.
- `Text.dfy`: the string operations both languages supply:
  - substring search;
  - Python's `strip`, `split()` and `" ".join`.
- `PreCallHook.dfy` and `UsageLog.dfy`: the proxy handler.
- `KeyText.dfy`: the refresher's regular expressions and `replace`.
- `CopilotKey.dfy`: the keys-file refresher.
- `GitHubToken.dfy`: the token search, which is identical in both scripts.
- `LegacyCopilotKey.dfy`: the environment-variable refresher.

Two safeguards one might expect are absent from the code, and the model
does not add them:

- **No guard against a second `/no_think`.** Nothing checks whether the
  directive is already there. Rewriting twice leaves
  `/no_think /no_think`, as `PreCallHook.RewriteTwiceRepeatsDirective`
  proves.
- **No handling of pricing failures.** A failure of `completion_cost` is
  not caught. It ends `log_event` and suppresses the failure hook's
  exception printout: see `UsageLog.LogEvent` and
  `UsageLog.LogFailureEvent`.

## Model

| member | source | states |
|---|---|---|
| PreCallHook.AsyncPreCallHook | home-manager/llm/custom_litellm.py:60-75 | `data` itself is returned and its model is untouched. A model that lacks "qwen" or ends in "think" leaves the messages unchanged. Otherwise the messages become the rewrite of the old list, where a missing or non-list value counts as empty. |
| Text.Contains | home-manager/llm/custom_litellm.py:64 | No contract of its own. It is `IndexOf(s, p).Some?`, so `Text.IndexOf` states when it holds. |
| Text.EndsWith | home-manager/llm/custom_litellm.py:64 | No contract of its own. `PreCallHook.NoThinkContentEnds` and `PreCallHook.RewriteHead` state `endswith` facts about the rewritten content. |
| Text.IndexOf | pkgs/llmscripts/scripts/copilotkey.js:21 | The index found is an occurrence with no occurrence before it. None means there is no occurrence at all. |
| Text.Strip | home-manager/llm/custom_litellm.py:72 | The result is empty, or it starts and ends with a character that is not whitespace in Python's sense. `PreCallHook.NoThinkContentShape` gives its closed form on the rewritten content. |
| Text.Words | home-manager/llm/custom_litellm.py:118 | Every element of the result is a non-empty run without whitespace. `Text.WordsOfJoin` and `UsageLog.PreviewIsFirstWords` state it further. |
| Text.JoinWords | home-manager/llm/custom_litellm.py:118 | No contract of its own. `Text.WordsOfJoin` states that splitting the join gives the words back. |
| Text.WordsOfJoin | home-manager/llm/custom_litellm.py:118 | For any list of words, splitting their space-separated join gives back exactly that list. |
| Text.Take | home-manager/llm/custom_litellm.py:118 | The result is the first n elements, or the whole sequence when it is shorter. |
| PreCallHook.IsSystem | home-manager/llm/custom_litellm.py:66 | No contract of its own. `PreCallHook.FirstSystemIndex` uses it to give the first message with role "system". |
| PreCallHook.FirstSystemIndex | home-manager/llm/custom_litellm.py:66 | The index found holds a system message and no earlier message is one. None means no message is a system message. |
| PreCallHook.NoThinkContent | home-manager/llm/custom_litellm.py:72 | No contract of its own. `PreCallHook.NoThinkContentShape`, `PreCallHook.NoThinkContentEnds` and `PreCallHook.NoThinkContentTwice` state it. |
| PreCallHook.MessagesOrEmpty | home-manager/llm/custom_litellm.py:61-63 | No contract of its own. `PreCallHook.AsyncPreCallHook` and `PreCallHook.NonListBecomesSingleSystem` state that a missing or non-list value counts as an empty list. |
| PreCallHook.NoThinkContentShape | home-manager/llm/custom_litellm.py:72 | The new content is the old content with its leading whitespace removed, then one space, then `/no_think`. Content that is all whitespace becomes `/no_think` alone. |
| PreCallHook.NoThinkContentEnds | home-manager/llm/custom_litellm.py:72 | The new content ends with `/no_think`, whatever the old content was. |
| PreCallHook.RewriteMovesFirstSystem | home-manager/llm/custom_litellm.py:66-73 | When a system message exists, the count is unchanged and the first system message, with the directive, comes first. The messages before it move up by one. Those after it, later system messages included, stay where they were. |
| PreCallHook.WithNoThink | home-manager/llm/custom_litellm.py:72 | No contract of its own. `PreCallHook.RewriteHead` states that the message put first is a system message with the rewritten content. A missing content counts as "". |
| PreCallHook.RewriteAddsSystem | home-manager/llm/custom_litellm.py:69-73 | Without a system message, exactly one message is added at the front: `{"role": "system", "content": "/no_think"}`. Every old message moves up by one, in order. The message made up before the rewrite is the constant `PreCallHook.EmptySystem`, a system message with content "". |
| PreCallHook.RewriteHead | home-manager/llm/custom_litellm.py:66-73 | After a rewrite, the first message is a system message whose content ends with `/no_think`. That content is the stripped join of the old system content and the directive. |
| PreCallHook.NonListBecomesSingleSystem | home-manager/llm/custom_litellm.py:61-74 | A triggering request whose messages are missing or not a list ends up with exactly one message, `{"role": "system", "content": "/no_think"}`. |
| PreCallHook.NoThinkContentTwice | home-manager/llm/custom_litellm.py:72 | Applying the content rewrite twice adds a second ` /no_think`. |
| PreCallHook.RewriteTwiceRepeatsDirective | home-manager/llm/custom_litellm.py:64-73 | Rewriting an already rewritten list keeps its length, and the first message then ends with `/no_think /no_think`. No de-duplication happens. |
| PreCallHook.Triggers | home-manager/llm/custom_litellm.py:64 | No contract of its own. The trigger clauses of `PreCallHook.AsyncPreCallHook` state what it decides. |
| PreCallHook.NoThinkRewrite | home-manager/llm/custom_litellm.py:66-73 | No contract of its own. `PreCallHook.RewriteMovesFirstSystem`, `PreCallHook.RewriteAddsSystem` and `PreCallHook.RewriteHead` state it. |
| UsageLog.CopilotCostIgnoresPricing | home-manager/llm/custom_litellm.py:104-107 | For an `api_base` containing "githubcopilot", the cost is 0.0 whatever the pricing function is. |
| UsageLog.FirstUserIndex | home-manager/llm/custom_litellm.py:117 | The scan for the first user message gives one of three results. A found index has role "user", and every earlier message has another role. None means every message has a role other than "user". KeyMissing("role") means some message without a role comes before any user message. |
| UsageLog.PreviewIsFirstWords | home-manager/llm/custom_litellm.py:118 | Splitting the preview again gives exactly the first ten whitespace-separated words of the content, so the preview has at most ten words. |
| UsageLog.MetadataOf | home-manager/llm/custom_litellm.py:93-98 | No contract of its own. The identifier clauses of `UsageLog.LogEvent` state that the record takes its model group, model id, deployment and api_base from it. |
| UsageLog.ModelIdOf | home-manager/llm/custom_litellm.py:97 | No contract of its own. The identifier clauses of `UsageLog.LogEvent` state that the record's model id is that of the metadata's `model_info`, None when either is missing. |
| UsageLog.IsCopilotBase | home-manager/llm/custom_litellm.py:104 | No contract of its own. `UsageLog.CopilotCostIgnoresPricing` and the cost clauses of `UsageLog.LogEvent` state what it decides. |
| UsageLog.ResolveCost | home-manager/llm/custom_litellm.py:104-107 | No contract of its own. `UsageLog.CopilotCostIgnoresPricing` and the cost clauses of `UsageLog.LogEvent` state it. |
| UsageLog.PromptText | home-manager/llm/custom_litellm.py:114-117 | Missing or empty messages, and a list without a user message, give "". Otherwise the text is the content of the first user message. If that message has no content, the result is KeyMissing("content"). A message without a role met earlier gives KeyMissing("role"). |
| UsageLog.Preview | home-manager/llm/custom_litellm.py:118 | No contract of its own. `UsageLog.PreviewIsFirstWords` states it. |
| UsageLog.UsageOrEmpty | home-manager/llm/custom_litellm.py:109-112 | No contract of its own. The token clauses of `UsageLog.LogEvent` state that each count is the `usage` field, or 0 when `usage` or that field is missing. |
| UsageLog.RecordOf | home-manager/llm/custom_litellm.py:109-135 | The printed preview has at most ten words, and it is "" for an empty prompt text. The record's other fields are stated by the contract of `UsageLog.LogEvent`. |
| UsageLog.LogEvent | home-manager/llm/custom_litellm.py:91-118 | A null response gives only the warning, naming the event type and the model, and only a null response does. Otherwise the record is printed exactly when the cost and the prompt text are both found. A pricing error comes first; otherwise the prompt text's KeyError is raised. Copilot calls never raise a pricing error and cost 0.0. Other calls take the pricing result as their cost. The record's model, model group, model id, deployment and api_base are those of `kwargs`. Each token count is the one in `usage`, or 0 when `usage` or that field is missing. The preview has at most ten words. It is the preview of the first user message's content, or "" when there are no messages or no user message. |
| UsageLog.LogSuccessEvent | home-manager/llm/custom_litellm.py:137-148 | The outcome is exactly that of `log_event` under "Async Success", so the full contract of `UsageLog.LogEvent` carries over. A null response gives only the warning, and any other response never does. |
| UsageLog.LogFailureEvent | home-manager/llm/custom_litellm.py:150-168 | The event is exactly the outcome of `log_event` under "Async Failure". The exception and traceback are printed exactly when `log_event` did not raise, and they are the ones from kwargs (None when absent). A null response gives the warning plus those details. |
| KeyText.NewlineFrom | pkgs/llmscripts/scripts/copilotkey.js:21 | `([^\n]*)` captures a run with no "\n" that stops at a "\n" or at the end of the text. |
| KeyText.KeyValue | pkgs/llmscripts/scripts/copilotkey.js:21-24 | No contract of its own. `KeyText.KeyValueSplit` states it. |
| KeyText.ExpAt | pkgs/llmscripts/scripts/copilotkey.js:25 | No contract of its own. `KeyText.FirstExp` states the first index where it holds, and `KeyText.QuotedExpValue` uses it. |
| KeyText.LeadingDigits | pkgs/llmscripts/scripts/copilotkey.js:25 | The greedy `\d+` takes a prefix that is all ASCII digits and is followed by a non-digit or the end of the text. |
| KeyText.FirstExp | pkgs/llmscripts/scripts/copilotkey.js:25 | `/exp=(\d+)/` matches at the index found and nowhere before it. None means it matches nowhere. |
| KeyText.ExpValue | pkgs/llmscripts/scripts/copilotkey.js:25-28 | No contract of its own. `KeyText.FirstExp` gives the match, and `KeyText.QuotedExpValue` and `CopilotKey.CheckExistingKey` use the number. |
| KeyText.DigitsValue | pkgs/llmscripts/scripts/copilotkey.js:28 | No contract of its own. It is `Number.parseInt(ds, 10)` on a run of decimal digits, read through `KeyText.ExpValue` by `CopilotKey.CheckExistingKey`. |
| KeyText.QuotedExpValue | pkgs/llmscripts/scripts/copilotkey.js:25 | Putting single quotes around a key, as the keys file stores it, does not change the `exp=` number read from it. |
| KeyText.IsLineTerminator | pkgs/llmscripts/scripts/copilotkey.js:108 | No contract of its own. `KeyText.LineEnd` and `KeyText.KeyLineAt` state where `.` stops because of it. |
| KeyText.LineEnd | pkgs/llmscripts/scripts/copilotkey.js:108 | `.*` runs to the first line terminator ("\n", "\r", U+2028 or U+2029) or to the end of the text. |
| KeyText.KeyLineAt | pkgs/llmscripts/scripts/copilotkey.js:108 | `/COPILOT_API_KEY=.*(\n\|$)/` matches at an index exactly when a marker starts there and the first line terminator after it is a "\n", or there is none. A match starts at the marker. Its group is "\n", or empty at the end of the text. No line terminator lies between the marker and the group. |
| KeyText.FirstKeyLine | pkgs/llmscripts/scripts/copilotkey.js:107-110 | `replace` takes the leftmost match; no earlier position matches. |
| KeyText.Splice | pkgs/llmscripts/scripts/copilotkey.js:107-110 | No contract of its own. `KeyText.SpliceLiteral` states that a template without `$` takes the match's place. `KeyText.ReplaceKeyLineAgrees` and `KeyText.ReplaceKeyLineMissesCrLine` state the `replace` built from it. |
| KeyText.SpliceLiteral | pkgs/llmscripts/scripts/copilotkey.js:107-110 | A replacement without `$` takes the place of the matched text, and the text before and after the match is kept. |
| KeyText.Substitute | pkgs/llmscripts/scripts/copilotkey.js:107-110 | No contract of its own. `KeyText.SubstituteLiteral` states the case of a template without `$`. |
| KeyText.SubstituteLiteral | pkgs/llmscripts/scripts/copilotkey.js:107-110 | A replacement string without `$` is inserted as it is. |
| KeyText.ReplaceKeyLine | pkgs/llmscripts/scripts/copilotkey.js:107-110 | No contract of its own. `KeyText.ReplaceKeyLineAgrees` and `KeyText.ReplaceKeyLineMissesCrLine` state it. |
| KeyText.KeyValueSplit | pkgs/llmscripts/scripts/copilotkey.js:21-24 | The text is what comes before the first marker, then the marker, then the value read, then a rest that is empty or starts with "\n". |
| KeyText.ReplaceKeyLineAgrees | pkgs/llmscripts/scripts/copilotkey.js:107-110 | Where the first marker's line ends in "\n" or at the end of the text, the replace as written and the corrected one give the same text. |
| KeyText.ReplaceKeyLineMissesCrLine | pkgs/llmscripts/scripts/copilotkey.js:107-110 | When the first marker's line ends in another line terminator and no later marker exists, the replace as written leaves the text unchanged. |
| CopilotKey.EpochSeconds | pkgs/llmscripts/scripts/copilotkey.js:29 | No contract of its own. `CopilotKey.CheckExistingKey`, `CopilotKey.FixedUpdateRoundTrip` and `LegacyCopilotKey.LegacyValidExactly` compare the expiry against it. |
| CopilotKey.StoredExpiry | pkgs/llmscripts/scripts/copilotkey.js:21-28 | No contract of its own. `CopilotKey.CheckExistingKey` states it: the `exp=` number of the value after the first marker, None when either is missing. |
| CopilotKey.KeyLine | pkgs/llmscripts/scripts/copilotkey.js:109 | No contract of its own. `CopilotKey.UpdateAppendsKeyLine`, `CopilotKey.KeyLineReadBack` and `CopilotKey.UpdateKeysFile` state where it is written and what the check reads back from it. |
| CopilotKey.CheckExistingKey | pkgs/llmscripts/scripts/copilotkey.js:15-37 | The result is false for an absent or unreadable file, for a file without a `COPILOT_API_KEY=` line, and for a key without `exp=<digits>`. It is true exactly when that number is greater than the current time in whole seconds plus 900. The margin of 900 seconds is the constant `CopilotKey.RefreshThreshold`. |
| CopilotKey.UpdatedKeysContent | pkgs/llmscripts/scripts/copilotkey.js:106-113 | No contract of its own. `CopilotKey.UpdateAppendsKeyLine`, `CopilotKey.AsWrittenAgreesWithFixed` and `CopilotKey.AsWrittenKeepsCrTerminatedLine` state it. |
| CopilotKey.UpdateKeysFile | pkgs/llmscripts/scripts/copilotkey.js:89-135 | The read error is rethrown exactly when the file is unreadable. An absent file gets the key line alone. A present file gets the rewritten text. |
| CopilotKey.UpdateAppendsKeyLine | pkgs/llmscripts/scripts/copilotkey.js:111-113 | Without a marker, the old text is kept as a prefix and exactly one line `COPILOT_API_KEY='<key>'\n` follows it. That line's marker is then the first one. |
| CopilotKey.FixedUpdateShape | pkgs/llmscripts/scripts/copilotkey.js:106-110 | For a key without "$", and a file with a marker, the corrected rewrite keeps the text before the first marker and the text after that line's "\n". The key line takes the place of the line in between. |
| CopilotKey.KeyLineReadBack | pkgs/llmscripts/scripts/copilotkey.js:106-113 | A key line placed after text without a marker is the line the check reads, and it gives back the quoted key. |
| CopilotKey.FixedUpdateReadsBack | pkgs/llmscripts/scripts/copilotkey.js:106-113 | For a key without "\n" and "$", the check reads exactly the quoted new key after the corrected rewrite, whatever the file held before. |
| CopilotKey.FixedUpdateRoundTrip | pkgs/llmscripts/scripts/copilotkey.js:106-113 | Checking the rewritten file at time t gives true exactly when the new key's `exp=` number N satisfies N > t + 900. |
| CopilotKey.AsWrittenAgreesWithFixed | pkgs/llmscripts/scripts/copilotkey.js:106-113 | For files whose first key line ends in "\n" or at the end of the text, the code as written writes the same text as the corrected rewrite. |
| CopilotKey.AsWrittenRoundTrip | pkgs/llmscripts/scripts/copilotkey.js:106-113 | For those files, the round trip holds for the code as written too. |
| CopilotKey.AsWrittenKeepsCrTerminatedLine | pkgs/llmscripts/scripts/copilotkey.js:107-110 | A first key line ending in "\r" with no later marker leaves the file text unchanged. |
| CopilotKey.CrLfKeysFileKeepsStaleKey | pkgs/llmscripts/scripts/copilotkey.js:106-113 | For the file `COPILOT_API_KEY='old'\r\n`, the code as written returns the text unchanged and the check still rejects it. The corrected rewrite passes the round trip. |
| GitHubToken.Truthy | pkgs/llmscripts/scripts/copilotkey.js:51 | No contract of its own. `GitHubToken.FirstTokenIndex`, `GitHubToken.TokenIn` and `GitHubToken.FoundTokenIsFirstInItsFile` state that only a present, non-empty token is taken. |
| GitHubToken.FirstTokenIndex | pkgs/llmscripts/scripts/copilotkey.js:50-54 | The host found has a truthy `oauth_token` and no earlier host has one. None means no host has one. |
| GitHubToken.TokenIn | pkgs/llmscripts/scripts/copilotkey.js:46-58 | A file yields a non-empty token exactly when it was parsed and some host in it has a truthy token. |
| GitHubToken.FindToken | pkgs/llmscripts/scripts/copilotkey.js:46-61 | The search fails, with "GitHub token not found in config files", exactly when no file yields a token. Otherwise the token comes from the first file that yields one. |
| GitHubToken.ScanHosts | pkgs/llmscripts/scripts/copilotkey.js:49-53 | The scan over the hosts of one parsed file returns the first truthy `oauth_token`, and None when no host has one. |
| GitHubToken.GetGitHubToken | pkgs/llmscripts/scripts/copilotkey.js:40-62 | The loop with early return over `hosts.json` and then `apps.json` gives the token search's result. Missing and unreadable files are skipped. |
| GitHubToken.HostsFileFirst | pkgs/basescripts/scripts/copilotkey.js:23-37 | A token in `hosts.json` wins over anything in `apps.json`. |
| GitHubToken.HostsFileSkipped | pkgs/basescripts/scripts/copilotkey.js:28-41 | A `hosts.json` without a token, or one that is missing or unreadable, hands the search to `apps.json`. |
| GitHubToken.FoundTokenIsFirstInItsFile | pkgs/basescripts/scripts/copilotkey.js:32-36 | The token returned comes from `hosts.json` or `apps.json`. It is the `oauth_token` of the first host in that file with a truthy one. A file that yields a token decides the result, unless it is `apps.json` and `hosts.json` yields one too. |
| LegacyCopilotKey.LegacyCheckExistingKey | pkgs/basescripts/scripts/copilotkey.js:9-13 | The result is false when the variable is unset or empty, and false when the key has no `exp=<digits>`. |
| LegacyCopilotKey.LegacyValidExactly | pkgs/basescripts/scripts/copilotkey.js:8-19 | The key is valid exactly when its `exp=` number is greater than the current time in whole seconds, with no margin. |
| LegacyCopilotKey.ThresholdOnlyNarrows | pkgs/llmscripts/scripts/copilotkey.js:28-32 | Whatever the newer refresher accepts, the older rule (pkgs/basescripts/scripts/copilotkey.js:15-18) accepts too. The two disagree exactly when the stored expiry lies in (now, now + 900] seconds. |
| LegacyCopilotKey.ExitCode | pkgs/basescripts/scripts/copilotkey.js:68-89 | The exit status is 0 for a kept or a refreshed key and 1 for a failed lookup or fetch. |
| LegacyCopilotKey.ExportLine | pkgs/basescripts/scripts/copilotkey.js:82 | No contract of its own. `LegacyCopilotKey.RefreshKey` states that it is the outcome of a refresh, built from the fetched key. |
| LegacyCopilotKey.RefreshKey | pkgs/basescripts/scripts/copilotkey.js:68-89 | A valid key ends the run as "still valid", and only a valid key does. The environment is then unchanged, and neither the config files nor the fetch affect the outcome. Otherwise a failed token search or a failed fetch ends the run with the environment unchanged. A fetched key is stored in `COPILOT_API_KEY`, and its export line is the outcome. |

## Left out

- Asynchrony: the hooks are modelled as plain calls.
- Everything printed: the kwargs dump, the log lines and the "Waiting for
  connectivity" messages.
- The unused hook parameters: `user_api_key_dict`, `cache`, `call_type`,
  `start_time` and `end_time`.
- `litellm.completion_cost`: a foreign library call, taken as a function
  parameter that gives a cost or an error.
- Python dictionaries whose keys map to `None` or to values of the wrong
  type. A key is either absent or holds a value of the expected type, so
  the TypeErrors and AttributeErrors such values cause are not modelled.
- The network: `fetchNewKey`, `checkGitHubConnectivity` and its 5-second
  retry loop. The fetch is a function parameter. A fetched key is always a
  string, so an undefined `data.token` is not modelled.
- The filesystem. Existence checks, reads, mkdir, write and chmod become
  the `KeysFile` and `ConfigFile` values and the returned text.
- `process.exit`, which becomes `LegacyCopilotKey.ExitCode`.
- The commented-out systemd restart.
- JSON parsing. A config file is the ordered list of its hosts, in the
  order `for ... in` visits them. A parse error counts as unreadable. A
  truthy `oauth_token` that is not a string is not modelled.
- The clock: `Date.now()` is the parameter `nowMillis`.
- `Number.parseInt` precision above 2^53: expiry numbers are unbounded
  naturals.
- `main` of pkgs/llmscripts/scripts/copilotkey.js beyond its parts. That
  orchestration waits on the network and the file system.
- pkgs/basescripts/scripts/cleanage.js and
  home-manager/scripts/touchpad.py are not part of this model.
- CopilotKey.FixedUpdateShape: stated only for keys without "$". With a
  "$" the key line is expanded by `KeyText.Substitute`, and no closed form
  of the written text is given.
- CopilotKey.FixedUpdateReadsBack: stated only for keys without "\n" and
  "$". A "\n" in the key splits the line the check reads, and a "$" is
  expanded by `replace`.
- CopilotKey.FixedUpdateRoundTrip: assumes the new key has no "\n" and no
  "$". A "$" in the key is expanded by `replace` (modelled in
  `KeyText.Substitute`), so the written text can differ from the key.
- CopilotKey.AsWrittenRoundTrip: assumes the same, plus a first key line
  that ends in "\n" or at the end of the text.
- PreCallHook.AsyncPreCallHook: the messages are values. Aliasing between
  the caller's list and `data["messages"]` is not modelled, and the pop
  and insert are not modelled as steps in place.

## Findings

| source | as written | input that shows it | evidently intended | confidence | as-written member | corrected member |
|---|---|---|---|---|---|---|
| pkgs/llmscripts/scripts/copilotkey.js:107-110 | The replace pattern's `.` stops at "\r", and `$` matches only at the end of the text. So a key line ending in "\r\n" is not matched. With no later key line, the file is written back unchanged; a later key line is replaced instead. The check on lines 21-26 reads the whole line up to "\n" and keeps finding the old key, so every run fetches a new key that is never stored. | keys file `COPILOT_API_KEY='old'\r\n` | Replace the first key line through its "\n", the line that `checkExistingKey` reads. | not executed | CopilotKey.CrLfKeysFileKeepsStaleKey | CopilotKey.FixedUpdateRoundTrip |
