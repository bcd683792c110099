/** The Copilot key refresher that keeps the key in a keys file
    (pkgs/llmscripts/scripts/copilotkey.js): the expiry check with its
    fifteen-minute margin and the rewrite of the keys file's text. */
module CopilotKey {
  import opened Wrappers
  import opened Text
  import opened KeyText

  /** The keys file as the script finds it. */
  datatype KeysFile = Absent | Unreadable | Present(text: string)

  /** A key is refreshed once it has fewer than fifteen minutes left. */
  const RefreshThreshold: int := 15 * 60

  /** `Math.floor(Date.now() / 1000)`: Dafny's `/` by a positive divisor rounds down. */
  function EpochSeconds(nowMillis: int): int {
    nowMillis / 1000
  }

  /** The `exp=` number of the key stored in the keys file's text. */
  function StoredExpiry(text: string): Option<nat> {
    match KeyValue(text)
    case None => None
    case Some(v) => ExpValue(v)
  }

  /** `checkExistingKey`: the stored key is still good for more than
      fifteen minutes. A missing or unreadable file, a missing key line and
      a key without `exp=<digits>` all count as "refresh". */
  function CheckExistingKey(file: KeysFile, nowMillis: int): (valid: bool)
    ensures !file.Present? ==> !valid
    ensures file.Present? && KeyValue(file.text).None? ==> !valid
    ensures file.Present? && StoredExpiry(file.text).None? ==> !valid
    ensures valid <==> file.Present? && StoredExpiry(file.text).Some?
                       && StoredExpiry(file.text).value > EpochSeconds(nowMillis) + RefreshThreshold
  {
    match file
    case Absent => false
    case Unreadable => false
    case Present(text) =>
      match KeyValue(text)
      case None => false
      case Some(currentKey) =>
        match ExpValue(currentKey)
        case None => false
        case Some(expTimestamp) => expTimestamp > EpochSeconds(nowMillis) + RefreshThreshold
  }

  /** The line `COPILOT_API_KEY='<newKey>'` and its "\n". */
  function KeyLine(newKey: string): string {
    KeyMarker + "'" + newKey + "'\n"
  }

  /** The new text of the keys file as `updateKeysFile` computes it. */
  function UpdatedKeysContent(content: string, newKey: string): string {
    if Contains(content, KeyMarker) then ReplaceKeyLine(content, KeyLine(newKey))
    else content + KeyLine(newKey)
  }

  /** The same with the first marker line replaced up to its "\n", as the
      expiry check reads it. */
  function UpdatedKeysContentFixed(content: string, newKey: string): string {
    if Contains(content, KeyMarker) then ReplaceKeyLineFixed(content, KeyLine(newKey))
    else content + KeyLine(newKey)
  }

  datatype UpdateError = KeysFileUnreadable

  /** `updateKeysFile`: the text written back, or the read error it rethrows. */
  method UpdateKeysFile(file: KeysFile, newKey: string) returns (written: Result<string, UpdateError>)
    ensures file.Unreadable? <==> written.Err?
    ensures file.Absent? ==> written == Ok(KeyLine(newKey))
    ensures file.Present? ==> written == Ok(UpdatedKeysContent(file.text, newKey))
  {
    if file.Unreadable? {
      return Err(KeysFileUnreadable);
    }
    var content := "";
    if file.Present? {
      content := file.text;
    }
    if Contains(content, KeyMarker) {
      content := ReplaceKeyLine(content, KeyLine(newKey));
    } else {
      content := content + KeyLine(newKey);
    }
    assert file.Absent? ==> content == [] + KeyLine(newKey) == KeyLine(newKey);
    written := Ok(content);
  }

  lemma KeyLineLiteral(newKey: string)
    requires '$' !in newKey
    ensures '$' !in KeyLine(newKey)
  {
    assert forall i :: 0 <= i < |KeyMarker + "'"| ==> (KeyMarker + "'")[i] != '$';
  }

  /** "=" is the marker's last character and occurs nowhere else in it. */
  lemma MarkerEqualsSignOnlyLast()
    ensures |KeyMarker| > 0
    ensures forall k :: 0 <= k < |KeyMarker| - 1 ==> KeyMarker[k] != KeyMarker[|KeyMarker| - 1]
  {
  }

  /** A key line placed after text without a marker is the one the expiry
      check reads. */
  lemma KeyLineReadBack(a: string, newKey: string, rest: string)
    requires forall j: nat :: !OccursAt(a, KeyMarker, j)
    requires '\n' !in newKey
    ensures KeyValue(a + (KeyLine(newKey) + rest)) == Some("'" + newKey + "'")
  {
    var line := KeyLine(newKey);
    var quoted := "'" + newKey + "'";
    assert line == KeyMarker + (quoted + "\n");
    assert StartsWith(line + rest, KeyMarker);
    MarkerEqualsSignOnlyLast();
    OccurrenceAtJunction(a, line + rest, KeyMarker);
    var s := a + (line + rest);
    var from := |a| + |KeyMarker|;
    var e := from + |quoted|;
    assert s[from..e] == quoted && s[e] == '\n';
    NewlineFromIs(s, from, e);
  }

  /** With a marker, the corrected update puts the key line in place of the
      first marker's line through its "\n" and keeps the text before and
      after it. */
  lemma FixedUpdateShape(content: string, newKey: string, p: nat)
    requires '$' !in newKey
    requires IndexOf(content, KeyMarker) == Some(p)
    ensures p + |KeyMarker| <= |content|
    ensures UpdatedKeysContentFixed(content, newKey) == content[..p] + (KeyLine(newKey) + content[LineStop(content, p)..])
  {
    KeyLineLiteral(newKey);
    ReplaceKeyLineFixedLiteral(content, KeyLine(newKey), p);
  }

  /** After the (corrected) update the expiry check reads back exactly the
      quoted new key, whatever the file held before. */
  lemma FixedUpdateReadsBack(content: string, newKey: string)
    requires '\n' !in newKey && '$' !in newKey
    ensures KeyValue(UpdatedKeysContentFixed(content, newKey)) == Some("'" + newKey + "'")
  {
    if Contains(content, KeyMarker) {
      var p := IndexOf(content, KeyMarker).value;
      FixedUpdateShape(content, newKey, p);
      NoOccurrenceInPrefix(content, KeyMarker, p);
      KeyLineReadBack(content[..p], newKey, content[LineStop(content, p)..]);
    } else {
      NoOccurrence(content, KeyMarker);
      KeyLineReadBack(content, newKey, "");
      assert content + (KeyLine(newKey) + "") == content + KeyLine(newKey);
    }
  }

  /** Round trip: checking the (corrected) rewritten file at any time gives
      exactly "the new key's `exp=` number is more than fifteen minutes away". */
  lemma FixedUpdateRoundTrip(content: string, newKey: string, nowMillis: int)
    requires '\n' !in newKey && '$' !in newKey
    ensures CheckExistingKey(Present(UpdatedKeysContentFixed(content, newKey)), nowMillis)
            <==> ExpValue(newKey).Some? && ExpValue(newKey).value > EpochSeconds(nowMillis) + RefreshThreshold
  {
    FixedUpdateReadsBack(content, newKey);
    QuotedExpValue(newKey);
  }

  /** Where the first marker line ends in "\n" or at the end of the text,
      the code as written replaces the same line as the corrected one. */
  lemma AsWrittenAgreesWithFixed(content: string, newKey: string)
    requires Contains(content, KeyMarker) ==> KeyLineAt(content, IndexOf(content, KeyMarker).value).Some?
    ensures UpdatedKeysContent(content, newKey) == UpdatedKeysContentFixed(content, newKey)
  {
    ReplaceKeyLineAgrees(content, KeyLine(newKey));
  }

  /** The round trip of the code as written, for files whose first key line
      ends in "\n" or at the end of the text. */
  lemma AsWrittenRoundTrip(content: string, newKey: string, nowMillis: int)
    requires '\n' !in newKey && '$' !in newKey
    requires Contains(content, KeyMarker) ==> KeyLineAt(content, IndexOf(content, KeyMarker).value).Some?
    ensures CheckExistingKey(Present(UpdatedKeysContent(content, newKey)), nowMillis)
            <==> ExpValue(newKey).Some? && ExpValue(newKey).value > EpochSeconds(nowMillis) + RefreshThreshold
  {
    AsWrittenAgreesWithFixed(content, newKey);
    FixedUpdateRoundTrip(content, newKey, nowMillis);
  }

  /** Without a marker the file gets exactly one key line appended, after
      all of its text, and that line holds the first marker. */
  lemma UpdateAppendsKeyLine(content: string, newKey: string)
    requires !Contains(content, KeyMarker)
    ensures UpdatedKeysContent(content, newKey)[..|content|] == content
    ensures UpdatedKeysContent(content, newKey)[|content|..] == KeyLine(newKey)
    ensures IndexOf(UpdatedKeysContent(content, newKey), KeyMarker) == Some(|content|)
  {
    NoOccurrence(content, KeyMarker);
    MarkerEqualsSignOnlyLast();
    OccurrenceAtJunction(content, KeyLine(newKey), KeyMarker);
  }

  /** The finding: when the first key line ends in a line terminator other
      than "\n" (a CRLF line) and no later text holds the marker, the replace
      pattern matches nothing and the file is written back unchanged. */
  lemma AsWrittenKeepsCrTerminatedLine(content: string, newKey: string, p: nat)
    requires IndexOf(content, KeyMarker) == Some(p)
    requires LineEnd(content, p + |KeyMarker|) < |content|
    requires content[LineEnd(content, p + |KeyMarker|)] != '\n'
    requires forall q: nat :: p < q ==> !OccursAt(content, KeyMarker, q)
    ensures UpdatedKeysContent(content, newKey) == content
  {
    ReplaceKeyLineMissesCrLine(content, KeyLine(newKey), p);
  }

  /** A concrete keys file with a CRLF key line: the code as written keeps
      the stale key, so the check keeps failing and every run fetches a key
      again, while the corrected update makes the check accept the new key. */
  lemma CrLfKeysFileKeepsStaleKey(newKey: string, nowMillis: int)
    requires '\n' !in newKey && '$' !in newKey
    ensures var c := "COPILOT_API_KEY='old'\r\n";
            UpdatedKeysContent(c, newKey) == c
            && !CheckExistingKey(Present(UpdatedKeysContent(c, newKey)), nowMillis)
            && (CheckExistingKey(Present(UpdatedKeysContentFixed(c, newKey)), nowMillis)
                <==> ExpValue(newKey).Some? && ExpValue(newKey).value > EpochSeconds(nowMillis) + RefreshThreshold)
  {
    var c := "COPILOT_API_KEY='old'\r\n";
    CrLfFileFacts(c);
    AsWrittenKeepsCrTerminatedLine(c, newKey, 0);
    StaleValueHasNoExpiry(c);
    FixedUpdateRoundTrip(c, newKey, nowMillis);
  }

  lemma CrLfFileFacts(c: string)
    requires c == "COPILOT_API_KEY='old'\r\n"
    ensures IndexOf(c, KeyMarker) == Some(0)
    ensures LineEnd(c, |KeyMarker|) == 21 && c[21] == '\r'
    ensures forall q: nat :: 0 < q ==> !OccursAt(c, KeyMarker, q)
  {
    assert OccursAt(c, KeyMarker, 0) by {
      assert c[0..|KeyMarker|] == KeyMarker;
    }
    IndexOfIsFirst(c, KeyMarker, 0);
    forall q: nat | 0 < q ensures !OccursAt(c, KeyMarker, q) {
      if q + |KeyMarker| <= |c| {
        assert c[q..q + |KeyMarker|][0] == c[q] != 'C';
      }
    }
    assert LineEnd(c, 21) == 21;
    assert LineEnd(c, 20) == 21;
    assert LineEnd(c, 19) == 21;
    assert LineEnd(c, 18) == 21;
    assert LineEnd(c, 17) == 21;
  }

  lemma StaleValueHasNoExpiry(c: string)
    requires c == "COPILOT_API_KEY='old'\r\n"
    ensures KeyValue(c) == Some("'old'\r")
    ensures ExpValue("'old'\r") == None
  {
    CrLfFileFacts(c);
    var stale := "'old'\r";
    assert c[16..22] == stale;
    NewlineFromIs(c, 16, 22);
    forall j: nat ensures !ExpAt(stale, j) {
      if j + 4 < |stale| {
        assert stale[j..j + 4][0] == stale[j] != 'e';
      }
    }
    NoExp(stale);
  }
}
