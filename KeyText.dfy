/** The three regular expressions that the Copilot key refresher
    (pkgs/llmscripts/scripts/copilotkey.js) applies to the keys file and to
    a key, and the `$` patterns of JavaScript's `String.prototype.replace`. */
module KeyText {
  import opened Wrappers
  import opened Text

  const KeyMarker: string := "COPILOT_API_KEY="

  /** The characters that end a line for JavaScript's `.` and `$`. */
  predicate IsLineTerminator(c: char) {
    c == '\n' || c == '\r' || c == '\U{2028}' || c == '\U{2029}'
  }

  /** Index of the first "\n" at or after `from`, or |s|: `([^\n]*)`
      starting at `from` captures `s[from..NewlineFrom(s, from)]`. */
  function NewlineFrom(s: string, from: nat): (e: nat)
    requires from <= |s|
    ensures from <= e <= |s|
    ensures e == |s| || s[e] == '\n'
    ensures forall i :: from <= i < e ==> s[i] != '\n'
    decreases |s| - from
  {
    if from == |s| || s[from] == '\n' then from else NewlineFrom(s, from + 1)
  }

  /** A run without "\n" that stops at a "\n" or at the end is the one
      `([^\n]*)` captures. */
  lemma NewlineFromIs(s: string, from: nat, e: nat)
    requires from <= e <= |s|
    requires forall i :: from <= i < e ==> s[i] != '\n'
    requires e == |s| || s[e] == '\n'
    ensures NewlineFrom(s, from) == e
  {
  }

  /** The captured value of `content.match(/COPILOT_API_KEY=([^\n]*)/)`:
      the rest of the line after the first marker, or None without one. */
  function KeyValue(content: string): Option<string> {
    match IndexOf(content, KeyMarker)
    case None => None
    case Some(p) => Some(content[p + |KeyMarker|..NewlineFrom(content, p + |KeyMarker|)])
  }

  /** The longest prefix of ASCII digits (`\d`). */
  function LeadingDigits(s: string): (r: string)
    ensures |r| <= |s| && r == s[..|r|]
    ensures forall i :: 0 <= i < |r| ==> IsDigit(r[i])
    ensures |r| == |s| || !IsDigit(s[|r|])
  {
    if s == [] || !IsDigit(s[0]) then [] else [s[0]] + LeadingDigits(s[1..])
  }

  /** `Number.parseInt(ds, 10)` for a string of decimal digits. */
  function DigitsValue(ds: string): nat
    requires forall i :: 0 <= i < |ds| ==> IsDigit(ds[i])
  {
    if ds == [] then 0
    else
      assert IsDigit(ds[|ds| - 1]);
      DigitsValue(ds[..|ds| - 1]) * 10 + (ds[|ds| - 1] as int - '0' as int)
  }

  /** `/exp=(\d+)/` matches at index `i`. */
  predicate ExpAt(s: string, i: nat) {
    i + 4 < |s| && s[i..i + 4] == "exp=" && IsDigit(s[i + 4])
  }

  lemma ExpAtTail(s: string, j: nat)
    requires s != []
    ensures ExpAt(s, j + 1) <==> ExpAt(s[1..], j)
  {
    if j + 5 < |s| {
      assert s[j + 1..j + 5] == s[1..][j..j + 4];
    }
  }

  /** Where `/exp=(\d+)/` matches first, if it matches. */
  function FirstExp(s: string): (r: Option<nat>)
    ensures r.Some? ==> ExpAt(s, r.value)
    ensures r.Some? ==> forall j: nat :: j < r.value ==> !ExpAt(s, j)
    ensures r.None? ==> forall j: nat :: !ExpAt(s, j)
    decreases |s|
  {
    if |s| < 5 then None
    else if ExpAt(s, 0) then Some(0)
    else
      var rest := FirstExp(s[1..]);
      assert forall j: nat | j > 0 :: ExpAt(s, j) <==> ExpAt(s[1..], j - 1) by {
        forall j: nat | j > 0 ensures ExpAt(s, j) <==> ExpAt(s[1..], j - 1) {
          ExpAtTail(s, j - 1);
        }
      }
      match rest
      case None => None
      case Some(k) => Some(k + 1)
  }

  lemma FirstExpIs(s: string, i: nat)
    requires ExpAt(s, i)
    requires forall j: nat :: j < i ==> !ExpAt(s, j)
    ensures FirstExp(s) == Some(i)
  {
  }

  lemma NoExp(s: string)
    requires forall j: nat :: !ExpAt(s, j)
    ensures FirstExp(s) == None
  {
  }

  /** The number in `s.match(/exp=(\d+)/)[1]`, or None when there is no match. */
  function ExpValue(s: string): Option<nat> {
    match FirstExp(s)
    case None => None
    case Some(i) => Some(DigitsValue(LeadingDigits(s[i + 4..])))
  }

  lemma {:induction false} LeadingDigitsBeforeQuote(x: string)
    ensures LeadingDigits(x + "'") == LeadingDigits(x)
  {
    if x != [] && IsDigit(x[0]) {
      assert (x + "'")[1..] == x[1..] + "'";
      LeadingDigitsBeforeQuote(x[1..]);
    } else if x == [] {
      assert (x + "'")[0] == '\'';
    } else {
      assert (x + "'")[0] == x[0];
    }
  }

  lemma ExpAtQuoted(k: string, j: nat)
    ensures !ExpAt("'" + k + "'", 0)
    ensures ExpAt("'" + k + "'", j + 1) <==> ExpAt(k, j)
  {
    var q := "'" + k + "'";
    assert q[0] == '\'';
    if j + 4 < |k| {
      assert q[j + 1..j + 5] == k[j..j + 4];
      assert q[j + 5] == k[j + 4];
    } else if j + 4 == |k| {
      assert q[j + 5] == '\'';
    }
  }

  /** Quoting a key does not change the `exp=` number found in it. */
  lemma QuotedExpValue(k: string)
    ensures ExpValue("'" + k + "'") == ExpValue(k)
  {
    var q := "'" + k + "'";
    forall j: nat ensures ExpAt(q, j + 1) <==> ExpAt(k, j) {
      ExpAtQuoted(k, j);
    }
    ExpAtQuoted(k, 0);
    match FirstExp(k)
    case None =>
      forall j: nat ensures !ExpAt(q, j) {
        if j > 0 { ExpAtQuoted(k, j - 1); }
      }
      NoExp(q);
    case Some(i) =>
      forall j: nat | j < i + 1 ensures !ExpAt(q, j) {
        if j > 0 { ExpAtQuoted(k, j - 1); }
      }
      FirstExpIs(q, i + 1);
      assert q[i + 1 + 4..] == k[i + 4..] + "'";
      LeadingDigitsBeforeQuote(k[i + 4..]);
  }

  /** Index of the first line terminator at or after `from`, or |s|. */
  function LineEnd(s: string, from: nat): (e: nat)
    requires from <= |s|
    ensures from <= e <= |s|
    ensures e == |s| || IsLineTerminator(s[e])
    ensures forall i :: from <= i < e ==> !IsLineTerminator(s[i])
    decreases |s| - from
  {
    if from == |s| || IsLineTerminator(s[from]) then from else LineEnd(s, from + 1)
  }

  /** A match of `/COPILOT_API_KEY=.*(\n|$)/`: its bounds and its group. */
  datatype KeyLineMatch = KeyLineMatch(start: nat, end: nat, group: string)

  /** The match of `/COPILOT_API_KEY=.*(\n|$)/` at index `p`, if any. The
      greedy `.*` runs to the next line terminator, and no shorter run can
      be followed by "\n" or the end, so the match exists only when that
      terminator is a "\n" (taken into the group) or the text ends there. */
  function KeyLineAt(s: string, p: nat): (r: Option<KeyLineMatch>)
    ensures r.Some? <==> (OccursAt(s, KeyMarker, p)
                          && (LineEnd(s, p + |KeyMarker|) == |s| || s[LineEnd(s, p + |KeyMarker|)] == '\n'))
    ensures r.Some? ==> r.value.start == p
    ensures r.Some? ==> p + |KeyMarker| <= r.value.end <= |s|
    ensures r.Some? ==> (r.value.group == "\n" || (r.value.group == "" && r.value.end == |s|))
    ensures r.Some? ==> r.value.group == s[r.value.end - |r.value.group|..r.value.end]
    ensures r.Some? ==> forall i :: p + |KeyMarker| <= i < r.value.end - |r.value.group| ==> !IsLineTerminator(s[i])
  {
    if !OccursAt(s, KeyMarker, p) then None
    else
      var e := LineEnd(s, p + |KeyMarker|);
      if e == |s| then Some(KeyLineMatch(p, e, ""))
      else if s[e] == '\n' then
        assert s[e..e + 1] == "\n";
        Some(KeyLineMatch(p, e + 1, "\n"))
      else None
  }

  /** The leftmost match of `/COPILOT_API_KEY=.*(\n|$)/` at or after `from`. */
  function FirstKeyLine(s: string, from: nat): (r: Option<KeyLineMatch>)
    ensures r.Some? ==> from <= r.value.start && KeyLineAt(s, r.value.start) == r
    ensures forall p: nat :: from <= p && (r.None? || p < r.value.start) ==> KeyLineAt(s, p).None?
    decreases |s| + 1 - from
  {
    if from > |s| then None
    else if KeyLineAt(s, from).Some? then KeyLineAt(s, from)
    else FirstKeyLine(s, from + 1)
  }

  /** The text that a replacement pattern stands for under
      `String.prototype.replace` with one capture group: `$$`, `$&`, `` $` ``,
      `$'`, `$1` and `$01` are replaced; every other `$` stands for itself
      (so do `$0`, `$00`, `$2`..`$9` and `$<`, which name no group). */
  function Substitute(t: string, matched: string, before: string, after: string, group: string): string
    decreases |t|
  {
    if t == [] then []
    else if t[0] == '$' && |t| >= 2 && t[1] == '$' then "$" + Substitute(t[2..], matched, before, after, group)
    else if t[0] == '$' && |t| >= 2 && t[1] == '&' then matched + Substitute(t[2..], matched, before, after, group)
    else if t[0] == '$' && |t| >= 2 && t[1] == '`' then before + Substitute(t[2..], matched, before, after, group)
    else if t[0] == '$' && |t| >= 2 && t[1] == '\'' then after + Substitute(t[2..], matched, before, after, group)
    else if t[0] == '$' && |t| >= 2 && t[1] == '1' then group + Substitute(t[2..], matched, before, after, group)
    else if t[0] == '$' && |t| >= 3 && t[1] == '0' && t[2] == '1' then group + Substitute(t[3..], matched, before, after, group)
    else [t[0]] + Substitute(t[1..], matched, before, after, group)
  }

  /** A replacement without `$` is inserted literally. */
  lemma {:induction false} SubstituteLiteral(t: string, matched: string, before: string, after: string, group: string)
    requires '$' !in t
    ensures Substitute(t, matched, before, after, group) == t
  {
    if t != [] {
      assert t[0] != '$';
      assert '$' !in t[1..];
      SubstituteLiteral(t[1..], matched, before, after, group);
      assert [t[0]] + t[1..] == t;
    }
  }

  /** The text `replace` produces when the match is `s[start..end]` and its
      group is `group`. */
  function Splice(s: string, start: nat, end: nat, template: string, group: string): string
    requires start <= end <= |s|
  {
    s[..start] + Substitute(template, s[start..end], s[..start], s[end..], group) + s[end..]
  }

  /** A replacement without `$` takes the place of the match as it is. */
  lemma SpliceLiteral(s: string, start: nat, end: nat, t: string, group: string)
    requires start <= end <= |s|
    requires '$' !in t
    ensures Splice(s, start, end, t, group) == s[..start] + t + s[end..]
  {
    SubstituteLiteral(t, s[start..end], s[..start], s[end..], group);
  }

  /** `s.replace(/COPILOT_API_KEY=.*(\n|$)/, template)` */
  function ReplaceKeyLine(s: string, template: string): string {
    match FirstKeyLine(s, 0)
    case None => s
    case Some(m) => Splice(s, m.start, m.end, template, m.group)
  }

  /** The end of the marker's line, past its "\n" when it has one. */
  function LineStop(s: string, p: nat): (end: nat)
    requires p + |KeyMarker| <= |s|
    ensures p + |KeyMarker| <= end <= |s|
  {
    var e := NewlineFrom(s, p + |KeyMarker|);
    if e < |s| then e + 1 else e
  }

  /** The "\n" that ends the marker's line, or "" at the end of the text. */
  function LineStopGroup(s: string, p: nat): string
    requires p + |KeyMarker| <= |s|
  {
    if NewlineFrom(s, p + |KeyMarker|) < |s| then "\n" else ""
  }

  /** The first marker, the value read after it and the rest of the text
      make up the whole text; the rest is empty or starts with "\n". */
  lemma KeyValueSplit(s: string, p: nat)
    requires IndexOf(s, KeyMarker) == Some(p)
    ensures p + |KeyMarker| <= NewlineFrom(s, p + |KeyMarker|) <= |s|
    ensures s == s[..p] + KeyMarker + KeyValue(s).value + s[NewlineFrom(s, p + |KeyMarker|)..]
    ensures NewlineFrom(s, p + |KeyMarker|) == |s| || s[NewlineFrom(s, p + |KeyMarker|)] == '\n'
  {
    var from := p + |KeyMarker|;
    assert s[p..from] == KeyMarker;
    SplitThree(s, p, from, NewlineFrom(s, from));
  }

  /** The replacement the refresher evidently intends: the whole line of
      the first marker, through its "\n", whatever other line terminators
      it holds; this is the line that `checkExistingKey` reads back. */
  function ReplaceKeyLineFixed(s: string, template: string): string {
    match IndexOf(s, KeyMarker)
    case None => s
    case Some(p) => Splice(s, p, LineStop(s, p), template, LineStopGroup(s, p))
  }

  /** Unfolding of the corrected replacement at the first marker. */
  lemma ReplaceKeyLineFixedAt(s: string, t: string, p: nat)
    requires IndexOf(s, KeyMarker) == Some(p)
    ensures p + |KeyMarker| <= |s|
    ensures ReplaceKeyLineFixed(s, t) == Splice(s, p, LineStop(s, p), t, LineStopGroup(s, p))
  {
  }

  /** A replacement without `$` takes the place of the first marker's line
      through its "\n". */
  lemma ReplaceKeyLineFixedLiteral(s: string, t: string, p: nat)
    requires '$' !in t
    requires IndexOf(s, KeyMarker) == Some(p)
    ensures p + |KeyMarker| <= |s|
    ensures ReplaceKeyLineFixed(s, t) == s[..p] + t + s[LineStop(s, p)..]
  {
    ReplaceKeyLineFixedAt(s, t, p);
    SpliceLiteral(s, p, LineStop(s, p), t, LineStopGroup(s, p));
  }

  /** `.*` and `[^\n]*` stop at the same place when the first line
      terminator after the marker is a "\n" or there is none. */
  lemma LineEndIsNewline(s: string, p: nat)
    requires p + |KeyMarker| <= |s|
    requires LineEnd(s, p + |KeyMarker|) == |s| || s[LineEnd(s, p + |KeyMarker|)] == '\n'
    ensures NewlineFrom(s, p + |KeyMarker|) == LineEnd(s, p + |KeyMarker|)
  {
    NewlineFromIs(s, p + |KeyMarker|, LineEnd(s, p + |KeyMarker|));
  }

  /** When the first marker starts a match, that match is the leftmost one. */
  lemma FirstKeyLineAtFirstMarker(s: string, p: nat)
    requires IndexOf(s, KeyMarker) == Some(p)
    requires KeyLineAt(s, p).Some?
    ensures FirstKeyLine(s, 0) == KeyLineAt(s, p)
  {
  }

  lemma ReplaceKeyLineAgreesAt(s: string, t: string, p: nat)
    requires IndexOf(s, KeyMarker) == Some(p)
    requires KeyLineAt(s, p).Some?
    ensures ReplaceKeyLine(s, t) == ReplaceKeyLineFixed(s, t)
  {
    FirstKeyLineAtFirstMarker(s, p);
    LineEndIsNewline(s, p);
    ReplaceKeyLineFixedAt(s, t, p);
    var m := KeyLineAt(s, p).value;
    assert m.start == p && m.end == LineStop(s, p) && m.group == LineStopGroup(s, p);
  }

  /** Where the first marker line ends in "\n" or at the end of the text,
      the replace as written and the corrected one agree for every template. */
  lemma ReplaceKeyLineAgrees(s: string, t: string)
    requires Contains(s, KeyMarker) ==> KeyLineAt(s, IndexOf(s, KeyMarker).value).Some?
    ensures ReplaceKeyLine(s, t) == ReplaceKeyLineFixed(s, t)
  {
    match IndexOf(s, KeyMarker)
    case Some(p) =>
      ReplaceKeyLineAgreesAt(s, t, p);
    case None =>
  }

  /** When the first marker line ends in another line terminator (a CRLF
      line) and no later marker follows, the replace as written matches
      nothing and leaves the text as it is. */
  lemma ReplaceKeyLineMissesCrLine(s: string, t: string, p: nat)
    requires IndexOf(s, KeyMarker) == Some(p)
    requires LineEnd(s, p + |KeyMarker|) < |s|
    requires s[LineEnd(s, p + |KeyMarker|)] != '\n'
    requires forall q: nat :: p < q ==> !OccursAt(s, KeyMarker, q)
    ensures ReplaceKeyLine(s, t) == s
  {
    forall q: nat ensures KeyLineAt(s, q).None? {
      if q != p {
        assert !OccursAt(s, KeyMarker, q);
      }
    }
    assert FirstKeyLine(s, 0).None?;
  }
}
