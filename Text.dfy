/** String operations of Python and JavaScript that the hook and the key
    scripts rely on: substring search, prefix and suffix tests, Python's
    `str.strip()`, `str.split()` without arguments and `" ".join(...)`. */
module Text {
  import opened Wrappers

  /** The characters for which Python's `str.isspace()` holds. */
  predicate IsSpace(c: char) {
    c == ' ' || ('\t' <= c <= '\r') || ('\U{1c}' <= c <= '\U{1f}')
    || c == '\U{85}' || c == '\U{a0}' || c == '\U{1680}'
    || ('\U{2000}' <= c <= '\U{200a}') || c == '\U{2028}' || c == '\U{2029}'
    || c == '\U{202f}' || c == '\U{205f}' || c == '\U{3000}'
  }

  predicate IsDigit(c: char) {
    '0' <= c <= '9'
  }

  /** `p` occurs in `s` starting at index `i`. */
  predicate OccursAt(s: string, p: string, i: nat) {
    i + |p| <= |s| && s[i..i + |p|] == p
  }

  lemma OccursAtTail(s: string, p: string, j: nat)
    requires s != []
    ensures OccursAt(s, p, j + 1) <==> OccursAt(s[1..], p, j)
  {
    if j + 1 + |p| <= |s| {
      assert s[j + 1..j + 1 + |p|] == s[1..][j..j + |p|];
    }
  }

  /** Index of the first occurrence of `p` in `s` (JavaScript `indexOf`,
      Python `find`), or None. */
  function IndexOf(s: string, p: string): (r: Option<nat>)
    ensures r.Some? ==> OccursAt(s, p, r.value)
    ensures r.Some? ==> forall j: nat :: j < r.value ==> !OccursAt(s, p, j)
    ensures r.None? ==> forall j: nat :: !OccursAt(s, p, j)
    decreases |s|
  {
    if |s| < |p| then None
    else if s[..|p|] == p then Some(0)
    else
      var rest := IndexOf(s[1..], p);
      assert !OccursAt(s, p, 0) by {
        assert s[0..|p|] == s[..|p|];
      }
      assert forall j: nat | j > 0 :: OccursAt(s, p, j) <==> OccursAt(s[1..], p, j - 1) by {
        forall j: nat | j > 0 ensures OccursAt(s, p, j) <==> OccursAt(s[1..], p, j - 1) {
          OccursAtTail(s, p, j - 1);
        }
      }
      match rest
      case None => None
      case Some(k) => Some(k + 1)
  }

  /** Python's `p in s`, JavaScript's `s.includes(p)`. */
  predicate Contains(s: string, p: string) {
    IndexOf(s, p).Some?
  }

  /** The first occurrence is the only index with an occurrence and none before it. */
  lemma IndexOfIsFirst(s: string, p: string, i: nat)
    requires OccursAt(s, p, i)
    requires forall j: nat :: j < i ==> !OccursAt(s, p, j)
    ensures IndexOf(s, p) == Some(i)
  {
  }

  /** An occurrence of `p` cannot begin inside `a` and run on into `b` when
      `b` starts with `p` and the last character of `p` occurs nowhere else
      in it. */
  lemma NoStraddle(a: string, b: string, p: string, j: nat)
    requires |p| > 0
    requires forall k :: 0 <= k < |p| - 1 ==> p[k] != p[|p| - 1]
    requires StartsWith(b, p)
    requires j < |a| < j + |p|
    ensures !OccursAt(a + b, p, j)
  {
    var s := a + b;
    if j + |p| <= |s| {
      var k := j + |p| - 1 - |a|;
      assert s[j + |p| - 1] == b[k] == p[k];
      assert s[j..j + |p|][|p| - 1] == s[j + |p| - 1];
    }
  }

  lemma NoOccurrenceBeforeJunction(a: string, b: string, p: string)
    requires |p| > 0
    requires forall k :: 0 <= k < |p| - 1 ==> p[k] != p[|p| - 1]
    requires forall j: nat :: !OccursAt(a, p, j)
    requires StartsWith(b, p)
    ensures forall j: nat :: j < |a| ==> !OccursAt(a + b, p, j)
  {
    var s := a + b;
    forall j: nat | j < |a| ensures !OccursAt(s, p, j) {
      if j + |p| <= |a| {
        assert !OccursAt(a, p, j);
        assert s[j..j + |p|] == a[j..j + |p|];
      } else {
        NoStraddle(a, b, p, j);
      }
    }
  }

  /** Appending text that starts with `p` to a text without `p` puts the
      first occurrence exactly at the junction. */
  lemma OccurrenceAtJunction(a: string, b: string, p: string)
    requires |p| > 0
    requires forall k :: 0 <= k < |p| - 1 ==> p[k] != p[|p| - 1]
    requires forall j: nat :: !OccursAt(a, p, j)
    requires StartsWith(b, p)
    ensures IndexOf(a + b, p) == Some(|a|)
  {
    NoOccurrenceBeforeJunction(a, b, p);
    var s := a + b;
    assert s[|a|..|a| + |p|] == b[..|p|];
    IndexOfIsFirst(s, p, |a|);
  }

  /** No occurrence lies wholly before the first one. */
  lemma NoOccurrenceInPrefix(s: string, p: string, i: nat)
    requires |p| > 0
    requires IndexOf(s, p) == Some(i)
    ensures forall j: nat :: !OccursAt(s[..i], p, j)
  {
    forall j: nat | j + |p| <= i ensures !OccursAt(s[..i], p, j) {
      assert s[..i][j..j + |p|] == s[j..j + |p|];
      assert !OccursAt(s, p, j);
    }
  }

  lemma NoOccurrence(s: string, p: string)
    requires !Contains(s, p)
    ensures forall j: nat :: !OccursAt(s, p, j)
  {
  }

  lemma SplitThree(s: string, a: nat, b: nat, c: nat)
    requires a <= b <= c <= |s|
    ensures s == s[..a] + s[a..b] + s[b..c] + s[c..]
  {
  }

  predicate StartsWith(s: string, p: string) {
    |p| <= |s| && s[..|p|] == p
  }

  /** Python's `s.endswith(p)`. */
  predicate EndsWith(s: string, p: string) {
    |p| <= |s| && s[|s| - |p|..] == p
  }

  /** Python's `s.lstrip()`: drops the leading whitespace. */
  function LStrip(s: string): (r: string)
    ensures |r| <= |s| && r == s[|s| - |r|..]
    ensures r == [] || !IsSpace(r[0])
    ensures forall i :: 0 <= i < |s| - |r| ==> IsSpace(s[i])
  {
    if s != [] && IsSpace(s[0]) then
      var r := LStrip(s[1..]);
      assert s[1..][|s| - 1 - |r|..] == s[|s| - |r|..];
      assert forall i :: 1 <= i < |s| - |r| ==> s[i] == s[1..][i - 1];
      r
    else s
  }

  /** Python's `s.rstrip()`: drops the trailing whitespace. */
  function RStrip(s: string): (r: string)
    ensures |r| <= |s| && r == s[..|r|]
    ensures r == [] || !IsSpace(r[|r| - 1])
    ensures forall i :: |r| <= i < |s| ==> IsSpace(s[i])
  {
    if s != [] && IsSpace(s[|s| - 1]) then
      var r := RStrip(s[..|s| - 1]);
      assert s[..|s| - 1][..|r|] == s[..|r|];
      assert forall i :: |r| <= i < |s| - 1 ==> s[i] == s[..|s| - 1][i];
      r
    else s
  }

  /** Python's `s.strip()`. */
  function Strip(s: string): (r: string)
    ensures r == [] || (!IsSpace(r[0]) && !IsSpace(r[|r| - 1]))
  {
    RStrip(LStrip(s))
  }

  /** Leading whitespace of `a` is all that `lstrip` removes from `a + b`
      unless `a` is whitespace only. */
  lemma {:induction false} LStripAppend(a: string, b: string)
    ensures LStrip(a + b) == if LStrip(a) == [] then LStrip(b) else LStrip(a) + b
  {
    if a == [] {
      assert a + b == b;
    } else if IsSpace(a[0]) {
      assert (a + b)[1..] == a[1..] + b;
      LStripAppend(a[1..], b);
    } else {
      assert (a + b)[0] == a[0];
    }
  }

  lemma RStripNonSpaceEnd(s: string)
    requires s != [] && !IsSpace(s[|s| - 1])
    ensures RStrip(s) == s
  {
  }

  /** A word of Python's `str.split()`: non-empty, without whitespace. */
  predicate IsWord(w: string) {
    w != [] && forall i :: 0 <= i < |w| ==> !IsSpace(w[i])
  }

  /** Every element is a word. */
  predicate AllWords(ws: seq<string>) {
    forall k :: 0 <= k < |ws| ==> IsWord(ws[k])
  }

  lemma AllWordsCons(w: string, rest: seq<string>)
    requires IsWord(w) && AllWords(rest)
    ensures AllWords([w] + rest)
  {
    var ws := [w] + rest;
    forall k | 0 <= k < |ws| ensures IsWord(ws[k]) {
      if k > 0 {
        assert ws[k] == rest[k - 1];
      }
    }
  }

  /** The longest prefix of `s` without whitespace. */
  function Token(s: string): (w: string)
    ensures |w| <= |s| && w == s[..|w|]
    ensures forall i :: 0 <= i < |w| ==> !IsSpace(w[i])
    ensures |w| == |s| || IsSpace(s[|w|])
  {
    if s == [] || IsSpace(s[0]) then [] else [s[0]] + Token(s[1..])
  }

  /** Python's `s.split()`: the maximal runs of non-whitespace, in order. */
  function Words(s: string): (ws: seq<string>)
    ensures AllWords(ws)
    decreases |s|
  {
    var t := LStrip(s);
    if t == [] then []
    else
      var w := Token(t);
      assert IsWord(w) by {
        assert !IsSpace(t[0]);
      }
      var rest := Words(t[|w|..]);
      AllWordsCons(w, rest);
      [w] + rest
  }

  /** Python's `" ".join(ws)`. */
  function JoinWords(ws: seq<string>): string {
    if ws == [] then []
    else if |ws| == 1 then ws[0]
    else ws[0] + " " + JoinWords(ws[1..])
  }

  lemma {:induction false} TokenOfWord(w: string, rest: string)
    requires IsWord(w)
    requires rest == [] || IsSpace(rest[0])
    ensures Token(w + rest) == w
  {
    assert (w + rest)[0] == w[0];
    assert (w + rest)[1..] == w[1..] + rest;
    if |w| == 1 {
      assert w[1..] + rest == rest;
    } else {
      TokenOfWord(w[1..], rest);
    }
  }

  /** A word followed by whitespace (or nothing) is the first word. */
  lemma WordsCons(w: string, rest: string)
    requires IsWord(w)
    requires rest == [] || IsSpace(rest[0])
    ensures Words(w + rest) == [w] + Words(rest)
  {
    var s := w + rest;
    assert s[0] == w[0];
    assert LStrip(s) == s;
    TokenOfWord(w, rest);
    assert s[|w|..] == rest;
  }

  lemma WordsAfterSpace(x: string)
    ensures Words(" " + x) == Words(x)
  {
    assert (" " + x)[1..] == x;
    assert LStrip(" " + x) == LStrip(x);
  }

  lemma AllWordsTail(ws: seq<string>)
    requires ws != []
    requires AllWords(ws)
    ensures IsWord(ws[0])
    ensures AllWords(ws[1..])
  {
    forall k | 0 <= k < |ws[1..]| ensures IsWord(ws[1..][k]) {
      assert ws[1..][k] == ws[k + 1];
    }
  }

  /** Splitting the space-joined words gives back the words. */
  lemma {:induction false} WordsOfJoin(ws: seq<string>)
    requires AllWords(ws)
    ensures Words(JoinWords(ws)) == ws
  {
    if ws == [] {
    } else if |ws| == 1 {
      WordsOfSingle(ws);
    } else {
      AllWordsTail(ws);
      WordsOfJoin(ws[1..]);
      var j := JoinWords(ws[1..]);
      assert JoinWords(ws) == ws[0] + (" " + j);
      WordsOfJoinStep(ws[0], j, ws[1..]);
      HeadTail(ws);
    }
  }

  lemma WordsOfSingle(ws: seq<string>)
    requires |ws| == 1 && IsWord(ws[0])
    ensures Words(JoinWords(ws)) == ws
  {
    var w := ws[0];
    assert JoinWords(ws) == w;
    WordsOfWord(w);
  }

  lemma WordsOfWord(w: string)
    requires IsWord(w)
    ensures Words(w) == [w]
  {
    assert !IsSpace(w[0]);
    assert LStrip(w) == w;
    assert w + "" == w;
    TokenOfWord(w, "");
    assert w[|w|..] == [];
  }

  /** One word more in front of a text that splits into `rest`. */
  lemma WordsOfJoinStep(w: string, j: string, rest: seq<string>)
    requires IsWord(w)
    requires Words(j) == rest
    ensures Words(w + (" " + j)) == [w] + rest
  {
    WordsCons(w, " " + j);
    WordsAfterSpace(j);
  }

  lemma HeadTail<T>(s: seq<T>)
    requires s != []
    ensures [s[0]] + s[1..] == s
  {
  }

  function Take<T>(s: seq<T>, n: nat): (r: seq<T>)
    ensures |r| <= n && |r| <= |s| && r == s[..|r|]
    ensures |r| == if |s| < n then |s| else n
  {
    if |s| <= n then s else s[..n]
  }
}
