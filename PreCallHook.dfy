/** The request rewrite done by `MyCustomHandler.async_pre_call_hook`
    (home-manager/llm/custom_litellm.py) before a call reaches a backend:
    for Qwen models that are not "thinking" variants, the first system
    message gets the `/no_think` directive and is moved to the front. */
module PreCallHook {
  import opened Wrappers
  import opened Text

  /** One message dictionary of the request; a key the dictionary lacks is None. */
  datatype Message = Message(role: Option<string>, content: Option<string>)

  /** What `data` holds under the key "messages". */
  datatype MessagesValue = Missing | NotAList | List(items: seq<Message>)

  const NoThink: string := "/no_think"

  /** The model names whose requests are rewritten: they mention "qwen" and
      do not end in "think". */
  predicate Triggers(model: string) {
    Contains(model, "qwen") && !EndsWith(model, "think")
  }

  predicate IsSystem(m: Message) {
    m.role == Some("system")
  }

  /** Index of the first message whose role is "system" (the generator
      expression searched with `next(..., None)`). */
  function FirstSystemIndex(msgs: seq<Message>): (r: Option<nat>)
    ensures r.Some? ==> r.value < |msgs| && IsSystem(msgs[r.value])
    ensures r.Some? ==> forall j :: 0 <= j < r.value ==> !IsSystem(msgs[j])
    ensures r.None? ==> forall j :: 0 <= j < |msgs| ==> !IsSystem(msgs[j])
  {
    if msgs == [] then None
    else if IsSystem(msgs[0]) then Some(0)
    else
      match FirstSystemIndex(msgs[1..])
      case None => None
      case Some(i) => Some(i + 1)
  }

  /** The new content of the system message: its old content and the
      directive joined by one space, then stripped of surrounding whitespace. */
  function NoThinkContent(content: string): string {
    Strip(content + " " + NoThink)
  }

  function WithNoThink(m: Message): Message {
    m.(content := Some(NoThinkContent(m.content.GetOr(""))))
  }

  /** The system message made up when the request has none. */
  const EmptySystem: Message := Message(Some("system"), Some(""))

  /** The message list after a triggered rewrite: the first system message
      (or an empty new one) is removed, given the directive and put first. */
  function NoThinkRewrite(msgs: seq<Message>): seq<Message> {
    match FirstSystemIndex(msgs)
    case Some(i) => [WithNoThink(msgs[i])] + msgs[..i] + msgs[i + 1..]
    case None => [WithNoThink(EmptySystem)] + msgs
  }

  /** A "messages" value that is not a list is read as an empty list. */
  function MessagesOrEmpty(v: MessagesValue): seq<Message> {
    if v.List? then v.items else []
  }

  /** The request dictionary `data` handed to the hook by the proxy; only
      its "model" and "messages" keys take part in the rewrite. */
  class CallData {
    var model: Option<string>
    var messages: MessagesValue

    constructor (model: Option<string>, messages: MessagesValue)
      ensures this.model == model && this.messages == messages
    {
      this.model := model;
      this.messages := messages;
    }
  }

  /** The hook itself: it updates `data` in place and returns it. */
  method AsyncPreCallHook(data: CallData) returns (result: CallData)
    modifies data
    ensures result == data && data.model == old(data.model)
    ensures !Triggers(old(data.model).GetOr("")) ==> data.messages == old(data.messages)
    ensures Triggers(old(data.model).GetOr(""))
      ==> data.messages == List(NoThinkRewrite(MessagesOrEmpty(old(data.messages))))
  {
    var model := data.model.GetOr("");
    var messages := if data.messages.List? then data.messages.items else [];
    if Triggers(model) {
      ghost var original := messages;
      var sysIdx := FirstSystemIndex(messages);
      var systemMessage;
      if sysIdx.Some? {
        systemMessage := messages[sysIdx.value];
        messages := messages[..sysIdx.value] + messages[sysIdx.value + 1..];
      } else {
        systemMessage := EmptySystem;
      }
      ghost var found := systemMessage;
      systemMessage := systemMessage.(content := Some(NoThinkContent(systemMessage.content.GetOr(""))));
      assert systemMessage == WithNoThink(found);
      messages := [systemMessage] + messages;
      assert messages == NoThinkRewrite(original);
      data.messages := List(messages);
    }
    result := data;
  }

  lemma LStripSpaceNoThink()
    ensures LStrip(" " + NoThink) == NoThink
  {
    var t := " " + NoThink;
    assert IsSpace(t[0]);
    assert t[1..] == NoThink;
    assert !IsSpace(NoThink[0]);
  }

  lemma RStripEndsWithNoThink(x: string)
    ensures RStrip(x + NoThink) == x + NoThink
  {
    var t := x + NoThink;
    assert t[|t| - 1] == NoThink[|NoThink| - 1] == 'k';
    RStripNonSpaceEnd(t);
  }

  /** The new content is the old content without its leading whitespace,
      one space and the directive; an all-whitespace content becomes the
      directive alone. */
  lemma NoThinkContentShape(content: string)
    ensures NoThinkContent(content)
      == if LStrip(content) == [] then NoThink else LStrip(content) + " " + NoThink
  {
    var tail := " " + NoThink;
    assert content + " " + NoThink == content + tail;
    LStripAppend(content, tail);
    if LStrip(content) == [] {
      LStripSpaceNoThink();
      RStripEndsWithNoThink([]);
      assert [] + NoThink == NoThink;
    } else {
      var l := LStrip(content);
      assert l + tail == (l + " ") + NoThink;
      RStripEndsWithNoThink(l + " ");
    }
  }

  /** Whatever the old content, the new one ends with the directive. */
  lemma NoThinkContentEnds(content: string)
    ensures EndsWith(NoThinkContent(content), NoThink)
  {
    NoThinkContentShape(content);
    var r := NoThinkContent(content);
    if LStrip(content) != [] {
      assert r[|r| - |NoThink|..] == NoThink;
    }
  }

  /** When a system message exists: the count is unchanged, the first system
      message comes first with the directive added, and every other message,
      later system messages included, keeps its relative order. */
  lemma RewriteMovesFirstSystem(msgs: seq<Message>, i: nat)
    requires FirstSystemIndex(msgs) == Some(i)
    ensures |NoThinkRewrite(msgs)| == |msgs|
    ensures NoThinkRewrite(msgs)[0] == WithNoThink(msgs[i])
    ensures forall j :: 0 <= j < i ==> NoThinkRewrite(msgs)[j + 1] == msgs[j]
    ensures forall j :: i < j < |msgs| ==> NoThinkRewrite(msgs)[j] == msgs[j]
  {
    var r := NoThinkRewrite(msgs);
    assert r == [WithNoThink(msgs[i])] + msgs[..i] + msgs[i + 1..];
    forall j | i < j < |msgs| ensures r[j] == msgs[j] {
      assert r[j] == msgs[i + 1..][j - i - 1];
    }
  }

  /** When no system message exists: exactly one message is added, at the
      front, and the others follow unchanged. */
  lemma RewriteAddsSystem(msgs: seq<Message>)
    requires FirstSystemIndex(msgs) == None
    ensures |NoThinkRewrite(msgs)| == |msgs| + 1
    ensures NoThinkRewrite(msgs)[0] == Message(Some("system"), Some(NoThink))
    ensures forall j :: 0 <= j < |msgs| ==> NoThinkRewrite(msgs)[j + 1] == msgs[j]
  {
    EmptySystemWithNoThink();
    assert NoThinkRewrite(msgs) == [Message(Some("system"), Some(NoThink))] + msgs;
  }

  /** The made-up system message ends up holding the directive alone. */
  lemma EmptySystemWithNoThink()
    ensures WithNoThink(EmptySystem) == Message(Some("system"), Some(NoThink))
  {
    NoThinkContentShape("");
  }

  /** After a triggered rewrite the first message is a system message whose
      content is the stripped join of its old content and the directive,
      and so ends with the directive. */
  lemma RewriteHead(msgs: seq<Message>)
    ensures |NoThinkRewrite(msgs)| > 0
    ensures IsSystem(NoThinkRewrite(msgs)[0])
    ensures NoThinkRewrite(msgs)[0].content.Some?
    ensures EndsWith(NoThinkRewrite(msgs)[0].content.value, NoThink)
    ensures FirstSystemIndex(msgs).Some? ==>
              NoThinkRewrite(msgs)[0].content.value
              == Strip(msgs[FirstSystemIndex(msgs).value].content.GetOr("") + " " + NoThink)
  {
    match FirstSystemIndex(msgs)
    case Some(i) =>
      NoThinkContentEnds(msgs[i].content.GetOr(""));
    case None =>
      NoThinkContentEnds("");
  }

  /** A request whose "messages" is missing or not a list ends up with the
      single message {"role": "system", "content": "/no_think"}. */
  lemma NonListBecomesSingleSystem(v: MessagesValue)
    requires !v.List?
    ensures NoThinkRewrite(MessagesOrEmpty(v)) == [Message(Some("system"), Some(NoThink))]
  {
    NoThinkContentShape("");
  }

  /** Joining the directive onto content that already ends with it adds a
      second copy. */
  lemma NoThinkContentTwice(content: string)
    ensures NoThinkContent(NoThinkContent(content)) == NoThinkContent(content) + " " + NoThink
    ensures EndsWith(NoThinkContent(NoThinkContent(content)), NoThink + " " + NoThink)
  {
    var c := NoThinkContent(content);
    NoThinkContentShape(content);
    if LStrip(content) == [] {
      assert c == NoThink;
      assert c[0] == '/';
    } else {
      assert c == LStrip(content) + " " + NoThink;
      assert c[0] == LStrip(content)[0];
    }
    assert LStrip(c) == c;
    NoThinkContentShape(c);
    NoThinkContentEnds(content);
    RepeatedSuffix(c, NoThink);
  }

  lemma RepeatedSuffix(c: string, x: string)
    requires EndsWith(c, x)
    ensures EndsWith(c + " " + x, x + " " + x)
  {
    var c2 := c + " " + x;
    var n := |c| - |x|;
    assert c2[n..] == c[n..] + " " + x;
  }

  /** Nothing guards against a second rewrite: it appends the directive again. */
  lemma RewriteTwiceRepeatsDirective(msgs: seq<Message>)
    ensures |NoThinkRewrite(NoThinkRewrite(msgs))| == |NoThinkRewrite(msgs)|
    ensures NoThinkRewrite(NoThinkRewrite(msgs))[0].content.Some?
    ensures EndsWith(NoThinkRewrite(NoThinkRewrite(msgs))[0].content.value, NoThink + " " + NoThink)
  {
    var once := NoThinkRewrite(msgs);
    RewriteHead(msgs);
    assert FirstSystemIndex(once) == Some(0);
    RewriteMovesFirstSystem(once, 0);
    var original := match FirstSystemIndex(msgs)
      case Some(i) => msgs[i].content.GetOr("")
      case None => "";
    assert once[0].content.value == NoThinkContent(original);
    NoThinkContentTwice(original);
  }
}
