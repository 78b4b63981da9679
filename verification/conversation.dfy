/** Conversation messages and their conversion to completion-request entries
    (app/core/utils.py `format_conversation_history`). */
module Conversation {
  import opened Wrappers

  datatype Role = User | Assistant | System

  /** One entry of a session's `conversation_history["messages"]` list. The
      timestamp (an ISO string in the source) is an integer here; `imageAnalysis`
      is the optional `image_analysis` key of image replies. */
  datatype Message = Message(role: Role, content: string, timestamp: int, imageAnalysis: Option<string>)

  /** An entry of a completion request: role and content only. */
  datatype ApiMessage = ApiMessage(role: Role, content: string)

  function ToApi(m: Message): (r: ApiMessage)
    ensures r.role == m.role && r.content == m.content
  {
    ApiMessage(m.role, m.content)
  }

  /** `format_conversation_history` applied to a list of messages. */
  function Format(history: seq<Message>): (r: seq<ApiMessage>)
    ensures |r| == |history|
    ensures forall i :: 0 <= i < |history| ==> r[i].role == history[i].role && r[i].content == history[i].content
    ensures forall i :: 0 <= i < |history| ==> r[i] == ToApi(history[i])
  {
    if history == [] then [] else [ToApi(history[0])] + Format(history[1..])
  }

  lemma {:induction false} FormatAppend(a: seq<Message>, b: seq<Message>)
    ensures Format(a + b) == Format(a) + Format(b)
    decreases |a|
  {
    if a == [] {
      assert a + b == b;
    } else {
      assert (a + b)[1..] == a[1..] + b;
      FormatAppend(a[1..], b);
    }
  }

  /** Two histories that agree on roles and contents format identically: the
      timestamp and image-analysis keys never reach the request. */
  lemma FormatDropsMetadata(a: seq<Message>, b: seq<Message>)
    requires |a| == |b|
    requires forall i :: 0 <= i < |a| ==> a[i].role == b[i].role && a[i].content == b[i].content
    ensures Format(a) == Format(b)
  {
  }

  // ------------------------------------------------------------------
  // The call site. `format_conversation_history` iterates its argument. A
  // list yields its messages; the `{"messages": [...]}` wrapper that
  // app/core/ai/chat.py passes is a dict, whose iteration yields its single
  // key, the string "messages", and subscripting a string with "role" raises.

  /** What the formatter is given: a message list, or the wrapper dict. */
  datatype HistoryArg = MessageList(items: seq<Message>) | Wrapper(messages: seq<Message>)

  /** One value produced by iterating the argument. */
  datatype Item = MessageItem(message: Message) | KeyItem(key: string)

  function Iterate(arg: HistoryArg): (r: seq<Item>)
    ensures arg.Wrapper? ==> r == [KeyItem("messages")]
    ensures arg.MessageList? ==> |r| == |arg.items| && forall i :: 0 <= i < |r| ==> r[i] == MessageItem(arg.items[i])
  {
    match arg
    case MessageList(items) => seq(|items|, i requires 0 <= i < |items| => MessageItem(items[i]))
    case Wrapper(_) => [KeyItem("messages")]
  }

  /** The loop of `format_conversation_history` over iterated values; `None`
      stands for the TypeError raised at the first non-message value. */
  function FormatItems(items: seq<Item>): (r: Option<seq<ApiMessage>>)
    ensures r.Some? <==> forall i :: 0 <= i < |items| ==> items[i].MessageItem?
    ensures r.Some? ==> |r.value| == |items|
  {
    if items == [] then Some([])
    else match items[0]
      case KeyItem(_) => None
      case MessageItem(m) =>
        match FormatItems(items[1..])
        case None => None
        case Some(rest) => Some([ToApi(m)] + rest)
  }

  function FormatArgument(arg: HistoryArg): Option<seq<ApiMessage>> {
    FormatItems(Iterate(arg))
  }

  /** Given the list, the formatter succeeds and agrees with `Format`. */
  lemma {:induction false} FormatListArgument(history: seq<Message>)
    ensures FormatArgument(MessageList(history)) == Some(Format(history))
    decreases |history|
  {
    if history != [] {
      assert Iterate(MessageList(history))[1..] == Iterate(MessageList(history[1..]));
      FormatListArgument(history[1..]);
    }
  }

  /** Given the wrapper dict, the formatter raises whatever the messages are. */
  lemma FormatWrapperArgumentFails(history: seq<Message>)
    ensures FormatArgument(Wrapper(history)) == None
  {
  }

  /** The history window of a completion request: the last `n` entries, or all when fewer. */
  function LastN(history: seq<Message>, n: nat): (r: seq<Message>)
    ensures |r| == if |history| < n then |history| else n
    ensures forall i :: 0 <= i < |r| ==> r[i] == history[|history| - |r| + i]
  {
    if |history| <= n then history else history[|history| - n..]
  }
}
