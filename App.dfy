/**
 * The chat client's session state (App.tsx): the list of conversations, the
 * active conversation, the text box and the loading flag, and the handlers
 * that change them. Each list transition is a pure function over
 * `seq<ChatSession>`; the `ChatApp` class holds the state and its methods
 * apply those functions in the order the handlers call their setters.
 *
 * Ids and instants (`generateId`, `Date.now`) are passed in; every reading of
 * the clock within one synchronous step is the same instant.
 */
module App {
  import opened Common
  import opened Types
  import opened Text
  import opened Seqs
  import ChatService

  /** The title of a freshly created conversation. */
  const NewChatTitle: string := "New Chat"
  /** How many characters of the first message a title keeps. */
  const TitleLimit: nat := 30
  /** Appended to a shortened title. */
  const Ellipsis: string := "..."
  /** Shown when a failure carries no message of its own. */
  const FallbackError: string := "Something went wrong."

  /** No two sessions share an id. */
  predicate UniqueIds(sessions: seq<ChatSession>) {
    forall i, j :: 0 <= i < j < |sessions| ==> sessions[i].id != sessions[j].id
  }

  // ---------------------------------------------------------------------------
  // The active conversation.

  /** The conversation shown: the first session whose id is the current id; none when there is no current id. */
  function FindSession(sessions: seq<ChatSession>, id: Option<string>): Option<ChatSession> {
    if sessions == [] || id.None? then None
    else if sessions[0].id == id.value then Some(sessions[0])
    else FindSession(sessions[1..], id)
  }

  /**
   * The lookup finds the first session whose id is the current id, and finds
   * nothing exactly when no session has it (always, when there is no current id).
   */
  lemma {:induction false} FindSessionSpec(sessions: seq<ChatSession>, id: Option<string>)
    ensures FindSession(sessions, id).None?
        <==> forall i :: 0 <= i < |sessions| ==> Some(sessions[i].id) != id
    ensures FindSession(sessions, id).Some? ==>
      exists i :: 0 <= i < |sessions| && sessions[i] == FindSession(sessions, id).value
        && Some(sessions[i].id) == id
        && forall j :: 0 <= j < i ==> Some(sessions[j].id) != id
  {
    if sessions != [] && id.Some? && sessions[0].id != id.value {
      FindSessionSpec(sessions[1..], id);
      if FindSession(sessions, id).Some? {
        var i :| 0 <= i < |sessions[1..]| && sessions[1..][i] == FindSession(sessions, id).value
          && Some(sessions[1..][i].id) == id
          && forall j :: 0 <= j < i ==> Some(sessions[1..][j].id) != id;
        assert sessions[i + 1] == sessions[1..][i];
        forall j | 0 <= j < i + 1
          ensures Some(sessions[j].id) != id
        {
          if j > 0 {
            assert sessions[j] == sessions[1..][j - 1];
          }
        }
      } else {
        forall i | 0 <= i < |sessions|
          ensures Some(sessions[i].id) != id
        {
          if i > 0 {
            assert sessions[i] == sessions[1..][i - 1];
          }
        }
      }
    }
  }

  /** The messages on screen: those of the current conversation, or none. */
  function VisibleMessages(sessions: seq<ChatSession>, current: Option<string>): seq<Message> {
    match FindSession(sessions, current)
    case Some(s) => s.messages
    case None => []
  }

  /** With no session matching the current id (or no current id) nothing is on screen. */
  lemma VisibleMessagesNone(sessions: seq<ChatSession>, current: Option<string>)
    ensures (forall k :: 0 <= k < |sessions| ==> Some(sessions[k].id) != current)
        ==> VisibleMessages(sessions, current) == []
  {
    FindSessionSpec(sessions, current);
  }

  /** The first session matching the current id is the one whose messages are on screen. */
  lemma VisibleMessagesSpec(sessions: seq<ChatSession>, current: Option<string>, i: int)
    requires 0 <= i < |sessions|
    ensures Some(sessions[i].id) == current && (forall j :: 0 <= j < i ==> sessions[j].id != sessions[i].id)
        ==> VisibleMessages(sessions, current) == sessions[i].messages
  {
    FindSessionSpec(sessions, current);
    if FindSession(sessions, current).Some? {
      var k :| 0 <= k < |sessions| && sessions[k] == FindSession(sessions, current).value
        && Some(sessions[k].id) == current
        && forall j :: 0 <= j < k ==> Some(sessions[j].id) != current;
      if Some(sessions[i].id) == current && (forall j :: 0 <= j < i ==> sessions[j].id != sessions[i].id) {
        assert !(k < i) && !(i < k);
      }
    }
  }

  // ---------------------------------------------------------------------------
  // Creating and deleting conversations.

  /** The conversation `createNewChat` adds. */
  function NewSession(id: string, now: int, model: string): ChatSession {
    ChatSession(id, NewChatTitle, [], now, model)
  }

  /** Keeps the sessions whose id differs from `id`. */
  function OtherThan(id: string): ChatSession -> bool {
    (s: ChatSession) => s.id != id
  }

  /** The list after deleting conversation `id`: no session with that id is left. */
  function WithoutSession(sessions: seq<ChatSession>, id: string): (r: seq<ChatSession>)
    ensures multiset(r) <= multiset(sessions)
    ensures forall x :: x in r ==> x.id != id
  {
    FilterKept(sessions, OtherThan(id));
    Filter(sessions, OtherThan(id))
  }

  /** Deleting keeps exactly the sessions with another id. */
  lemma WithoutSessionMember(sessions: seq<ChatSession>, id: string, x: ChatSession)
    ensures x in WithoutSession(sessions, id) <==> x in sessions && x.id != id
  {
    FilterMember(sessions, OtherThan(id), x);
  }

  /** Deleting an id no session has leaves the list as it was. */
  lemma WithoutAbsentId(sessions: seq<ChatSession>, id: string)
    requires forall i :: 0 <= i < |sessions| ==> sessions[i].id != id
    ensures WithoutSession(sessions, id) == sessions
  {
    FilterKeepsAll(sessions, OtherThan(id));
  }

  /** Deleting works piece by piece, so the kept sessions stay in their order. */
  lemma WithoutSessionInOrder(a: seq<ChatSession>, b: seq<ChatSession>, id: string)
    ensures WithoutSession(a + b, id) == WithoutSession(a, id) + WithoutSession(b, id)
  {
    FilterAppend(a, b, OtherThan(id));
  }

  /** Deleting keeps the ids distinct. */
  lemma WithoutSessionUnique(sessions: seq<ChatSession>, id: string)
    requires UniqueIds(sessions)
    ensures UniqueIds(WithoutSession(sessions, id))
  {
    FilterSubsequenceUnique(sessions, OtherThan(id));
  }

  /** A filter of a list with distinct ids has distinct ids. */
  lemma {:induction false} FilterSubsequenceUnique(sessions: seq<ChatSession>, keep: ChatSession -> bool)
    requires UniqueIds(sessions)
    ensures UniqueIds(Filter(sessions, keep))
  {
    if sessions != [] {
      var head, tail := sessions[0], sessions[1..];
      HeadTail(sessions);
      FilterSubsequenceUnique(tail, keep);
      FilterCons(head, tail, keep);
      var rest := Filter(tail, keep);
      forall j | 0 <= j < |rest|
        ensures rest[j].id != head.id
      {
        FilterMember(tail, keep, rest[j]);
        var m :| 0 <= m < |tail| && tail[m] == rest[j];
        assert sessions[m + 1] == tail[m];
      }
      if keep(head) {
        UniqueCons(head, rest);
      }
    }
  }

  /** A session whose id no other has may join a list with distinct ids. */
  lemma UniqueCons(x: ChatSession, rest: seq<ChatSession>)
    requires UniqueIds(rest)
    requires forall j :: 0 <= j < |rest| ==> rest[j].id != x.id
    ensures UniqueIds([x] + rest)
  {
    var r := [x] + rest;
    forall i, j | 0 <= i < j < |r|
      ensures r[i].id != r[j].id
    {
      assert r[j] == rest[j - 1];
      if i > 0 {
        assert r[i] == rest[i - 1];
      }
    }
  }

  // ---------------------------------------------------------------------------
  // Titles.

  /**
   * The title a conversation takes from its first message: at most 30
   * characters, then an ellipsis if cut. It starts with the message's first
   * 30 characters (all of them, for a shorter message).
   */
  function Title(firstMessage: string): (r: string)
    ensures |r| <= TitleLimit + |Ellipsis|
    ensures var n := if |firstMessage| < TitleLimit then |firstMessage| else TitleLimit;
      n <= |r| && r[..n] == firstMessage[..n]
  {
    if |firstMessage| > TitleLimit then firstMessage[..TitleLimit] + Ellipsis else firstMessage
  }

  /**
   * A title is at most 33 characters and begins with the message's first 30;
   * a message of at most 30 characters is its own title, and a longer one is
   * cut to 30 characters followed by the ellipsis.
   */
  lemma TitleSpec(firstMessage: string)
    ensures |Title(firstMessage)| <= TitleLimit + |Ellipsis|
    ensures |firstMessage| <= TitleLimit ==> Title(firstMessage) == firstMessage
    ensures |firstMessage| > TitleLimit ==>
      |Title(firstMessage)| == TitleLimit + |Ellipsis|
      && Title(firstMessage)[..TitleLimit] == firstMessage[..TitleLimit]
      && Title(firstMessage)[TitleLimit..] == Ellipsis
  {
  }

  /**
   * The message survives as its own title exactly when it is short enough, or
   * when it is 30 characters followed by the ellipsis already.
   */
  lemma TitleKeepsMessageIff(firstMessage: string)
    ensures (Title(firstMessage) == firstMessage)
        <==> |firstMessage| <= TitleLimit
             || (|firstMessage| == TitleLimit + |Ellipsis| && firstMessage[TitleLimit..] == Ellipsis)
  {
    var m := firstMessage;
    if |m| > TitleLimit {
      if Title(m) == m {
        assert |m| == TitleLimit + |Ellipsis|;
        assert m[TitleLimit..] == Title(m)[TitleLimit..];
      }
      if |m| == TitleLimit + |Ellipsis| && m[TitleLimit..] == Ellipsis {
        assert m == m[..TitleLimit] + m[TitleLimit..];
      }
    }
  }

  // ---------------------------------------------------------------------------
  // Updating the session with a given id.

  /** Applies `f` to every session with id `id`, in place in the list. */
  function UpdateWhere(sessions: seq<ChatSession>, id: string, f: ChatSession -> ChatSession)
    : (r: seq<ChatSession>)
    ensures |r| == |sessions|
  {
    if sessions == [] then []
    else [if sessions[0].id == id then f(sessions[0]) else sessions[0]] + UpdateWhere(sessions[1..], id, f)
  }

  /** Position by position, the map changes the sessions with that id and no other. */
  lemma {:induction false} UpdateWhereAt(sessions: seq<ChatSession>, id: string, f: ChatSession -> ChatSession)
    ensures forall i :: 0 <= i < |sessions| ==>
      UpdateWhere(sessions, id, f)[i] == if sessions[i].id == id then f(sessions[i]) else sessions[i]
  {
    if sessions != [] {
      UpdateWhereAt(sessions[1..], id, f);
      var r := UpdateWhere(sessions, id, f);
      forall i | 0 <= i < |sessions|
        ensures r[i] == if sessions[i].id == id then f(sessions[i]) else sessions[i]
      {
        if i > 0 {
          assert r[i] == UpdateWhere(sessions[1..], id, f)[i - 1];
          assert sessions[i] == sessions[1..][i - 1];
        }
      }
    }
  }

  /** A copy of the session with `m` appended, and `lastModified` refreshed when a stamp is given. */
  function WithMessage(m: Message, stamp: Option<int>): ChatSession -> ChatSession {
    (s: ChatSession) =>
      s.(messages := s.messages + [m],
         lastModified := if stamp.Some? then stamp.value else s.lastModified)
  }

  /** Appends `m` to the conversation with id `id`. */
  function AppendMessage(sessions: seq<ChatSession>, id: string, m: Message, stamp: Option<int>)
    : seq<ChatSession>
  {
    UpdateWhere(sessions, id, WithMessage(m, stamp))
  }

  /**
   * Appending changes only the session with that id, where the message list
   * grows by exactly `m` at the end and `lastModified` takes the stamp if
   * there is one; the list keeps its length and every id stays in place.
   */
  lemma AppendMessageSpec(sessions: seq<ChatSession>, id: string, m: Message, stamp: Option<int>)
    ensures |AppendMessage(sessions, id, m, stamp)| == |sessions|
    ensures forall i :: 0 <= i < |sessions| && sessions[i].id != id ==>
      AppendMessage(sessions, id, m, stamp)[i] == sessions[i]
    ensures forall i :: 0 <= i < |sessions| && sessions[i].id == id ==>
      var s, t := sessions[i], AppendMessage(sessions, id, m, stamp)[i];
      && t.messages == s.messages + [m]
      && t.id == s.id && t.title == s.title && t.model == s.model
      && t.lastModified == (if stamp.Some? then stamp.value else s.lastModified)
  {
    UpdateWhereAt(sessions, id, WithMessage(m, stamp));
  }

  /** A copy of the session titled after `firstMessage` and stamped `now`. */
  function WithTitle(firstMessage: string, now: int): ChatSession -> ChatSession {
    (s: ChatSession) => s.(title := Title(firstMessage), lastModified := now)
  }

  /** The list after retitling conversation `id`. */
  function RetitleSession(sessions: seq<ChatSession>, id: string, firstMessage: string, now: int)
    : seq<ChatSession>
  {
    UpdateWhere(sessions, id, WithTitle(firstMessage, now))
  }

  /**
   * Retitling changes only the session with that id: its title becomes the
   * shortened first message and it is stamped `now`; its messages stay.
   */
  lemma RetitleSessionSpec(sessions: seq<ChatSession>, id: string, firstMessage: string, now: int)
    ensures |RetitleSession(sessions, id, firstMessage, now)| == |sessions|
    ensures forall i :: 0 <= i < |sessions| && sessions[i].id != id ==>
      RetitleSession(sessions, id, firstMessage, now)[i] == sessions[i]
    ensures forall i :: 0 <= i < |sessions| && sessions[i].id == id ==>
      var s, t := sessions[i], RetitleSession(sessions, id, firstMessage, now)[i];
      && t.title == Title(firstMessage) && t.lastModified == now
      && t.id == s.id && t.messages == s.messages && t.model == s.model
  {
    UpdateWhereAt(sessions, id, WithTitle(firstMessage, now));
  }

  /** A map that keeps ids keeps them distinct. */
  lemma UpdateWhereUnique(sessions: seq<ChatSession>, id: string, f: ChatSession -> ChatSession)
    requires UniqueIds(sessions)
    requires forall s: ChatSession :: f(s).id == s.id
    ensures UniqueIds(UpdateWhere(sessions, id, f))
  {
    UpdateWhereAt(sessions, id, f);
  }

  // ---------------------------------------------------------------------------
  // Sending a message.

  /** No current conversation: the id is null or empty, both falsy in JavaScript. */
  predicate NeedsNewChat(current: Option<string>) {
    current.None? || current.value == []
  }

  /** The guard of the send handler: the trimmed input is non-empty and no reply is pending. */
  predicate CanSend(input: string, isLoading: bool) {
    Trim(input) != [] && !isLoading
  }

  /** A send goes ahead exactly when the input holds a non-whitespace character and no reply is pending. */
  lemma CanSendIff(input: string, isLoading: bool)
    ensures CanSend(input, isLoading) <==> !Blank(input) && !isLoading
  {
    TrimEmptyIffBlank(input);
  }

  /** The conversation a send goes to: the current one, or the one created for it. */
  function ActiveId(current: Option<string>, newSessionId: string): string {
    if NeedsNewChat(current) then newSessionId else current.value
  }

  /**
   * Whether the send also sets the title, decided on the list as it was when
   * the handler started: the conversation is not in it, or has no messages.
   */
  predicate NeedsTitle(snapshot: seq<ChatSession>, active: string) {
    match FindSession(snapshot, Some(active))
    case None => true
    case Some(s) => s.messages == []
  }

  /**
   * The list after the synchronous part of `handleSendMessage`: one session
   * more when a conversation had to be opened, as many as before otherwise.
   */
  function Submitted(sessions: seq<ChatSession>, current: Option<string>, model: string,
                     newSessionId: string, userMsg: Message, sent: int): (r: seq<ChatSession>)
    ensures |r| == |sessions| + if NeedsNewChat(current) then 1 else 0
  {
    var active := ActiveId(current, newSessionId);
    var base := if NeedsNewChat(current) then [NewSession(newSessionId, sent, model)] + sessions else sessions;
    var appended := AppendMessage(base, active, userMsg, Some(sent));
    if NeedsTitle(sessions, active) then RetitleSession(appended, active, userMsg.content, sent)
    else appended
  }

  /** The message the reply adds: the response, or the error marked as one. */
  function ReplyMessage(res: Result<string, string>, replyId: string, replied: int): Message {
    match res
    case Success(text) => Message(replyId, Ai, text, replied, false)
    case Failure(e) => Message(replyId, Ai, if e == [] then FallbackError else e, replied, true)
  }

  /** Success refreshes `lastModified`; failure leaves it. */
  function ReplyStamp(res: Result<string, string>, replied: int): Option<int> {
    if res.Success? then Some(replied) else None
  }

  /** The list after the reply (or the error) has been appended. */
  function Replied(sessions: seq<ChatSession>, active: string, res: Result<string, string>,
                   replyId: string, replied: int): seq<ChatSession>
  {
    AppendMessage(sessions, active, ReplyMessage(res, replyId, replied), ReplyStamp(res, replied))
  }

  /**
   * The first send with no conversation open creates one at the front holding
   * just the user's message, titled after it; nothing else changes.
   */
  lemma SubmittedNewChat(sessions: seq<ChatSession>, current: Option<string>, model: string,
                         newSessionId: string, userMsg: Message, sent: int)
    requires NeedsNewChat(current)
    requires forall i :: 0 <= i < |sessions| ==> sessions[i].id != newSessionId
    ensures Submitted(sessions, current, model, newSessionId, userMsg, sent)
         == [ChatSession(newSessionId, Title(userMsg.content), [userMsg], sent, model)] + sessions
  {
    var base := [NewSession(newSessionId, sent, model)] + sessions;
    FindSessionSpec(sessions, Some(newSessionId));
    AppendMessageSpec(base, newSessionId, userMsg, Some(sent));
    var appended := AppendMessage(base, newSessionId, userMsg, Some(sent));
    RetitleSessionSpec(appended, newSessionId, userMsg.content, sent);
    var r := RetitleSession(appended, newSessionId, userMsg.content, sent);
    var want := [ChatSession(newSessionId, Title(userMsg.content), [userMsg], sent, model)] + sessions;
    forall i | 0 <= i < |r|
      ensures r[i] == want[i]
    {
      if i > 0 {
        assert base[i] == sessions[i - 1];
      }
    }
  }

  /** Opening a conversation under a fresh id keeps the ids distinct. */
  lemma NewChatUnique(sessions: seq<ChatSession>, id: string, now: int, model: string)
    requires UniqueIds(sessions)
    requires forall i :: 0 <= i < |sessions| ==> sessions[i].id != id
    ensures UniqueIds([NewSession(id, now, model)] + sessions)
  {
    UniqueCons(NewSession(id, now, model), sessions);
  }

  /**
   * A send keeps the ids distinct, provided the id of the conversation it
   * opens (when it opens one) is fresh.
   */
  lemma SubmittedUnique(sessions: seq<ChatSession>, current: Option<string>, model: string,
                        newSessionId: string, userMsg: Message, sent: int)
    requires UniqueIds(sessions)
    requires NeedsNewChat(current) ==> forall i :: 0 <= i < |sessions| ==> sessions[i].id != newSessionId
    ensures UniqueIds(Submitted(sessions, current, model, newSessionId, userMsg, sent))
  {
    var active := ActiveId(current, newSessionId);
    var base := if NeedsNewChat(current) then [NewSession(newSessionId, sent, model)] + sessions else sessions;
    if NeedsNewChat(current) {
      NewChatUnique(sessions, newSessionId, sent, model);
    }
    UpdateWhereUnique(base, active, WithMessage(userMsg, Some(sent)));
    var appended := AppendMessage(base, active, userMsg, Some(sent));
    UpdateWhereUnique(appended, active, WithTitle(userMsg.content, sent));
  }

  /**
   * A send into an open conversation changes only that conversation: the
   * user's message is appended, it is stamped `sent`, and it takes its title
   * from the message exactly when it had no messages before.
   */
  lemma SubmittedExistingChat(sessions: seq<ChatSession>, a: string, model: string,
                              newSessionId: string, userMsg: Message, sent: int, i: int)
    requires UniqueIds(sessions) && a != []
    requires 0 <= i < |sessions| && sessions[i].id == a
    ensures var r := Submitted(sessions, Some(a), model, newSessionId, userMsg, sent);
      && |r| == |sessions|
      && (forall k :: 0 <= k < |sessions| && k != i ==> r[k] == sessions[k])
      && r[i] == sessions[i].(messages := sessions[i].messages + [userMsg],
                              lastModified := sent,
                              title := if sessions[i].messages == [] then Title(userMsg.content)
                                       else sessions[i].title)
  {
    VisibleMessagesSpec(sessions, Some(a), i);
    FindSessionSpec(sessions, Some(a));
    AppendMessageSpec(sessions, a, userMsg, Some(sent));
    var appended := AppendMessage(sessions, a, userMsg, Some(sent));
    RetitleSessionSpec(appended, a, userMsg.content, sent);
    assert NeedsTitle(sessions, a) <==> sessions[i].messages == [];
  }

  /**
   * Every failure `sendMessageToApi` reports carries a message beginning with
   * the connection-failure prefix, so the "Something went wrong." fallback
   * never shows; every reply has non-empty content and is flagged as an error
   * exactly when the request failed.
   */
  lemma FallbackErrorUnreachable(net: ChatService.Request -> ChatService.Outcome, prompt: string,
                                 model: string, protocol: string, replyId: string, replied: int)
    ensures var res := ChatService.SendResult(net, prompt, model, protocol);
      var m := ReplyMessage(res, replyId, replied);
      && m.content != []
      && m.isError == res.Failure?
      && (res.Failure? ==> m.content == res.error && m.content != FallbackError
                           && StartsWith(m.content, ChatService.FailurePrefix))
      && (res.Success? ==> m.content == res.value)
  {
    var res := ChatService.SendResult(net, prompt, model, protocol);
    if res.Failure? {
      var e := res.error;
      var msg :| e == ChatService.ConnectionError(msg, protocol);
      ChatService.ConnectionErrorShape(msg, protocol);
      assert e != [];
      // The fallback text is shorter than the prefix every failure starts with.
      assert |FallbackError| < |ChatService.FailurePrefix| <= |e|;
    }
  }

  /**
   * The reply goes to the end of the active conversation only; its
   * `lastModified` moves to the reply's instant on success and stays on
   * failure.
   */
  lemma RepliedSpec(sessions: seq<ChatSession>, active: string, res: Result<string, string>,
                    replyId: string, replied: int)
    ensures |Replied(sessions, active, res, replyId, replied)| == |sessions|
    ensures forall i :: 0 <= i < |sessions| && sessions[i].id != active ==>
      Replied(sessions, active, res, replyId, replied)[i] == sessions[i]
    ensures forall i :: 0 <= i < |sessions| && sessions[i].id == active ==>
      var s, t := sessions[i], Replied(sessions, active, res, replyId, replied)[i];
      && t.messages == s.messages + [ReplyMessage(res, replyId, replied)]
      && t.messages[|s.messages|].isError == res.Failure?
      && t.title == s.title
      && (res.Success? ==> t.lastModified == replied)
      && (res.Failure? ==> t.lastModified == s.lastModified)
  {
    AppendMessageSpec(sessions, active, ReplyMessage(res, replyId, replied), ReplyStamp(res, replied));
  }

  // ---------------------------------------------------------------------------
  // The component state.

  class ChatApp {
    var sessions: seq<ChatSession>
    var currentSessionId: Option<string>
    var input: string
    var isLoading: bool
    var currentModel: string

    /** The initial state: no conversations, none open, an empty box, the first model. */
    constructor()
      ensures sessions == [] && currentSessionId == None && input == [] && !isLoading
      ensures currentModel == AvailableModels[0]
    {
      sessions := [];
      currentSessionId := None;
      input := [];
      isLoading := false;
      currentModel := AvailableModels[0];
    }

    /** `createNewChat`: a new conversation at the front, made current. */
    method CreateNewChat(id: string, now: int) returns (newId: string)
      modifies this
      ensures newId == id
      ensures sessions == [NewSession(id, now, currentModel)] + old(sessions)
      ensures sessions[0].title == NewChatTitle && sessions[0].messages == []
      ensures sessions[0].model == currentModel
      ensures UniqueIds(old(sessions)) && (forall i :: 0 <= i < |old(sessions)| ==> old(sessions)[i].id != id)
          ==> UniqueIds(sessions)
      ensures currentSessionId == Some(id)
      ensures input == old(input) && isLoading == old(isLoading) && currentModel == old(currentModel)
    {
      var newSession := NewSession(id, now, currentModel);
      if UniqueIds(sessions) && forall i :: 0 <= i < |sessions| ==> sessions[i].id != id {
        NewChatUnique(sessions, id, now, currentModel);
      }
      sessions := [newSession] + sessions;
      currentSessionId := Some(newSession.id);
      newId := newSession.id;
    }

    /** `deleteSession`: drops the sessions with that id; closes it if it was open. */
    method DeleteSession(id: string)
      modifies this
      ensures sessions == WithoutSession(old(sessions), id)
      ensures UniqueIds(old(sessions)) ==> UniqueIds(sessions)
      ensures currentSessionId == if old(currentSessionId) == Some(id) then None else old(currentSessionId)
      ensures input == old(input) && isLoading == old(isLoading) && currentModel == old(currentModel)
    {
      var updatedSessions := WithoutSession(sessions, id);
      if UniqueIds(sessions) {
        WithoutSessionUnique(sessions, id);
      }
      sessions := updatedSessions;
      if currentSessionId == Some(id) {
        currentSessionId := None;
      }
    }

    /** `updateSessionTitle`. */
    method UpdateSessionTitle(id: string, firstMessage: string, now: int)
      modifies this
      ensures sessions == RetitleSession(old(sessions), id, firstMessage, now)
      ensures currentSessionId == old(currentSessionId)
      ensures input == old(input) && isLoading == old(isLoading) && currentModel == old(currentModel)
    {
      sessions := RetitleSession(sessions, id, firstMessage, now);
    }

    /**
     * The part of `handleSendMessage` before the request: the guard, then the
     * submission, clearing the box and raising the loading flag.
     */
    method BeginSend(newSessionId: string, userMsgId: string, sent: int)
      returns (sending: bool, active: string, prompt: string)
      modifies this
      ensures sending <==> CanSend(old(input), old(isLoading))
      ensures !sending ==>
        && sessions == old(sessions) && currentSessionId == old(currentSessionId)
        && input == old(input) && isLoading == old(isLoading) && currentModel == old(currentModel)
      ensures sending ==>
        && prompt == old(input) && input == [] && isLoading && currentModel == old(currentModel)
        && active == ActiveId(old(currentSessionId), newSessionId)
        && currentSessionId == Some(active)
        && sessions == Submitted(old(sessions), old(currentSessionId), old(currentModel), newSessionId,
                                 Message(userMsgId, User, old(input), sent, false), sent)
    {
      sending := CanSend(input, isLoading);
      if !sending {
        return sending, [], [];
      }
      prompt := input;
      ghost var want := Submitted(sessions, currentSessionId, currentModel, newSessionId,
                                  Message(userMsgId, User, input, sent, false), sent);
      active := Submit(newSessionId, userMsgId, sent);
      assert sessions == want;
      input := [];
      isLoading := true;
    }

    /**
     * Opening a conversation if none is, appending the user's message, and
     * titling the conversation when it had no messages.
     */
    method Submit(newSessionId: string, userMsgId: string, sent: int) returns (active: string)
      modifies this
      ensures active == ActiveId(old(currentSessionId), newSessionId)
      ensures currentSessionId == Some(active)
      ensures sessions == Submitted(old(sessions), old(currentSessionId), old(currentModel), newSessionId,
                                    Message(userMsgId, User, old(input), sent, false), sent)
      ensures input == old(input) && isLoading == old(isLoading) && currentModel == old(currentModel)
    {
      var snapshot := sessions;
      ghost var current0, model0 := currentSessionId, currentModel;
      var activeSessionId := currentSessionId;
      ghost var base := if NeedsNewChat(current0) then [NewSession(newSessionId, sent, model0)] + snapshot
                        else snapshot;
      if NeedsNewChat(activeSessionId) {
        var newId := CreateNewChat(newSessionId, sent);
        activeSessionId := Some(newId);
      }
      assert sessions == base && currentSessionId == activeSessionId && activeSessionId.Some?;
      active := activeSessionId.value;
      var userMsg := Message(userMsgId, User, input, sent, false);
      ghost var appended := AppendMessage(base, active, userMsg, Some(sent));
      sessions := AppendMessage(sessions, active, userMsg, Some(sent));
      if NeedsTitle(snapshot, active) {
        UpdateSessionTitle(active, input, sent);
        assert sessions == RetitleSession(appended, active, userMsg.content, sent);
      } else {
        assert sessions == appended;
      }
    }

    /** The part after the request settles: the reply or the error, and the flag lowered. */
    method FinishSend(active: string, res: Result<string, string>, replyId: string, replied: int)
      modifies this
      ensures sessions == Replied(old(sessions), active, res, replyId, replied)
      ensures !isLoading
      ensures currentSessionId == old(currentSessionId) && input == old(input)
      ensures currentModel == old(currentModel)
    {
      match res {
        case Success(responseText) =>
          var aiMsg := Message(replyId, Ai, responseText, replied, false);
          sessions := AppendMessage(sessions, active, aiMsg, Some(replied));
        case Failure(e) =>
          var errorMsg := Message(replyId, Ai, if e == [] then FallbackError else e, replied, true);
          sessions := AppendMessage(sessions, active, errorMsg, None);
      }
      isLoading := false;
    }

    /**
     * `handleSendMessage`, with the request settled in one step: returns the
     * requests issued, and changes nothing when the box is blank or a reply
     * is pending.
     */
    method HandleSendMessage(net: ChatService.Request -> ChatService.Outcome, protocol: string,
                             newSessionId: string, userMsgId: string, replyId: string,
                             sent: int, replied: int)
      returns (issued: seq<ChatService.Request>)
      modifies this
      ensures !CanSend(old(input), old(isLoading)) ==>
        && issued == []
        && sessions == old(sessions) && currentSessionId == old(currentSessionId)
        && input == old(input) && isLoading == old(isLoading) && currentModel == old(currentModel)
      ensures CanSend(old(input), old(isLoading)) ==>
        var active := ActiveId(old(currentSessionId), newSessionId);
        var userMsg := Message(userMsgId, User, old(input), sent, false);
        var res := ChatService.SendResult(net, old(input), old(currentModel), protocol);
        && issued == ChatService.Issued(net, ChatService.Strategies(ChatService.TargetUrl(old(input), old(currentModel))))
        && sessions == Replied(Submitted(old(sessions), old(currentSessionId), old(currentModel),
                                         newSessionId, userMsg, sent),
                               active, res, replyId, replied)
        && currentSessionId == Some(active)
        && input == [] && !isLoading && currentModel == old(currentModel)
    {
      ghost var submitted := Submitted(sessions, currentSessionId, currentModel, newSessionId,
                                       Message(userMsgId, User, input, sent, false), sent);
      var sending, active, prompt := BeginSend(newSessionId, userMsgId, sent);
      if !sending {
        return [];
      }
      assert sessions == submitted;
      var res;
      res, issued := ChatService.SendMessageToApi(net, prompt, currentModel, protocol);
      FinishSend(active, res, replyId, replied);
    }
  }
}
