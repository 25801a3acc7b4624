/** The chat room page (pages/ChatRoom.tsx): who may open a room, what
    sending a message does, how delivered messages accumulate, and how the
    message list is cut into bursts for display. Timestamps are integer
    milliseconds. */
module ChatRoom {
  import opened Wrappers
  import opened Seqs
  import opened Text
  import opened Entities

  type RoomId = string

  datatype ChatMessage = ChatMessage(roomId: RoomId, senderId: UserId, senderName: Option<string>, content: string, createdAt: int)

  /** The room row as fetched: the two duos it connects. */
  datatype Room = Room(id: RoomId, duo1Id: DuoId, duo2Id: DuoId)

  /** Two messages more than this far apart belong to different bursts. */
  const BurstGapMs: int := 10 * 60 * 1000

  /** The user's duo ids include one of the room's two duos. */
  predicate CanAccess(userDuoIds: seq<DuoId>, room: Room) {
    room.duo1Id in userDuoIds || room.duo2Id in userDuoIds
  }

  /** How loading the room ends. */
  datatype LoadOutcome =
    | DuosFetchFailed     // 'Failed to fetch user duos'
    | NoDuos              // 'You do not have any duos'
    | RoomFetchFailed     // 'Failed to fetch chat room'
    | AccessDenied        // 'You do not have access to this chat room'
    | MessagesFetchFailed(room: Room, userDuoIds: seq<DuoId>)   // 'Failed to fetch messages'
    | Opened(room: Room, userDuoIds: seq<DuoId>, messages: seq<ChatMessage>)

  /** `fetchChatRoom`: the user's duos, then the room, then the access check,
      then the messages in ascending time order. Each argument is what the
      corresponding query returned. */
  function LoadRoom(duos: Result<seq<DuoId>, string>, room: Result<Room, string>,
                    messages: Result<seq<ChatMessage>, string>): (r: LoadOutcome)
    ensures (r.Opened? || r.MessagesFetchFailed?) ==>
      duos.Ok? && room.Ok? && r.room == room.value && r.userDuoIds == duos.value
      && CanAccess(duos.value, room.value)
    ensures r.Opened? ==> messages.Ok? && r.messages == messages.value
    ensures duos.Ok? && duos.value != [] && room.Ok? && !CanAccess(duos.value, room.value) ==> r == AccessDenied
    ensures duos.Err? ==> r == DuosFetchFailed
    ensures duos.Ok? && duos.value == [] ==> r == NoDuos
    ensures duos.Ok? && duos.value != [] && room.Err? ==> r == RoomFetchFailed
    ensures duos.Ok? && duos.value != [] && room.Ok? && CanAccess(duos.value, room.value) ==>
      r == if messages.Ok? then Opened(room.value, duos.value, messages.value) else MessagesFetchFailed(room.value, duos.value)
  {
    if duos.Err? then DuosFetchFailed
    else if duos.value == [] then NoDuos
    else if room.Err? then RoomFetchFailed
    else if !CanAccess(duos.value, room.value) then AccessDenied
    else if messages.Err? then MessagesFetchFailed(room.value, duos.value)
    else Opened(room.value, duos.value, messages.value)
  }

  /** Opening a room means belonging to one of its duos. */
  lemma OpenedOnlyForMembers(duos: Result<seq<DuoId>, string>, room: Result<Room, string>,
                             messages: Result<seq<ChatMessage>, string>)
    requires LoadRoom(duos, room, messages).Opened?
    ensures exists i :: 0 <= i < |duos.value| && (duos.value[i] == room.value.duo1Id || duos.value[i] == room.value.duo2Id)
  {
    var r := room.value;
    if r.duo1Id in duos.value {
      var i :| 0 <= i < |duos.value| && duos.value[i] == r.duo1Id;
    } else {
      var i :| 0 <= i < |duos.value| && duos.value[i] == r.duo2Id;
    }
  }

  /** The guard at the top of `handleSendMessage`: nothing happens unless the
      trimmed input is non-empty and the user, the room id and a non-empty duo
      list are all present. */
  predicate SendAllowed(input: string, user: Option<UserId>, roomId: Option<RoomId>, userDuos: Option<seq<DuoId>>) {
    Trim(input) != [] && user.Some? && roomId.Some? && userDuos.Some? && userDuos.value != []
  }

  /** An input of nothing but whitespace is never sent. */
  lemma BlankInputNeverSent(input: string, user: Option<UserId>, roomId: Option<RoomId>, userDuos: Option<seq<DuoId>>)
    requires IsBlank(input)
    ensures !SendAllowed(input, user, roomId, userDuos)
  {
    TrimEmptyIffBlank(input);
  }

  /** Cuts `messages` into bursts: a message starts a new burst when it is
      the first, or comes more than ten minutes after the message before it. */
  method GroupMessagesByTime(messages: seq<ChatMessage>) returns (groups: seq<seq<ChatMessage>>)
    ensures Concat(groups) == messages
    ensures groups == [] <==> messages == []
    ensures Bursts(groups)
  {
    groups := [];
    var current: seq<ChatMessage> := [];
    var lastTime: Option<int> := None;
    for i := 0 to |messages|
      invariant Concat(groups) + current == messages[..i]
      invariant i == 0 ==> groups == [] && current == [] && lastTime.None?
      invariant i > 0 ==> current != [] && lastTime == Some(Last(current).createdAt)
      invariant Bursts(groups)
      invariant WithinBurst(current)
      invariant groups != [] && current != [] ==> StartsNewBurst(Last(groups), current)
    {
      var message := messages[i];
      assert messages[..i + 1] == messages[..i] + [message];
      if lastTime.None? || message.createdAt - lastTime.value > BurstGapMs {
        if |current| > 0 {
          CloseBurst(groups, current, message);
          groups := groups + [current];
        }
        current := [message];
      } else {
        ExtendBurst(current, message);
        current := current + [message];
      }
      lastTime := Some(message.createdAt);
    }
    assert messages[..|messages|] == messages;
    if |current| > 0 {
      BurstsSnoc(groups, current);
      ConcatSnoc(groups, current);
      groups := groups + [current];
    }
  }

  /** Closing the current burst when `message` comes too late: the burst
      joins the groups and `message` starts the next one. */
  lemma CloseBurst(groups: seq<seq<ChatMessage>>, current: seq<ChatMessage>, message: ChatMessage)
    requires Bursts(groups) && current != [] && WithinBurst(current)
    requires groups != [] ==> StartsNewBurst(Last(groups), current)
    requires message.createdAt - Last(current).createdAt > BurstGapMs
    ensures Bursts(groups + [current])
    ensures Concat(groups + [current]) == Concat(groups) + current
    ensures StartsNewBurst(Last(groups + [current]), [message])
  {
    BurstsSnoc(groups, current);
    ConcatSnoc(groups, current);
  }

  /** A message at most ten minutes after the last one stays in its burst. */
  lemma ExtendBurst(current: seq<ChatMessage>, message: ChatMessage)
    requires current != [] && WithinBurst(current)
    requires message.createdAt - Last(current).createdAt <= BurstGapMs
    ensures WithinBurst(current + [message]) && Last(current + [message]) == message
  {
  }

  predicate Bursts(groups: seq<seq<ChatMessage>>) {
    && (forall k :: 0 <= k < |groups| ==> groups[k] != [] && WithinBurst(groups[k]))
    && (forall k :: 0 < k < |groups| ==> StartsNewBurst(groups[k - 1], groups[k]))
  }

  lemma BurstsSnoc(groups: seq<seq<ChatMessage>>, g: seq<ChatMessage>)
    requires Bursts(groups) && g != [] && WithinBurst(g)
    requires groups != [] ==> StartsNewBurst(Last(groups), g)
    ensures Bursts(groups + [g])
  {
  }

  /** Inside a burst each message is at most ten minutes after the one
      before it (not after the burst's first message). */
  predicate WithinBurst(g: seq<ChatMessage>) {
    forall i :: 0 < i < |g| ==> g[i].createdAt - g[i - 1].createdAt <= BurstGapMs
  }

  /** `next` opens more than ten minutes after the last message of `prev`. */
  predicate StartsNewBurst(prev: seq<ChatMessage>, next: seq<ChatMessage>) {
    prev != [] && next != [] && next[0].createdAt - Last(prev).createdAt > BurstGapMs
  }

  /** The page's message list and input box, and the room's cached last
      message. */
  class ChatRoomView {
    var messages: seq<ChatMessage>
    var messageInput: string
    var lastMessage: Option<string>

    constructor (initial: seq<ChatMessage>, lastMessage: Option<string>)
      ensures messages == initial && messageInput == "" && this.lastMessage == lastMessage
    {
      messages := initial;
      messageInput := "";
      this.lastMessage := lastMessage;
    }

    /** The subscription callback: the inserted message goes to the end. */
    method Deliver(m: ChatMessage)
      modifies this
      ensures messages == old(messages) + [m]
      ensures messageInput == old(messageInput) && lastMessage == old(lastMessage)
    {
      messages := messages + [m];
    }

    /** `handleSendMessage`. The outcomes of the three queries it makes are
        parameters: the lookup of the sender's name (which may succeed with
        no name), the insert and the update of the room's last message. The message itself
        reaches the list through `Deliver`, not here. */
    method SendMessage(user: Option<UserId>, roomId: Option<RoomId>, userDuos: Option<seq<DuoId>>,
                       nameLookup: Result<Option<string>, string>, insertSucceeded: bool, roomUpdateSucceeded: bool)
      returns (inserted: Option<ChatMessage>)
      modifies this
      ensures !SendAllowed(old(messageInput), user, roomId, userDuos) ==> inserted == None
      ensures inserted.Some? <==>
        SendAllowed(old(messageInput), user, roomId, userDuos) && nameLookup.Ok? && insertSucceeded
      ensures inserted.Some? ==>
        inserted.value == ChatMessage(roomId.value, user.value, nameLookup.value, Trim(old(messageInput)), inserted.value.createdAt)
      ensures messageInput == if inserted.Some? then "" else old(messageInput)
      ensures lastMessage == if inserted.Some? && roomUpdateSucceeded then Some(Trim(old(messageInput))) else old(lastMessage)
      ensures messages == old(messages)
    {
      if !SendAllowed(messageInput, user, roomId, userDuos) {
        return None;
      }
      if nameLookup.Err? {
        return None;
      }
      var content := Trim(messageInput);
      if !insertSucceeded {
        return None;
      }
      inserted := Some(ChatMessage(roomId.value, user.value, nameLookup.value, content, 0));
      if roomUpdateSucceeded {
        lastMessage := Some(content);
      }
      messageInput := "";
    }
  }
}
