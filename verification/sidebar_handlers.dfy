/** The sidebar's chat-session handlers: creating a chat from the name typed
    in the new-chat dialog, and deleting a chat. The replies of the session
    lookup, the insert, the delete and the refetch are parameters. */
module SidebarHandlers {
  import opened Wrappers
  import opened Text

  /** A row of the `chat_sessions` table. */
  datatype Chat = Chat(id: int, sessionName: string)

  /** The row `handleCreateChat` inserts. */
  datatype NewChat = NewChat(userId: int, sessionName: string)

  /** The toast a handler shows, if any. */
  datatype Notice = Quiet | Failure(text: string) | Warning(text: string) | Success(text: string)

  /** Where the guards of `handleCreateChat` end: a blank name stops at once,
      a missing session or user stops with an error, a name already in use
      stops with a warning, and only then is the trimmed name inserted. */
  datatype CreateStep = BlankName | NoSession | DuplicateName | Insert(row: NewChat)

  /** An existing chat is called exactly `name` (the stored names are
      compared as they are, the typed name trimmed). */
  predicate NameTaken(chats: seq<Chat>, name: string) {
    exists i :: 0 <= i < |chats| && chats[i].sessionName == name
  }

  /** The guard sequence of `handleCreateChat`; `session` is the lookup's
      reply, carrying the signed-in user's id when there is one. */
  function CreateGuards(name: string, chats: seq<Chat>, session: Reply<Option<int>>): (step: CreateStep)
    ensures step.BlankName? <==> IsBlank(name)
    ensures step.NoSession? <==> !IsBlank(name) && !(session.Ok? && session.data.Some?)
    ensures step.DuplicateName? <==> !IsBlank(name) && session.Ok? && session.data.Some? && NameTaken(chats, Trim(name))
    ensures step.Insert? ==> step.row == NewChat(session.data.value, Trim(name))
  {
    if Trim(name) == [] then BlankName
    else if !(session.Ok? && session.data.Some?) then NoSession
    else if NameTaken(chats, Trim(name)) then DuplicateName
    else Insert(NewChat(session.data.value, Trim(name)))
  }

  /** A name that is inserted is non-empty, already trimmed, and not the
      name of any existing chat. */
  lemma InsertedNameFresh(name: string, chats: seq<Chat>, session: Reply<Option<int>>)
    requires CreateGuards(name, chats, session).Insert?
    ensures var n := CreateGuards(name, chats, session).row.sessionName;
      n != [] && Trim(n) == n && forall i :: 0 <= i < |chats| ==> chats[i].sessionName != n
  {
    TrimIdempotent(name);
  }

  /** The refetch after a delete: the chat list it loaded, or a throw. */
  datatype Refetch = Refetched(chats: seq<Chat>) | RefetchThrew

  /** The toast of the `catch` around the delete. */
  const DeleteThrewText := "An unexpected error occurred while deleting the chat. Please try again."

  /** The current chat after deleting `chatId`: cleared exactly when it is
      the deleted chat. */
  function CurrentAfterDelete(currentChat: Option<int>, chatId: int): (r: Option<int>)
    ensures r.None? <==> currentChat.None? || currentChat == Some(chatId)
    ensures r.Some? ==> r == currentChat
  {
    if currentChat == Some(chatId) then None else currentChat
  }

  class Sidebar {
    /** The chat list of the store. */
    var chats: seq<Chat>
    var currentChat: Option<int>
    var isModalOpen: bool
    /** The name typed in the new-chat dialog. */
    var newChatName: string

    constructor(chats: seq<Chat>)
      ensures this.chats == chats && currentChat.None? && !isModalOpen && newChatName == ""
    {
      this.chats := chats;
      currentChat := None;
      isModalOpen := false;
      newChatName := "";
    }

    /** `handleCreateChat` given the session lookup's reply and the insert's
        reply (the inserted row, or none). Every guard that stops the
        handler leaves the state as it is and inserts nothing. Past the
        guards the dialog is closed before the insert; a returned row is
        added to the list, becomes the current chat and clears the typed
        name; an error or an empty reply only gives a notice. */
    method HandleCreateChat(session: Reply<Option<int>>, insertReply: Reply<Option<Chat>>) returns (inserted: Option<NewChat>, notice: Notice)
      modifies this
      ensures var step := CreateGuards(old(newChatName), old(chats), session);
        !step.Insert? ==>
          inserted.None? && chats == old(chats) && currentChat == old(currentChat)
          && isModalOpen == old(isModalOpen) && newChatName == old(newChatName)
          && (step.BlankName? ==> notice == Quiet)
          && (step.NoSession? ==> notice == Failure("No active user session. Please log in again."))
          && (step.DuplicateName? ==> notice == Warning("A chat with this name already exists."))
      ensures var step := CreateGuards(old(newChatName), old(chats), session);
        step.Insert? ==>
          inserted == Some(step.row) && !isModalOpen
          && (insertReply.Ok? && insertReply.data.Some? ==>
                chats == old(chats) + [insertReply.data.value] && currentChat == Some(insertReply.data.value.id)
                && newChatName == "" && notice == Success("New chat session added successfully"))
          && (insertReply.Err? ==>
                chats == old(chats) && currentChat == old(currentChat) && newChatName == old(newChatName)
                && notice == Failure("Error adding chat session: " + insertReply.message))
          && (insertReply.Ok? && insertReply.data.None? ==>
                chats == old(chats) && currentChat == old(currentChat) && newChatName == old(newChatName)
                && notice == Failure("Error creating chat: No data returned"))
    {
      var step := CreateGuards(newChatName, chats, session);
      inserted := None;
      if step.BlankName? {
        notice := Quiet;
        return;
      } else if step.NoSession? {
        notice := Failure("No active user session. Please log in again.");
        return;
      } else if step.DuplicateName? {
        notice := Warning("A chat with this name already exists.");
        return;
      }
      isModalOpen := false;
      inserted := Some(step.row);
      if insertReply.Err? {
        notice := Failure("Error adding chat session: " + insertReply.message);
      } else if insertReply.data.Some? {
        var row := insertReply.data.value;
        chats := chats + [row];
        currentChat := Some(row.id);
        notice := Success("New chat session added successfully");
        newChatName := "";
      } else {
        notice := Failure("Error creating chat: No data returned");
      }
    }

    /** `handleDeleteChat` given the outcome of the delete and of the
        refetch. A failed delete neither refetches nor touches the current
        chat. A successful one takes the refetched list and clears the
        current chat (and its messages) only when it is the deleted one. When
        the delete or the refetch throws, the handler's `catch` leaves the
        list and the current chat as they were and shows a generic error;
        the sidebar passes the store's `fetchChats`, which the chat store
        does not define, so calling it throws. */
    method HandleDeleteChat(chatId: int, delete: Outcome<()>, refetch: Refetch) returns (clearedMessages: Option<int>, notice: Notice)
      modifies this
      ensures isModalOpen == old(isModalOpen) && newChatName == old(newChatName)
      ensures delete.Completed? && delete.reply.Err? ==>
        chats == old(chats) && currentChat == old(currentChat) && clearedMessages.None?
        && notice == Failure("Error deleting chat session: " + delete.reply.message)
      ensures delete.Threw? || (delete.Completed? && delete.reply.Ok? && refetch.RefetchThrew?) ==>
        chats == old(chats) && currentChat == old(currentChat) && clearedMessages.None?
        && notice == Failure(DeleteThrewText)
      ensures delete.Completed? && delete.reply.Ok? && refetch.Refetched? ==>
        chats == refetch.chats && currentChat == CurrentAfterDelete(old(currentChat), chatId)
        && (clearedMessages == Some(chatId) <==> old(currentChat) == Some(chatId))
        && (clearedMessages.Some? ==> clearedMessages == Some(chatId))
        && notice == Success("Chat session deleted successfully")
    {
      clearedMessages := None;
      if delete.Threw? {
        notice := Failure(DeleteThrewText);
        return;
      }
      if delete.reply.Err? {
        notice := Failure("Error deleting chat session: " + delete.reply.message);
        return;
      }
      if refetch.RefetchThrew? {
        notice := Failure(DeleteThrewText);
        return;
      }
      chats := refetch.chats;
      if currentChat == Some(chatId) {
        currentChat := None;
        clearedMessages := Some(chatId);
      }
      notice := Success("Chat session deleted successfully");
    }
  }

  /** After a successful delete the deleted chat is never the current one,
      and a different current chat survives. */
  lemma DeleteNeverKeepsDeleted(currentChat: Option<int>, chatId: int)
    ensures CurrentAfterDelete(currentChat, chatId) != Some(chatId)
    ensures currentChat.Some? && currentChat.value != chatId ==> CurrentAfterDelete(currentChat, chatId) == currentChat
  {
  }

  /** The guards only ever look at the typed name trimmed: names differing
      only in surrounding white space lead to the same step. */
  lemma GuardsSeeTrimmedName(name: string, chats: seq<Chat>, session: Reply<Option<int>>)
    ensures CreateGuards(Trim(name), chats, session) == CreateGuards(name, chats, session)
  {
    TrimIdempotent(name);
  }
}
