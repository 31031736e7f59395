/**
 * The browser client's chat component: its pure helpers (the room id, the
 * member toggle, the header name, the avatar initials, the send and create
 * guards) and its state, updated by the socket listeners and the handlers
 * the buttons call. What the client sends to the server is kept as a log.
 */
module Client {
  import opened JsRuntime
  import opened Protocol
  import Server

  /** What the client emits on its socket, and the two transport calls of `logout`. */
  datatype ClientEvent =
    | JoinRequest(username: string)
    | SendRequest(recipient: string, message: string, isGroup: bool)
    | CreateGroupRequest(groupName: string, members: seq<string>)
    | HistoryRequest(room: string, isGroup: bool)
    | DisconnectRequest
    | ConnectRequest

  /** The header text when no conversation is selected. */
  const NoChatSelected: string := "Chọn một cuộc trò chuyện"
  /** The header text for a selected group id that is not in the list. */
  const GroupNotFound: string := "Nhóm không tồn tại"

  // ---------------------------------------------------------------------
  // Room ids

  /**
   * `isGroup ? recipient : [username, recipient].sort().join("-")`, the one
   * expression the `message` listener, `sendMessage` and `selectChat` all use.
   * The recipient is `null` in the listener while nothing is selected.
   */
  function RoomId(username: string, recipient: JsValue, isGroup: bool): JsValue
  {
    if isGroup then recipient else JsString(ArrayJoin(SortPair(JsString(username), recipient), "-"))
  }

  /** `selectedRecipient` as JavaScript holds it. */
  function Selected(selected: Option<string>): JsValue
  {
    if selected.Some? then JsString(selected.value) else JsNull
  }

  /**
   * The client's direct room id agrees with the server's key, both for the
   * sender's own view and for the recipient's view of the same chat.
   */
  lemma RoomIdMatchesServer(username: string, recipient: string)
    ensures RoomId(username, JsString(recipient), false) == JsString(Server.DirectRoom(Some(username), recipient))
    ensures RoomId(recipient, JsString(username), false) == JsString(Server.DirectRoom(Some(username), recipient))
  {
    Server.DirectRoomSymmetric(username, recipient);
  }

  /** In group mode with nothing selected the current room is `null`, so no message matches it. */
  lemma NoGroupSelectedMatchesNothing(username: string, msg: WireMessage)
    ensures RoomId(username, Selected(None), true) != JsString(msg.room)
  {
  }

  // ---------------------------------------------------------------------
  // Guards

  /** `message.trim() && selectedRecipient`. */
  predicate CanSend(message: string, selected: Option<string>)
  {
    Trim(message) != "" && selected.Some? && selected.value != ""
  }

  /** A message goes out exactly when it has a non-blank character and a recipient is selected. */
  lemma CanSendIff(message: string, selected: Option<string>)
    ensures CanSend(message, selected)
        <==> (exists k :: 0 <= k < |message| && !IsWhitespace(message[k])) && selected.Some? && selected.value != ""
  {
    TrimNonEmpty(message);
  }

  /** `groupName.trim() && groupMembers.length > 0`. */
  predicate CanCreateGroup(groupName: string, members: seq<string>)
  {
    Trim(groupName) != "" && |members| > 0
  }

  /** A group request goes out exactly when the name has a non-blank character and someone is selected. */
  lemma CanCreateGroupIff(groupName: string, members: seq<string>)
    ensures CanCreateGroup(groupName, members)
        <==> (exists k :: 0 <= k < |groupName| && !IsWhitespace(groupName[k])) && members != []
  {
    TrimNonEmpty(groupName);
  }

  // ---------------------------------------------------------------------
  // Member selection

  /** `prev.filter((m) => m !== member)`. */
  function RemoveMember(list: seq<string>, member: string): (r: seq<string>)
    ensures member !in r
    ensures |r| <= |list|
  {
    if list == [] then []
    else if list[0] == member then RemoveMember(list[1..], member)
    else [list[0]] + RemoveMember(list[1..], member)
  }

  lemma {:induction false} RemoveMemberAppend(a: seq<string>, b: seq<string>, member: string)
    ensures RemoveMember(a + b, member) == RemoveMember(a, member) + RemoveMember(b, member)
    decreases |a|
  {
    if a == [] {
      assert a + b == b;
    } else {
      assert (a + b)[0] == a[0] && (a + b)[1..] == a[1..] + b;
      RemoveMemberAppend(a[1..], b, member);
    }
  }

  lemma {:induction false} RemoveMemberAbsent(list: seq<string>, member: string)
    requires member !in list
    ensures RemoveMember(list, member) == list
    decreases |list|
  {
    if list != [] {
      RemoveMemberAbsent(list[1..], member);
      assert list == [list[0]] + list[1..];
    }
  }

  /** Removing keeps exactly the other names, in their order. */
  lemma {:induction false} RemoveMemberKeepsOthers(list: seq<string>, member: string, x: string)
    requires x != member
    ensures x in RemoveMember(list, member) <==> x in list
    decreases |list|
  {
    if list != [] {
      RemoveMemberKeepsOthers(list[1..], member, x);
      assert list == [list[0]] + list[1..];
    }
  }

  predicate NoDuplicates(list: seq<string>)
  {
    forall i, j :: 0 <= i < j < |list| ==> list[i] != list[j]
  }

  /** `toggleGroupMember`: a selected name is deselected everywhere, another is added at the end. */
  function ToggleMember(list: seq<string>, member: string): seq<string>
  {
    if member in list then RemoveMember(list, member) else list + [member]
  }

  /**
   * Toggling a selected name removes all its occurrences and keeps the rest;
   * toggling an unselected one appends it.
   */
  lemma ToggleMemberSpec(list: seq<string>, member: string)
    ensures member in list ==>
              member !in ToggleMember(list, member)
              && forall x :: x != member ==> (x in ToggleMember(list, member) <==> x in list)
    ensures member !in list ==> ToggleMember(list, member) == list + [member]
  {
    forall x | x != member {
      RemoveMemberKeepsOthers(list, member, x);
    }
  }

  /** Toggling an unselected name twice gives back the selection. */
  lemma ToggleTwiceRestores(list: seq<string>, member: string)
    requires member !in list
    ensures ToggleMember(ToggleMember(list, member), member) == list
  {
    assert member in list + [member];
    RemoveMemberAppend(list, [member], member);
    RemoveMemberAbsent(list, member);
    assert [member][1..] == [];
  }

  /** Toggling never puts a name into the selection twice. */
  lemma {:induction false} ToggleKeepsNoDuplicates(list: seq<string>, member: string)
    requires NoDuplicates(list)
    ensures NoDuplicates(ToggleMember(list, member))
  {
    if member in list {
      RemoveMemberNoDuplicates(list, member);
    }
  }

  lemma {:induction false} RemoveMemberNoDuplicates(list: seq<string>, member: string)
    requires NoDuplicates(list)
    ensures NoDuplicates(RemoveMember(list, member))
    decreases |list|
  {
    if list != [] {
      var tail := list[1..];
      assert NoDuplicates(tail) by {
        forall i, j | 0 <= i < j < |tail| ensures tail[i] != tail[j] {
          assert tail[i] == list[i + 1] && tail[j] == list[j + 1];
        }
      }
      RemoveMemberNoDuplicates(tail, member);
      if list[0] != member {
        assert list[0] !in tail by {
          forall j | 0 <= j < |tail| ensures tail[j] != list[0] { assert tail[j] == list[j + 1]; }
        }
        if list[0] in RemoveMember(tail, member) {
          RemoveMemberKeepsOthers(tail, member, list[0]);
        }
        var r := [list[0]] + RemoveMember(tail, member);
        forall i, j | 0 <= i < j < |r| ensures r[i] != r[j] {
          if i == 0 {
            assert r[j] in RemoveMember(tail, member);
          }
        }
      }
    }
  }

  // ---------------------------------------------------------------------
  // Header and avatar text

  /** `getRecipientName`. */
  function RecipientName(selected: Option<string>, isGroupChat: bool, groups: seq<Group>): (r: string)
    ensures !(selected.Some? && selected.value != "") ==> r == NoChatSelected
    ensures selected.Some? && selected.value != "" && !isGroupChat ==> r == selected.value
    ensures selected.Some? && selected.value != "" && isGroupChat ==>
              ((forall k :: 0 <= k < |groups| ==> groups[k].id != selected.value) ==> r == GroupNotFound)
              && forall k :: 0 <= k < |groups| && groups[k].id == selected.value
                             && (forall j :: 0 <= j < k ==> groups[j].id != selected.value)
                             ==> r == groups[k].name
  {
    if !(selected.Some? && selected.value != "") then NoChatSelected
    else if isGroupChat then
      var group := FindGroup(groups, selected.value);
      if group.Some? then group.value.name else GroupNotFound
    else selected.value
  }

  /** The outcome of `getInitials`: the text, or the TypeError of reading `[0]` of an empty part. */
  datatype InitialsResult = Rendered(text: string) | TypeError

  /** `getInitials`, with `toUpperCase` on one character given as `upper`. */
  function Initials(name: string, upper: char -> char): (r: InitialsResult)
    ensures r.Rendered? ==> |r.text| <= 2
  {
    if name == "" then Rendered("??")
    else
      var parts := Split(name, ' ');
      if |parts| > 1 then
        if parts[0] == "" || parts[1] == "" then TypeError
        else Rendered([upper(parts[0][0]), upper(parts[1][0])])
      else if parts[0] == "" then TypeError
      else Rendered([upper(parts[0][0])] + (if |parts[0]| > 1 then [upper(parts[0][1])] else []))
  }

  /** A name without a space gives its first one or two characters; the empty name gives "??". */
  lemma InitialsOneWord(name: string, upper: char -> char)
    requires ' ' !in name
    ensures Initials(name, upper)
         == if name == "" then Rendered("??")
            else Rendered([upper(name[0])] + (if |name| > 1 then [upper(name[1])] else []))
  {
    SplitWithoutSeparator(name, ' ');
  }

  /** A name that starts with a space makes the first part empty: TypeError. */
  lemma InitialsLeadingSpace(name: string, upper: char -> char)
    requires name != [] && name[0] == ' '
    ensures Initials(name, upper) == TypeError
  {
    SplitAtFirst(name, ' ', 0);
  }

  /**
   * With a first space at i > 0, the initials are the first character and the
   * one after the space, unless the second part is empty (a trailing or a
   * doubled space), which is a TypeError.
   */
  lemma InitialsTwoWords(name: string, upper: char -> char, i: nat)
    requires 0 < i < |name| && name[i] == ' ' && ' ' !in name[..i]
    ensures Initials(name, upper)
         == if i + 1 < |name| && name[i + 1] != ' ' then Rendered([upper(name[0]), upper(name[i + 1])])
            else TypeError
  {
    SplitAtFirst(name, ' ', i);
    var rest := name[i + 1..];
    var parts := Split(name, ' ');
    assert parts[0] == name[..i] && parts[0][0] == name[0];
    assert parts[1] == Split(rest, ' ')[0];
    if rest != [] {
      assert rest[0] == name[i + 1];
    }
  }

  // ---------------------------------------------------------------------
  // The component state

  class ChatClient {
    var username: string
    var password: string
    var isLoggedIn: bool
    var message: string
    var messages: seq<WireMessage>
    var users: seq<User>
    var groups: seq<Group>
    var selectedRecipient: Option<string>
    var isGroupChat: bool
    var showCreateGroup: bool
    var groupName: string
    var groupMembers: seq<string>
    var outbox: seq<ClientEvent>

    /** The initial values of the component's state hooks. */
    constructor ()
      ensures username == "" && password == "" && !isLoggedIn && message == "" && messages == []
      ensures users == [] && groups == [] && selectedRecipient == None && !isGroupChat
      ensures !showCreateGroup && groupName == "" && groupMembers == [] && outbox == []
    {
      username, password, isLoggedIn, message, messages := "", "", false, "", [];
      users, groups, selectedRecipient, isGroupChat := [], [], None, false;
      showCreateGroup, groupName, groupMembers, outbox := false, "", [], [];
    }

    /** The room the `message` listener compares incoming messages with. */
    function CurrentRoom(): JsValue
      reads this
    {
      RoomId(username, Selected(selectedRecipient), isGroupChat)
    }

    /** On (re)connection a logged-in client joins again under its name. */
    method OnConnect()
      modifies this`outbox
      ensures outbox == old(outbox) + (if isLoggedIn && username != "" then [JoinRequest(username)] else [])
    {
      if isLoggedIn && username != "" {
        outbox := outbox + [JoinRequest(username)];
      }
    }

    /** An incoming message is appended only when it belongs to the current room. */
    method OnMessage(msg: WireMessage)
      modifies this`messages
      ensures messages == if JsString(msg.room) == CurrentRoom() then old(messages) + [msg] else old(messages)
    {
      var currentRoomId := CurrentRoom();
      if JsString(msg.room) == currentRoomId {
        messages := messages + [msg];
      }
    }

    method OnUsers(onlineUsers: seq<User>)
      modifies this`users
      ensures users == onlineUsers
    {
      users := onlineUsers;
    }

    method OnGroups(allGroups: seq<Group>)
      modifies this`groups
      ensures groups == allGroups
    {
      groups := allGroups;
    }

    /** A history reply replaces the shown messages. */
    method OnMessageHistory(history: seq<Message>)
      modifies this`messages
      ensures |messages| == |history| && forall k :: 0 <= k < |history| ==> messages[k] == AsWire(history[k])
    {
      messages := seq(|history|, k requires 0 <= k < |history| => AsWire(history[k]));
    }

    /** `logout`: the session state is cleared and the socket reconnects. */
    method Logout()
      modifies this`isLoggedIn, this`username, this`password, this`users, this`groups,
               this`messages, this`selectedRecipient, this`outbox
      ensures !isLoggedIn && username == "" && password == ""
      ensures users == [] && groups == [] && messages == [] && selectedRecipient == None
      ensures outbox == old(outbox) + [DisconnectRequest, ConnectRequest]
    {
      outbox := outbox + [DisconnectRequest];
      isLoggedIn := false;
      username := "";
      password := "";
      users := [];
      groups := [];
      messages := [];
      selectedRecipient := None;
      outbox := outbox + [ConnectRequest];
    }

    /** `sendMessage`: with a non-blank draft and a recipient, the draft is sent as typed and cleared. */
    method SendMessage()
      modifies this`outbox, this`message
      ensures CanSend(old(message), selectedRecipient) ==>
                outbox == old(outbox) + [SendRequest(selectedRecipient.value, old(message), isGroupChat)] && message == ""
      ensures !CanSend(old(message), selectedRecipient) ==> outbox == old(outbox) && message == old(message)
    {
      if CanSend(message, selectedRecipient) {
        outbox := outbox + [SendRequest(selectedRecipient.value, message, isGroupChat)];
        message := "";
      }
    }

    /** `createGroup`: the selected members followed by the user's own name are sent, and the form is reset. */
    method CreateGroup()
      modifies this`outbox, this`showCreateGroup, this`groupName, this`groupMembers
      ensures CanCreateGroup(old(groupName), old(groupMembers)) ==>
                && outbox == old(outbox) + [CreateGroupRequest(old(groupName), old(groupMembers) + [username])]
                && !showCreateGroup && groupName == "" && groupMembers == []
      ensures !CanCreateGroup(old(groupName), old(groupMembers)) ==>
                outbox == old(outbox) && showCreateGroup == old(showCreateGroup)
                && groupName == old(groupName) && groupMembers == old(groupMembers)
    {
      if CanCreateGroup(groupName, groupMembers) {
        outbox := outbox + [CreateGroupRequest(groupName, groupMembers + [username])];
        showCreateGroup := false;
        groupName := "";
        groupMembers := [];
      }
    }

    /** `selectChat`: the conversation is selected, the list emptied and its history requested. */
    method SelectChat(recipient: string, isGroup: bool)
      modifies this`selectedRecipient, this`isGroupChat, this`messages, this`outbox
      ensures selectedRecipient == Some(recipient) && isGroupChat == isGroup && messages == []
      ensures outbox == old(outbox) + [HistoryRequest(RoomId(username, JsString(recipient), isGroup).s, isGroup)]
    {
      selectedRecipient := Some(recipient);
      isGroupChat := isGroup;
      messages := [];
      var room := RoomId(username, JsString(recipient), isGroup);
      outbox := outbox + [HistoryRequest(room.s, isGroup)];
    }

    method ToggleGroupMember(member: string)
      modifies this`groupMembers
      ensures groupMembers == ToggleMember(old(groupMembers), member)
    {
      if member in groupMembers {
        groupMembers := RemoveMember(groupMembers, member);
      } else {
        groupMembers := groupMembers + [member];
      }
    }
  }
}
