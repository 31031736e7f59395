/**
 * The server's socket event handler: the module-level registries of online
 * users and groups, the per-connection facts (the name a socket claimed and
 * the rooms it joined), the message store and the log of everything the
 * handler emits. Each handler runs to completion before the next event.
 */
module Server {
  import opened JsRuntime
  import opened Protocol
  import History

  /** The author of system notices. */
  const SystemUser: string := "Hệ thống"

  /** Who an emit is addressed to: `io.emit`, `socket.emit`, `io.to(room).emit`. */
  datatype Target = Broadcast | ToSocket(sid: SocketId) | ToRoom(room: string)

  datatype Payload =
    | UsersList(users: seq<User>)
    | GroupsList(groups: seq<Group>)
    | MessageEvent(msg: WireMessage)
    | HistoryReply(messages: seq<Message>)

  /** One outgoing event; its payload is the value at the time of the emit. */
  datatype Emit = Emit(target: Target, payload: Payload)

  function EventName(p: Payload): string
  {
    match p
    case UsersList(_) => "users"
    case GroupsList(_) => "groups"
    case MessageEvent(_) => "message"
    case HistoryReply(_) => "messageHistory"
  }

  /** What the server knows of one live socket: `socket.username` and the rooms it joined. */
  datatype Connection = Connection(username: Option<string>, rooms: set<string>)

  /**
   * Whether an emit to t reaches socket sid. Every socket is in the room named
   * by its own id; a room reaches only the sockets subscribed to it.
   */
  predicate Reaches(t: Target, sid: SocketId, connections: map<SocketId, Connection>)
  {
    sid in connections &&
    match t
    case Broadcast => true
    case ToSocket(s) => s == sid
    case ToRoom(r) => r == sid || r in connections[sid].rooms
  }

  /** The sockets an emit to t reaches. */
  function Audience(t: Target, connections: map<SocketId, Connection>): (r: set<SocketId>)
    ensures forall sid :: sid in r <==> Reaches(t, sid, connections)
  {
    set sid | sid in connections && Reaches(t, sid, connections)
  }

  /**
   * The audience of each kind of target: everyone connected, the one socket
   * when it is connected, and for a room the socket of that id together with
   * every socket that joined the room.
   */
  lemma AudienceClosedForm(t: Target, connections: map<SocketId, Connection>)
    ensures t.Broadcast? ==> Audience(t, connections) == connections.Keys
    ensures t.ToSocket? ==> Audience(t, connections) == (if t.sid in connections then {t.sid} else {})
    ensures t.ToRoom? ==> Audience(t, connections)
                          == (if t.room in connections then {t.room} else {})
                             + (set sid | sid in connections && t.room in connections[sid].rooms)
  {
  }

  /** `if (socket.username)`: a name was claimed and it is not the empty string. */
  predicate Truthy(name: Option<string>)
  {
    name.Some? && name.value != ""
  }

  // ---------------------------------------------------------------------
  // Online users

  /** The registry after `join`: the entry is added only when no entry has that name. */
  function RegisterUser(users: seq<User>, sid: SocketId, name: string): (r: seq<User>)
    ensures HasUsername(r, name)
    ensures DistinctUsernames(users) ==> DistinctUsernames(r)
    ensures HasUsername(users, name) ==> r == users
    ensures !HasUsername(users, name) ==> r == users + [User(sid, name)]
  {
    if FindUser(users, name).Some? then users
    else
      assert (users + [User(sid, name)])[|users|].username == name;
      users + [User(sid, name)]
  }

  /** A second `join` under a name already online changes nothing, whatever its socket. */
  lemma RegisterUserIdempotent(users: seq<User>, sid: SocketId, other: SocketId, name: string)
    ensures RegisterUser(RegisterUser(users, sid, name), other, name) == RegisterUser(users, sid, name)
  {
  }

  /** `users.filter((u) => u.username !== name)`. */
  function RemoveUsername(users: seq<User>, name: string): (r: seq<User>)
    ensures !HasUsername(r, name)
    ensures |r| <= |users|
  {
    if users == [] then []
    else
      var rest := RemoveUsername(users[1..], name);
      assert users == [users[0]] + users[1..];
      if users[0].username == name then rest else [users[0]] + rest
  }

  /** A removal keeps nothing that was not there. */
  lemma {:induction false} RemoveUsernameSound(users: seq<User>, name: string, u: User)
    requires u in RemoveUsername(users, name)
    ensures u in users && u.username != name
    decreases |users|
  {
    if users[0] != u {
      RemoveUsernameSound(users[1..], name, u);
    }
  }

  /** Every entry under another name survives a removal. */
  lemma {:induction false} RemoveUsernameKeepsOthers(users: seq<User>, name: string, u: User)
    requires u in users && u.username != name
    ensures u in RemoveUsername(users, name)
    decreases |users|
  {
    if users[0] != u {
      RemoveUsernameKeepsOthers(users[1..], name, u);
    }
  }

  /** Removing by name keeps the other entries in their order. */
  lemma {:induction false} RemoveUsernamePrefix(users: seq<User>, name: string, k: nat)
    requires k <= |users|
    requires forall j :: 0 <= j < k ==> users[j].username != name
    ensures RemoveUsername(users, name) == users[..k] + RemoveUsername(users[k..], name)
    decreases k
  {
    if k > 0 {
      assert users[0].username != name;
      assert RemoveUsername(users, name) == [users[0]] + RemoveUsername(users[1..], name);
      RemoveUsernamePrefix(users[1..], name, k - 1);
      assert users[1..][k - 1..] == users[k..];
      assert users[..k] == [users[0]] + users[1..][..k - 1];
    } else {
      assert users[..0] == [] && users[0..] == users;
    }
  }

  lemma {:induction false} RemoveUsernameAbsent(users: seq<User>, name: string)
    requires !HasUsername(users, name)
    ensures RemoveUsername(users, name) == users
  {
    RemoveUsernamePrefix(users, name, |users|);
    assert users[|users|..] == [];
    assert users[..|users|] == users;
  }

  /** With distinct names, a disconnect deletes exactly the one entry with that name. */
  lemma RemoveUsernameAt(users: seq<User>, name: string, k: nat)
    requires DistinctUsernames(users)
    requires k < |users| && users[k].username == name
    ensures RemoveUsername(users, name) == users[..k] + users[k + 1..]
  {
    RemoveUsernamePrefix(users, name, k);
    var tail := users[k + 1..];
    assert !HasUsername(tail, name) by {
      forall j | 0 <= j < |tail| ensures tail[j].username != name {
        assert tail[j] == users[k + 1 + j];
      }
    }
    RemoveUsernameAbsent(users[k + 1..], name);
    assert users[k..][1..] == users[k + 1..];
  }

  /** Removing preserves distinct names. */
  lemma {:induction false} RemoveUsernameDistinct(users: seq<User>, name: string)
    requires DistinctUsernames(users)
    ensures DistinctUsernames(RemoveUsername(users, name))
    decreases |users|
  {
    if users != [] {
      var tail := users[1..];
      assert DistinctUsernames(tail) by {
        forall i, j | 0 <= i < j < |tail| ensures tail[i].username != tail[j].username {
          assert tail[i] == users[i + 1] && tail[j] == users[j + 1];
        }
      }
      RemoveUsernameDistinct(tail, name);
      if users[0].username != name {
        var rest := RemoveUsername(tail, name);
        var r := [users[0]] + rest;
        forall j | 0 < j < |r| ensures r[0].username != r[j].username {
          RemoveUsernameSound(tail, name, rest[j - 1]);
          var k :| 0 <= k < |tail| && tail[k] == rest[j - 1];
          assert tail[k] == users[k + 1];
        }
      }
    }
  }

  /** A disconnect undoes the join that added the name. */
  lemma RemoveUndoesRegister(users: seq<User>, sid: SocketId, name: string)
    requires !HasUsername(users, name)
    ensures RemoveUsername(RegisterUser(users, sid, name), name) == users
  {
    var r := users + [User(sid, name)];
    RemoveUsernamePrefix(r, name, |users|);
    assert r[..|users|] == users;
    assert r[|users|..] == [User(sid, name)];
    assert [User(sid, name)][1..] == [];
  }

  // ---------------------------------------------------------------------
  // Groups

  function Somes(names: seq<string>): (r: seq<Option<string>>)
    ensures |r| == |names| && forall k :: 0 <= k < |r| ==> r[k] == Some(names[k])
  {
    if names == [] then [] else [Some(names[0])] + Somes(names[1..])
  }

  /** `[socket.username, ...members]`: the creator is put in front of the members sent. */
  function GroupMembers(creator: Option<string>, members: seq<string>): (r: seq<Option<string>>)
    ensures |r| == |members| + 1 && r[0] == creator
    ensures forall k :: 0 <= k < |members| ==> r[k + 1] == Some(members[k])
  {
    [creator] + Somes(members)
  }

  /** The notice text; a creator that never joined is rendered as "undefined". */
  function CreationText(creator: Option<string>, groupName: string): string
  {
    ToJsString(FromOption(creator)) + " đã tạo nhóm \"" + groupName + "\""
  }

  /** The notice for one member: addressed to its online entry's id, if it has one. */
  function NoticeFor(users: seq<User>, member: Option<string>, notice: WireMessage): (r: seq<Emit>)
    ensures |r| <= 1
    ensures r != [] <==> member.Some? && HasUsername(users, member.value)
    ensures r != [] ==> r[0] == Emit(ToRoom(FindUser(users, member.value).value.id), MessageEvent(notice))
  {
    if member.Some? && FindUser(users, member.value).Some? then
      [Emit(ToRoom(FindUser(users, member.value).value.id), MessageEvent(notice))]
    else []
  }

  /** The notices the `forEach` over the members sends, in member order. */
  function NoticeEmits(users: seq<User>, members: seq<Option<string>>, notice: WireMessage): seq<Emit>
  {
    if members == [] then []
    else NoticeEmits(users, members[..|members| - 1], notice) + NoticeFor(users, members[|members| - 1], notice)
  }

  lemma {:induction false} NoticeEmitsAppend(users: seq<User>, a: seq<Option<string>>, b: seq<Option<string>>, notice: WireMessage)
    ensures NoticeEmits(users, a + b, notice) == NoticeEmits(users, a, notice) + NoticeEmits(users, b, notice)
    decreases |b|
  {
    if b == [] {
      assert a + b == a;
    } else {
      var b' := b[..|b| - 1];
      assert (a + b)[..|a + b| - 1] == a + b';
      NoticeEmitsAppend(users, a, b', notice);
    }
  }

  /**
   * One notice per member occurrence that has an online entry, at most one
   * per member: each carries the notice and is addressed to the id of an
   * online entry of a member.
   */
  lemma {:induction false} NoticeEmitsSpec(users: seq<User>, members: seq<Option<string>>, notice: WireMessage)
    ensures var e := NoticeEmits(users, members, notice);
            && |e| <= |members|
            && (forall k :: 0 <= k < |e| ==>
                  (e[k].payload == MessageEvent(notice)
                   && exists u :: u in users && e[k].target == ToRoom(u.id) && Some(u.username) in members))
    decreases |members|
  {
    if members != [] {
      var init := members[..|members| - 1];
      var last := members[|members| - 1];
      NoticeEmitsSpec(users, init, notice);
      var e := NoticeEmits(users, members, notice);
      var e0 := NoticeEmits(users, init, notice);
      var e1 := NoticeFor(users, last, notice);
      assert e == e0 + e1;
      forall k | 0 <= k < |e|
        ensures e[k].payload == MessageEvent(notice)
        ensures exists u :: u in users && e[k].target == ToRoom(u.id) && Some(u.username) in members
      {
        if k < |e0| {
          assert e[k] == e0[k];
          var u :| u in users && e0[k].target == ToRoom(u.id) && Some(u.username) in init;
          assert Some(u.username) in members;
        } else {
          assert e[k] == e1[0];
          var u := FindUser(users, last.value).value;
          assert u in users && Some(u.username) == last;
        }
      }
    }
  }

  /** Every member online: one notice each. No member online: no notice. */
  lemma {:induction false} NoticeEmitsCount(users: seq<User>, members: seq<Option<string>>, notice: WireMessage)
    ensures (forall k :: 0 <= k < |members| ==> members[k].Some? && HasUsername(users, members[k].value))
            ==> |NoticeEmits(users, members, notice)| == |members|
    ensures (forall k :: 0 <= k < |members| ==> !(members[k].Some? && HasUsername(users, members[k].value)))
            ==> NoticeEmits(users, members, notice) == []
    decreases |members|
  {
    if members != [] {
      var init := members[..|members| - 1];
      var last := members[|members| - 1];
      NoticeEmitsCount(users, init, notice);
      assert forall k :: 0 <= k < |init| ==> init[k] == members[k];
      assert NoticeEmits(users, members, notice) == NoticeEmits(users, init, notice) + NoticeFor(users, last, notice);
    }
  }

  /**
   * When the client sends the selected members followed by the creator's own
   * name, the creator is listed twice and, when online, is sent two notices.
   */
  lemma CreatorNotifiedTwice(users: seq<User>, creator: string, selected: seq<string>, notice: WireMessage)
    requires HasUsername(users, creator)
    ensures var ms := GroupMembers(Some(creator), selected + [creator]);
            var e := NoticeEmits(users, ms, notice);
            var first := Emit(ToRoom(FindUser(users, creator).value.id), MessageEvent(notice));
            && ms[0] == ms[|ms| - 1] == Some(creator)
            && |e| >= 2 && e[0] == first && e[|e| - 1] == first
  {
    var ms := GroupMembers(Some(creator), selected + [creator]);
    var one := NoticeFor(users, Some(creator), notice);
    assert |one| == 1;
    var init := ms[..|ms| - 1];
    assert init == [Some(creator)] + init[1..];
    NoticeEmitsAppend(users, [Some(creator)], init[1..], notice);
    assert [Some(creator)][..0] == [];
    assert NoticeEmits(users, [Some(creator)], notice) == one;
    assert NoticeEmits(users, ms, notice) == NoticeEmits(users, init, notice) + one;
  }

  lemma NoticeEmitsStep(users: seq<User>, ms: seq<Option<string>>, i: nat, notice: WireMessage)
    requires i < |ms|
    ensures NoticeEmits(users, ms[..i + 1], notice) == NoticeEmits(users, ms[..i], notice) + NoticeFor(users, ms[i], notice)
  {
    assert ms[..i + 1][..i] == ms[..i];
  }

  lemma AddGroupKeepsDistinct(groups: seq<Group>, g: Group)
    requires DistinctGroupIds(groups)
    requires forall k :: 0 <= k < |groups| ==> groups[k].id != g.id
    ensures DistinctGroupIds(groups + [g])
  {
    var r := groups + [g];
    forall i, j | 0 <= i < j < |r| ensures r[i].id != r[j].id {
      if j == |groups| {
        assert r[i] == groups[i] && r[j] == g;
      } else {
        assert r[i] == groups[i] && r[j] == groups[j];
      }
    }
  }

  /** `group && group.members.includes(socket.username)`. */
  predicate GroupAccepts(groups: seq<Group>, groupId: string, sender: Option<string>)
  {
    FindGroup(groups, groupId).Some? && sender in FindGroup(groups, groupId).value.members
  }

  /** With distinct ids: a group message is accepted exactly when a group of that id lists the sender. */
  lemma GroupAcceptsIff(groups: seq<Group>, groupId: string, sender: Option<string>)
    requires DistinctGroupIds(groups)
    ensures GroupAccepts(groups, groupId, sender)
        <==> exists k :: 0 <= k < |groups| && groups[k].id == groupId && sender in groups[k].members
  {
    if exists k :: 0 <= k < |groups| && groups[k].id == groupId && sender in groups[k].members {
      var k :| 0 <= k < |groups| && groups[k].id == groupId && sender in groups[k].members;
      var g := FindGroup(groups, groupId);
      var j :| 0 <= j < |groups| && groups[j] == g.value && g.value.id == groupId
               && forall i :: 0 <= i < j ==> groups[i].id != groupId;
      assert j == k;
    }
  }

  // ---------------------------------------------------------------------
  // Direct rooms

  /** `[socket.username, recipient].sort().join('-')`. */
  function DirectRoom(sender: Option<string>, recipient: string): string
  {
    ArrayJoin(SortPair(FromOption(sender), JsString(recipient)), "-")
  }

  /** For a named sender: the two names in order, joined by '-'. */
  lemma DirectRoomOrdered(sender: string, recipient: string)
    ensures DirectRoom(Some(sender), recipient)
         == if LexLess(recipient, sender) then recipient + "-" + sender else sender + "-" + recipient
  {
    PairJoin(JsString(sender), JsString(recipient), "-");
    PairJoin(JsString(recipient), JsString(sender), "-");
  }

  /** Either party computes the same room. */
  lemma DirectRoomSymmetric(a: string, b: string)
    ensures DirectRoom(Some(a), b) == DirectRoom(Some(b), a)
  {
    DirectRoomOrdered(a, b);
    DirectRoomOrdered(b, a);
    LexLessAsymmetric(a, b);
    LexLessTotal(a, b);
  }

  /** A socket that never joined sorts last (undefined) and is joined as the empty string. */
  lemma DirectRoomAnonymous(recipient: string)
    ensures DirectRoom(None, recipient) == recipient + "-"
  {
    PairJoin(JsString(recipient), JsUndefined, "-");
  }

  /** The key is not injective: two different pairs of names share one room. */
  lemma DirectRoomCollision()
    ensures DirectRoom(Some("a-b"), "c") == DirectRoom(Some("a"), "b-c") == "a-b-c"
  {
    DirectRoomOrdered("a-b", "c");
    DirectRoomOrdered("a", "b-c");
    assert !LexLess("c", "a-b");
    assert !LexLess("b-c", "a");
  }

  // ---------------------------------------------------------------------
  // The handler

  class ChatServer {
    var users: seq<User>
    var groups: seq<Group>
    var connections: map<SocketId, Connection>
    var store: seq<Message>
    var outbox: seq<Emit>

    ghost predicate Valid()
      reads this
    {
      DistinctUsernames(users) && DistinctGroupIds(groups)
    }

    constructor ()
      ensures Valid()
      ensures users == [] && groups == [] && connections == map[] && store == [] && outbox == []
    {
      users, groups, connections, store, outbox := [], [], map[], [], [];
    }

    /** A new socket: anonymous, in no room, and sent both registries. */
    method Connect(sid: SocketId)
      requires Valid() && sid !in connections
      modifies this
      ensures Valid()
      ensures connections == old(connections)[sid := Connection(None, {})]
      ensures users == old(users) && groups == old(groups) && store == old(store)
      ensures outbox == old(outbox) + [Emit(ToSocket(sid), UsersList(users)), Emit(ToSocket(sid), GroupsList(groups))]
    {
      connections := connections[sid := Connection(None, {})];
      outbox := outbox + [Emit(ToSocket(sid), UsersList(users))];
      outbox := outbox + [Emit(ToSocket(sid), GroupsList(groups))];
    }

    /**
     * `join`: the socket claims the name; an entry is added only when no entry
     * has that name; everyone is sent the users, the socket the groups.
     */
    method Join(sid: SocketId, username: string)
      requires Valid() && sid in connections
      modifies this
      ensures Valid()
      ensures connections == old(connections)[sid := old(connections)[sid].(username := Some(username))]
      ensures users == RegisterUser(old(users), sid, username)
      ensures groups == old(groups) && store == old(store)
      ensures outbox == old(outbox) + [Emit(Broadcast, UsersList(users)), Emit(ToSocket(sid), GroupsList(groups))]
    {
      connections := connections[sid := connections[sid].(username := Some(username))];
      if FindUser(users, username).None? {
        users := users + [User(sid, username)];
      }
      outbox := outbox + [Emit(Broadcast, UsersList(users))];
      outbox := outbox + [Emit(ToSocket(sid), GroupsList(groups))];
    }

    /**
     * `createGroup`: appends the group with the creator in front, broadcasts
     * the groups, notifies each member occurrence that has an online entry and
     * stores one system message for the new room.
     */
    method CreateGroup(sid: SocketId, groupName: string, members: seq<string>, groupId: string, now: int)
      requires Valid() && sid in connections
      requires forall k :: 0 <= k < |groups| ==> groups[k].id != groupId
      modifies this
      ensures Valid()
      ensures var creator := old(connections)[sid].username;
              var text := CreationText(creator, groupName);
              && groups == old(groups) + [Group(groupId, groupName, GroupMembers(creator, members))]
              && store == old(store) + [Message(groupId, Some(SystemUser), text, now, true)]
              && outbox == old(outbox) + [Emit(Broadcast, GroupsList(groups))]
                           + NoticeEmits(users, GroupMembers(creator, members),
                                         WireMessage(groupId, Some(SystemUser), text, now, None))
      ensures users == old(users) && connections == old(connections)
    {
      var creator := connections[sid].username;
      var newGroup := Group(groupId, groupName, GroupMembers(creator, members));
      AddGroupKeepsDistinct(groups, newGroup);
      groups := groups + [newGroup];
      outbox := outbox + [Emit(Broadcast, GroupsList(groups))];
      var text := CreationText(creator, groupName);
      var notice := WireMessage(groupId, Some(SystemUser), text, now, None);
      NotifyMembers(newGroup.members, notice);
      store := store + [Message(groupId, Some(SystemUser), text, now, true)];
    }

    /** The `forEach` of `createGroup`: each member occurrence with an online entry is sent the notice. */
    method NotifyMembers(ms: seq<Option<string>>, notice: WireMessage)
      modifies this`outbox
      ensures outbox == old(outbox) + NoticeEmits(users, ms, notice)
    {
      var i := 0;
      while i < |ms|
        invariant 0 <= i <= |ms|
        invariant outbox == old(outbox) + NoticeEmits(users, ms[..i], notice)
      {
        NoticeEmitsStep(users, ms, i, notice);
        var member := ms[i];
        if member.Some? {
          var memberSocket := FindUser(users, member.value);
          if memberSocket.Some? {
            outbox := outbox + [Emit(ToRoom(memberSocket.value.id), MessageEvent(notice))];
          }
        }
        i := i + 1;
      }
      assert ms[..i] == ms;
    }

    /**
     * `sendMessage`. A group message is stored and emitted to the group's room
     * only when the group exists and lists the sender. A direct message joins
     * the sender to the sorted-pair room, is stored, echoed to the sender and
     * sent to the recipient's entry when it has one.
     */
    method SendMessage(sid: SocketId, recipient: string, message: string, isGroup: bool, now: int)
      requires Valid() && sid in connections
      modifies this
      ensures Valid()
      ensures users == old(users) && groups == old(groups)
      ensures var sender := old(connections)[sid].username;
              isGroup ==>
                && connections == old(connections)
                && (GroupAccepts(groups, recipient, sender) ==>
                      && store == old(store) + [Message(recipient, sender, message, now, true)]
                      && outbox == old(outbox) + [Emit(ToRoom(recipient),
                                                       MessageEvent(WireMessage(recipient, sender, message, now, None)))])
                && (!GroupAccepts(groups, recipient, sender) ==> store == old(store) && outbox == old(outbox))
      ensures var sender := old(connections)[sid].username;
              var room := DirectRoom(sender, recipient);
              var msg := Message(room, sender, message, now, false);
              var entry := FindUser(users, recipient);
              !isGroup ==>
                && connections == old(connections)[sid := old(connections)[sid].(rooms := old(connections)[sid].rooms + {room})]
                && store == old(store) + [msg]
                && outbox == old(outbox) + [Emit(ToSocket(sid), MessageEvent(AsWire(msg)))]
                             + (if entry.Some? then [Emit(ToRoom(entry.value.id), MessageEvent(AsWire(msg)))] else [])
    {
      var sender := connections[sid].username;
      if isGroup {
        var room := recipient;
        var group := FindGroup(groups, recipient);
        if group.Some? && sender in group.value.members {
          var msg := Message(room, sender, message, now, true);
          store := store + [msg];
          outbox := outbox + [Emit(ToRoom(room), MessageEvent(WireMessage(room, sender, message, msg.timestamp, None)))];
        }
      } else {
        var recipientSocket := FindUser(users, recipient);
        var room := DirectRoom(sender, recipient);
        connections := connections[sid := connections[sid].(rooms := connections[sid].rooms + {room})];
        var msg := Message(room, sender, message, now, false);
        store := store + [msg];
        outbox := outbox + [Emit(ToSocket(sid), MessageEvent(AsWire(msg)))];
        if recipientSocket.Some? {
          outbox := outbox + [Emit(ToRoom(recipientSocket.value.id), MessageEvent(AsWire(msg)))];
        }
      }
    }

    /** `getMessageHistory`: the socket is sent the oldest 50 matching documents. */
    method GetMessageHistory(sid: SocketId, room: string, isGroup: bool)
      requires Valid() && sid in connections
      modifies this
      ensures Valid()
      ensures users == old(users) && groups == old(groups) && connections == old(connections) && store == old(store)
      ensures outbox == old(outbox) + [Emit(ToSocket(sid), HistoryReply(History.Query(store, room, isGroup)))]
    {
      var messages := History.Query(store, room, isGroup);
      outbox := outbox + [Emit(ToSocket(sid), HistoryReply(messages))];
    }

    /**
     * `disconnect`: the socket goes away; when it had claimed a non-empty name,
     * every entry with that name is removed and everyone is sent the users.
     */
    method Disconnect(sid: SocketId)
      requires Valid() && sid in connections
      modifies this
      ensures Valid()
      ensures connections == old(connections) - {sid}
      ensures groups == old(groups) && store == old(store)
      ensures var name := old(connections)[sid].username;
              if Truthy(name) then
                users == RemoveUsername(old(users), name.value) && outbox == old(outbox) + [Emit(Broadcast, UsersList(users))]
              else
                users == old(users) && outbox == old(outbox)
    {
      var name := connections[sid].username;
      connections := connections - {sid};
      if Truthy(name) {
        RemoveUsernameDistinct(users, name.value);
        users := RemoveUsername(users, name.value);
        outbox := outbox + [Emit(Broadcast, UsersList(users))];
      }
    }
  }
}
