/**
 * The records that travel between the chat server and its clients: online
 * users, groups and messages, and the linear lookups both ends make in
 * their lists of them (`Array.prototype.find`).
 */
module Protocol {
  import opened JsRuntime

  /** A transport-assigned connection id; the server also addresses it as a room name. */
  type SocketId = string

  /** An online entry `{id, username}`. */
  datatype User = User(id: SocketId, username: string)

  /** `{id, name, members}`; a member is `undefined` when the creator had not joined. */
  datatype Group = Group(id: string, name: string, members: seq<Option<string>>)

  /** A persisted message document. */
  datatype Message = Message(room: string, user: Option<string>, text: string, timestamp: int, isGroup: bool)

  /**
   * A message as it arrives at a client: a stored document carries its
   * `isGroup` flag; the plain objects built for notices and group messages do not.
   */
  datatype WireMessage = WireMessage(room: string, user: Option<string>, text: string, timestamp: int, isGroup: Option<bool>)

  /** A stored document sent as it is. */
  function AsWire(m: Message): (w: WireMessage)
    ensures w.room == m.room && w.user == m.user && w.text == m.text && w.timestamp == m.timestamp
    ensures w.isGroup == Some(m.isGroup)
  {
    WireMessage(m.room, m.user, m.text, m.timestamp, Some(m.isGroup))
  }

  /**
   * How a client reads a message back as a document: only a message that
   * carries its `isGroup` flag is a stored document.
   */
  function FromWire(w: WireMessage): (r: Option<Message>)
    ensures r.Some? <==> w.isGroup.Some?
  {
    if w.isGroup.Some? then Some(Message(w.room, w.user, w.text, w.timestamp, w.isGroup.value)) else None
  }

  /** Sending a document loses nothing, and every flagged wire message is a sent document. */
  lemma WireRoundTrip(m: Message, w: WireMessage)
    ensures FromWire(AsWire(m)) == Some(m)
    ensures FromWire(w) == Some(m) <==> AsWire(m) == w
  {
  }

  predicate HasUsername(users: seq<User>, name: string)
  {
    exists k :: 0 <= k < |users| && users[k].username == name
  }

  /** No two online entries share a username. */
  predicate DistinctUsernames(users: seq<User>)
  {
    forall i, j :: 0 <= i < j < |users| ==> users[i].username != users[j].username
  }

  /** No two groups share an id. */
  predicate DistinctGroupIds(groups: seq<Group>)
  {
    forall i, j :: 0 <= i < j < |groups| ==> groups[i].id != groups[j].id
  }

  /** `users.find((u) => u.username === name)`: the first entry with that name, if any. */
  function FindUser(users: seq<User>, name: string): (r: Option<User>)
    ensures r.None? <==> !HasUsername(users, name)
    ensures r.Some? ==> exists k :: 0 <= k < |users| && users[k] == r.value && r.value.username == name
                                    && forall j :: 0 <= j < k ==> users[j].username != name
  {
    if users == [] then None
    else if users[0].username == name then Some(users[0])
    else
      var r := FindUser(users[1..], name);
      assert forall k :: 1 <= k < |users| ==> users[k] == users[1..][k - 1];
      r
  }

  /** `groups.find((g) => g.id === id)`: the first group with that id, if any. */
  function FindGroup(groups: seq<Group>, id: string): (r: Option<Group>)
    ensures r.None? <==> forall k :: 0 <= k < |groups| ==> groups[k].id != id
    ensures r.Some? ==> exists k :: 0 <= k < |groups| && groups[k] == r.value && r.value.id == id
                                    && forall j :: 0 <= j < k ==> groups[j].id != id
  {
    if groups == [] then None
    else if groups[0].id == id then Some(groups[0])
    else
      var r := FindGroup(groups[1..], id);
      assert forall k :: 1 <= k < |groups| ==> groups[k] == groups[1..][k - 1];
      r
  }

  /** With distinct usernames, the entry found is the only one with that name. */
  lemma FindUserUnique(users: seq<User>, name: string, k: int)
    requires DistinctUsernames(users)
    requires 0 <= k < |users| && users[k].username == name
    ensures FindUser(users, name) == Some(users[k])
  {
  }
}
