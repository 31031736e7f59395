/**
 * End-to-end runs of the server handler on fresh servers, stated from the
 * handlers' contracts alone: who receives what, and what history replays.
 */
module Scenarios {
  import opened JsRuntime
  import opened Protocol
  import opened Server
  import History

  /** The online list after A on s1 and B on s2 join. */
  lemma JoinedAB()
    ensures RegisterUser(RegisterUser([], "s1", "A"), "s2", "B") == [User("s1", "A"), User("s2", "B")]
    ensures FindUser([User("s1", "A"), User("s2", "B")], "A") == Some(User("s1", "A"))
    ensures FindUser([User("s1", "A"), User("s2", "B")], "B") == Some(User("s2", "B"))
  {
    var a := [User("s1", "A")];
    assert RegisterUser([], "s1", "A") == a;
    assert !HasUsername(a, "B") by {
      assert forall k :: 0 <= k < |a| ==> a[k] == User("s1", "A");
    }
    assert RegisterUser(a, "s2", "B") == a + [User("s2", "B")];
    assert a + [User("s2", "B")] == [User("s1", "A"), User("s2", "B")];
  }

  /** The room of A writing to B, and its one-document history. */
  lemma RoomAB(msg: Message)
    requires msg.room == "A-B" && !msg.isGroup
    ensures DirectRoom(Some("A"), "B") == "A-B"
    ensures History.Query([msg], "A-B", false) == [msg]
  {
    DirectRoomOrdered("A", "B");
    assert !LexLess("B", "A");
    History.QuerySingle([], msg);
    assert [] + [msg] == [msg];
  }

  /**
   * A and B join; A sends "hi" to B. A's own socket and B's socket each get
   * the stored message, and B's history request for the room "A-B" replays
   * exactly that message.
   */
  method DirectMessageRoundTrip() returns (echo: Emit, forward: Emit, toSender: bool, toRecipient: bool, history: seq<Message>)
    ensures echo == Emit(ToSocket("s1"), MessageEvent(AsWire(Message("A-B", Some("A"), "hi", 100, false))))
    ensures forward == Emit(ToRoom("s2"), MessageEvent(AsWire(Message("A-B", Some("A"), "hi", 100, false))))
    ensures toSender && toRecipient
    ensures history == [Message("A-B", Some("A"), "hi", 100, false)]
  {
    var server := new ChatServer();
    server.Connect("s1");
    server.Connect("s2");
    server.Join("s1", "A");
    server.Join("s2", "B");
    JoinedAB();
    assert server.users == [User("s1", "A"), User("s2", "B")];
    var msg := Message("A-B", Some("A"), "hi", 100, false);
    RoomAB(msg);
    server.SendMessage("s1", "B", "hi", false, 100);
    var n := |server.outbox|;
    echo, forward := server.outbox[n - 2], server.outbox[n - 1];
    toSender := Reaches(echo.target, "s1", server.connections);
    toRecipient := Reaches(forward.target, "s2", server.connections);
    server.GetMessageHistory("s2", "A-B", false);
    history := server.outbox[|server.outbox| - 1].payload.messages;
  }

  /** The members of "team" as A creates it with B then A selected, and the notices they draw. */
  lemma TeamNotices(users: seq<User>, notice: WireMessage)
    requires users == [User("s1", "A"), User("s2", "B")]
    ensures GroupMembers(Some("A"), ["B", "A"]) == [Some("A"), Some("B"), Some("A")]
    ensures |NoticeEmits(users, [Some("A"), Some("B"), Some("A")], notice)| == 3
  {
    assert Somes(["B", "A"]) == [Some("B"), Some("A")] by {
      assert |Somes(["B", "A"])| == 2;
    }
    var ms := [Some("A"), Some("B"), Some("A")];
    assert |NoticeFor(users, Some("A"), notice)| == 1 && |NoticeFor(users, Some("B"), notice)| == 1 by {
      assert users[0].username == "A" && users[1].username == "B";
    }
    assert ms[..2] == [Some("A"), Some("B")] && ms[..2][..1] == [Some("A")] && [Some("A")][..0] == [];
    assert NoticeEmits(users, [Some("A")], notice) == NoticeFor(users, Some("A"), notice);
    assert NoticeEmits(users, ms[..2], notice)
        == NoticeEmits(users, [Some("A")], notice) + NoticeFor(users, Some("B"), notice);
  }

  /**
   * A creates the group "team" from the form with B selected, so the
   * members are A, B, A: A is notified twice and B once.
   */
  method CreateGroupNotices() returns (members: seq<Option<string>>, notices: nat)
    ensures members == [Some("A"), Some("B"), Some("A")]
    ensures notices == 3
  {
    var server := new ChatServer();
    server.Connect("s1");
    server.Connect("s2");
    server.Join("s1", "A");
    server.Join("s2", "B");
    JoinedAB();
    var notice := WireMessage("g1", Some(SystemUser), CreationText(Some("A"), "team"), 10, None);
    TeamNotices(server.users, notice);
    var before := |server.outbox|;
    server.CreateGroup("s1", "team", ["B", "A"], "g1", 10);
    members := server.groups[0].members;
    notices := |server.outbox| - before - 1;
  }

  /** The group "team" that B creates with A selected. */
  lemma TeamOfB(groups: seq<Group>)
    requires groups == [Group("g1", "team", GroupMembers(Some("B"), ["A"]))]
    ensures GroupMembers(Some("B"), ["A"]) == [Some("B"), Some("A")]
    ensures GroupAccepts(groups, "g1", Some("B"))
    ensures !GroupAccepts(groups, "g1", Some("C"))
  {
    assert Somes(["A"]) == [Some("A")] by { assert |Somes(["A"])| == 1; }
  }

  /**
   * B, a member, posts to the group: the message is stored and emitted to the
   * group's room, which no socket joined, so it reaches nobody.
   */
  method GroupMessageReachesNoMember() returns (stored: bool, audience: set<SocketId>)
    ensures stored && audience == {}
  {
    var server := new ChatServer();
    server.Connect("s2");
    server.Join("s2", "B");
    server.CreateGroup("s2", "team", ["A"], "g1", 10);
    TeamOfB(server.groups);
    server.SendMessage("s2", "g1", "yo", true, 20);
    stored := server.store[|server.store| - 1] == Message("g1", Some("B"), "yo", 20, true);
    audience := Audience(server.outbox[|server.outbox| - 1].target, server.connections);
    assert server.connections == map["s2" := Connection(Some("B"), {})];
  }

  /** C, not a member, posts to the group: nothing is stored and nothing is emitted. */
  method NonMemberPostDropped() returns (dropped: bool)
    ensures dropped
  {
    var server := new ChatServer();
    server.Connect("s2");
    server.Connect("s3");
    server.Join("s2", "B");
    server.Join("s3", "C");
    server.CreateGroup("s2", "team", ["A"], "g1", 10);
    TeamOfB(server.groups);
    var store, outbox := server.store, server.outbox;
    server.SendMessage("s3", "g1", "hey", true, 30);
    dropped := server.store == store && server.outbox == outbox;
  }

  /** A second claim of "alice" keeps the list, and removing "alice" empties it. */
  lemma AliceTwice()
    ensures RegisterUser([User("s1", "alice")], "s2", "alice") == [User("s1", "alice")]
    ensures RemoveUsername([User("s1", "alice")], "alice") == []
  {
    assert [User("s1", "alice")][0].username == "alice";
    assert [User("s1", "alice")][1..] == [];
  }

  /**
   * Two sockets join under one name: only the first gets an entry. When the
   * second disconnects, the name is removed, so the first socket, still
   * connected, is no longer listed as online.
   */
  method DuplicateNameDisconnect() returns (listedAfterJoins: seq<User>, listedAfterDisconnect: seq<User>, firstConnected: bool)
    ensures listedAfterJoins == [User("s1", "alice")]
    ensures listedAfterDisconnect == [] && firstConnected
  {
    var server := new ChatServer();
    server.Connect("s1");
    server.Connect("s2");
    server.Join("s1", "alice");
    AliceTwice();
    server.Join("s2", "alice");
    listedAfterJoins := server.users;
    server.Disconnect("s2");
    listedAfterDisconnect := server.users;
    firstConnected := "s1" in server.connections;
  }
}
