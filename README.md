# ChatAppRealTime, modelled in Dafny

This project models the two halves of a small real-time chat.

## The server

The server is the socket handler (`BE/chat-app/socket/handler.js`). It keeps two module-level registries and reacts to socket events:

- The **online users** registry is a list of `{id, username}` entries, one per name.
- The **groups** registry is a list of `{id, name, members}`.
- `join` claims a name for the socket and registers it if the name is new.
- `createGroup` appends a group, puts the creator in front of its members, notifies every member with an online entry, and stores a system message.
- `sendMessage` posts to a group only when the sender is a member. A direct message is filed under the room keyed by the sorted pair of names joined by `-`, and the sender's socket joins that room. The message is stored, echoed to the sender's socket and sent to the socket of the recipient's entry when there is one. The emit to the pair room itself is commented out, so delivery goes only through those two emits.
- `getMessageHistory` replies with the oldest 50 stored messages of a room, in timestamp order.
- `disconnect` removes every entry under the socket's name, but only when that name is truthy. A socket that joined as "" leaves its entry behind.

`ChatServer` is a Dafny class whose fields are these registries plus the per-socket facts:
- `connections` maps each socket to `socket.username` (absent until `join`, i.e. `undefined`) and to the rooms it joined by `socket.join`;
- `store` holds the message documents;
- `outbox` is the log of everything emitted, each entry with its target (`io.emit`, `socket.emit`, `io.to(room).emit`).

Delivery is `Server.Reaches`: a socket is always in the room named by its own id, and in the rooms it joined. The outbox records targets, not audiences. `Reaches` and `Audience` therefore say who an emit reached only when read against `connections` right after the handler that logged it. The scenarios read them that way. Read against a later state, they say who such an emit would reach then.

## The client

The client is the React component of `FE/chat-frontend/src/App.jsx`.

- Its pure helpers become functions:
  - the room key `isGroup ? recipient : [username, recipient].sort().join("-")`;
  - the member toggle of the create-group form;
  - the header name;
  - the avatar initials;
  - the guards of `sendMessage` and `createGroup`.
- Its state hooks become the fields of the class `ChatClient`. Each socket listener and each handler updates those fields.
- What it emits is kept in its own `outbox`.

## The JavaScript runtime

The JavaScript semantics the code relies on are written out in `JsRuntime`:
- the default `sort()`: `undefined` goes last, everything else is compared as `String(x)`, and the sort is stable;
- `join`: `null` and `undefined` render as the empty string;
- `split` on one character;
- `trim`, with its white-space set;
- truthiness of strings: `""` is falsy.

## Model

| member | source | states |
|---|---|---|
| JsRuntime.SortPair | BE/chat-app/socket/handler.js:79 | `[a, b].sort()` is a permutation of the pair, the first may stand before the second in sort order (undefined last, others by string order), and an ordered pair is left as it is (stability) |
| JsRuntime.LexLessIrreflexive | BE/chat-app/socket/handler.js:79 | the string order used by `sort` is irreflexive |
| JsRuntime.LexLessAsymmetric | BE/chat-app/socket/handler.js:79 | the string order is asymmetric |
| JsRuntime.LexLessTotal | BE/chat-app/socket/handler.js:79 | two different strings are always ordered one way or the other |
| JsRuntime.LexLessTransitive | BE/chat-app/socket/handler.js:79 | the string order is transitive |
| JsRuntime.RenderElements | BE/chat-app/socket/handler.js:80 | `join` renders each element in place, null/undefined as "" |
| JsRuntime.PairJoin | BE/chat-app/socket/handler.js:80 | a two-element array joins as its two renderings around the separator, null/undefined as "" |
| JsRuntime.Split | FE/chat-frontend/src/App.jsx:225 | `split` always yields at least one part |
| JsRuntime.SplitJoin | FE/chat-frontend/src/App.jsx:225 | joining the parts of a split with the separator gives back the string |
| JsRuntime.SplitPartsFree | FE/chat-frontend/src/App.jsx:225 | no part of a split contains the separator |
| JsRuntime.SplitWithoutSeparator | FE/chat-frontend/src/App.jsx:225 | a string without the separator splits into itself alone |
| JsRuntime.SplitAtFirst | FE/chat-frontend/src/App.jsx:225 | the first part ends at the first separator and the rest is the split of what follows |
| JsRuntime.TrimStart | FE/chat-frontend/src/App.jsx:162 | the result is a suffix of the input that does not start with white space, and everything dropped before it is white space |
| JsRuntime.TrimEnd | FE/chat-frontend/src/App.jsx:162 | the result is a prefix of the input that does not end with white space, and everything dropped after it is white space |
| JsRuntime.TrimNonEmpty | FE/chat-frontend/src/App.jsx:162 | `s.trim()` is truthy exactly when s has a non-white-space character |
| JsRuntime.TrimStartAllWhite | FE/chat-frontend/src/App.jsx:178 | trimming the start empties a string exactly when it is all white space |
| JsRuntime.TrimEndAllWhite | FE/chat-frontend/src/App.jsx:178 | trimming the end empties a string exactly when it is all white space |
| Protocol.FromWire | BE/chat-app/socket/handler.js:93 | a wire message reads back as a document exactly when it carries the `isGroup` flag |
| Protocol.WireRoundTrip | BE/chat-app/socket/handler.js:93 | a document sent as it is reads back unchanged, and a flagged wire message reads back as m exactly when it is the sending of m |
| Protocol.FindUser | BE/chat-app/socket/handler.js:18 | `users.find` by name gives nothing exactly when no entry has the name, and otherwise the first entry that has it |
| Protocol.FindGroup | BE/chat-app/socket/handler.js:61 | `groups.find` by id gives nothing exactly when no group has the id, and otherwise the first group that has it |
| Protocol.FindUserUnique | BE/chat-app/socket/handler.js:33 | with distinct names, the entry found is the only one with the name |
| History.Matching | BE/chat-app/socket/handler.js:110 | `find({room, isGroup})` returns only matching documents, drawn from the store |
| History.MatchingComplete | BE/chat-app/socket/handler.js:110 | every matching document is found as many times as it is stored |
| History.MatchingAppend | BE/chat-app/socket/handler.js:110 | a document added to the store is found after the earlier matches exactly when it matches |
| History.InsertByTime | BE/chat-app/socket/handler.js:110 | inserting keeps a sequence sorted by timestamp and adds exactly the one document |
| History.ConsSorted | BE/chat-app/socket/handler.js:110 | a document no younger than the head may go in front of a sorted sequence |
| History.SortByTime | BE/chat-app/socket/handler.js:110 | `sort({timestamp: 1})` gives a timestamp-sorted permutation |
| History.QueryIsOldestMatches | BE/chat-app/socket/handler.js:110 | a reply holds at most 50 documents, as many as there are matches up to 50, all of the room and kind, in timestamp order, and every match left out is no older than any document in the reply |
| History.SortedPrefix | BE/chat-app/socket/handler.js:110 | `limit(50)` of a sorted sequence is sorted, part of it, and no younger than what it leaves out |
| History.PrefixRestSplit | BE/chat-app/socket/handler.js:110 | what `limit` leaves out is exactly the rest of the sorted sequence |
| History.PrefixBeforeRest | BE/chat-app/socket/handler.js:110 | in a sorted sequence, every kept document is no younger than every one left out |
| History.QueryIgnoresOtherRooms | BE/chat-app/socket/handler.js:110 | storing a document of another room or kind does not change a reply |
| History.QuerySingle | BE/chat-app/socket/handler.js:110 | the first document of a room is replayed alone |
| Server.AudienceClosedForm | BE/chat-app/socket/handler.js:21-22 | `io.emit` reaches every connected socket; `socket.emit` reaches that socket if it is connected; `io.to(room)` reaches the socket of that id and every socket that joined the room |
| Server.RegisterUser | BE/chat-app/socket/handler.js:17-20 | after `join` the name is online; an entry is appended only when the name was not there; distinct names stay distinct |
| Server.RegisterUserIdempotent | BE/chat-app/socket/handler.js:18-20 | a second `join` under a name already online changes nothing, whatever its socket |
| Server.RemoveUsername | BE/chat-app/socket/handler.js:117 | after the filter no entry has the name, and the list did not grow |
| Server.RemoveUsernameSound | BE/chat-app/socket/handler.js:117 | every entry kept was in the list, under another name |
| Server.RemoveUsernameKeepsOthers | BE/chat-app/socket/handler.js:117 | every entry under another name is kept |
| Server.RemoveUsernamePrefix | BE/chat-app/socket/handler.js:117 | entries before the first occurrence of the name are kept in order |
| Server.RemoveUsernameAbsent | BE/chat-app/socket/handler.js:117 | removing a name that is not online changes nothing |
| Server.RemoveUsernameAt | BE/chat-app/socket/handler.js:117 | with distinct names, the removal deletes exactly the one entry with the name |
| Server.RemoveUsernameDistinct | BE/chat-app/socket/handler.js:117 | removal keeps the names distinct |
| Server.RemoveUndoesRegister | BE/chat-app/socket/handler.js:17-20 | the disconnect of the socket whose `join` added a new name gives back the list from before that `join` |
| Server.Somes | BE/chat-app/socket/handler.js:28 | the members sent are carried over one by one |
| Server.GroupMembers | BE/chat-app/socket/handler.js:28 | the group's members are the creator (possibly `undefined`) followed by the members sent |
| Server.NoticeFor | BE/chat-app/socket/handler.js:33-42 | a member is sent at most one notice, exactly when it has an online entry, addressed to that entry's id |
| Server.NoticeEmitsAppend | BE/chat-app/socket/handler.js:32-43 | the notices for two member lists in a row are those for each list, in order |
| Server.NoticeEmitsSpec | BE/chat-app/socket/handler.js:32-43 | the `forEach` sends no more notices than there are member occurrences, each with the notice text and addressed to the online entry of a member |
| Server.NoticeEmitsCount | BE/chat-app/socket/handler.js:32-43 | with every member online there is one notice each; with none online there is no notice |
| Server.NoticeEmitsStep | BE/chat-app/socket/handler.js:32-43 | one more member adds that member's notice at the end |
| Server.CreatorNotifiedTwice | BE/chat-app/socket/handler.js:28-43 | when the client sends the creator's own name last, the creator is listed first and last and gets the first and the last notice |
| Server.AddGroupKeepsDistinct | BE/chat-app/socket/handler.js:27-29 | appending a group under a fresh id keeps group ids distinct |
| Server.GroupAcceptsIff | BE/chat-app/socket/handler.js:61-62 | with distinct ids, a group message is accepted exactly when a group of that id lists the sender |
| Server.DirectRoomOrdered | BE/chat-app/socket/handler.js:79-80 | the direct room of two names is the smaller name, '-', then the other |
| Server.DirectRoomSymmetric | BE/chat-app/socket/handler.js:79-80 | both parties compute the same direct room |
| Server.DirectRoomAnonymous | BE/chat-app/socket/handler.js:79-80 | a sender that never joined sorts last and renders empty: the room is `recipient-` |
| Server.DirectRoomCollision | BE/chat-app/socket/handler.js:79-80 | the room key is not injective: ("a-b", "c") and ("a", "b-c") share "a-b-c" |
| Server.ChatServer.constructor | BE/chat-app/socket/handler.js:4-5 | the registries start empty |
| Server.ChatServer.Connect | BE/chat-app/socket/handler.js:8-12 | a new socket is anonymous, in no room, and is sent both registries |
| Server.ChatServer.Join | BE/chat-app/socket/handler.js:14-23 | the socket's name is set, the users list becomes `RegisterUser` of the old one, everyone gets the users and the socket the groups; names stay distinct |
| Server.ChatServer.CreateGroup | BE/chat-app/socket/handler.js:25-53 | the group is appended with its members, the groups are broadcast, the notices of `NoticeEmits` follow in member order, and one system message is stored for the group's room |
| Server.ChatServer.NotifyMembers | BE/chat-app/socket/handler.js:32-43 | the loop over the members emits exactly `NoticeEmits` of the members |
| Server.ChatServer.SendMessage | BE/chat-app/socket/handler.js:55-106 | a group message is stored and sent to the group's room exactly when the group exists and lists the sender, and otherwise nothing happens; a direct message joins the sender to the pair room, is stored, echoed to the sender and forwarded to the recipient's entry when it exists |
| Server.ChatServer.GetMessageHistory | BE/chat-app/socket/handler.js:108-112 | the socket is sent `Query` of the store, and nothing else changes |
| Server.ChatServer.Disconnect | BE/chat-app/socket/handler.js:114-121 | the socket goes away; when its name is truthy, every entry under the name is removed and the users are broadcast; otherwise the users list and outbox are unchanged |
| Client.RoomIdMatchesServer | FE/chat-frontend/src/App.jsx:49-51 | the client's direct room id equals the server's key, from the sender's and from the recipient's side |
| Client.NoGroupSelectedMatchesNothing | FE/chat-frontend/src/App.jsx:49-53 | in group mode with nothing selected the current room is `null` and no message matches it |
| Client.CanSendIff | FE/chat-frontend/src/App.jsx:162 | a message is sent exactly when the draft has a non-blank character and a non-empty recipient is selected |
| Client.CanCreateGroupIff | FE/chat-frontend/src/App.jsx:178 | a group request is sent exactly when the name has a non-blank character and at least one member is selected |
| Client.RemoveMember | FE/chat-frontend/src/App.jsx:198 | the filter leaves no occurrence of the member and does not grow the list |
| Client.RemoveMemberAppend | FE/chat-frontend/src/App.jsx:198 | filtering a concatenation filters each part |
| Client.RemoveMemberAbsent | FE/chat-frontend/src/App.jsx:198 | filtering out an absent member changes nothing |
| Client.RemoveMemberKeepsOthers | FE/chat-frontend/src/App.jsx:198 | every other name survives the filter, and none appears |
| Client.ToggleMemberSpec | FE/chat-frontend/src/App.jsx:196-200 | toggling a selected name removes all its occurrences and keeps the rest; toggling an unselected one appends it |
| Client.ToggleTwiceRestores | FE/chat-frontend/src/App.jsx:196-200 | toggling an unselected name twice gives back the selection |
| Client.ToggleKeepsNoDuplicates | FE/chat-frontend/src/App.jsx:196-200 | toggling never puts a name into the selection twice |
| Client.RemoveMemberNoDuplicates | FE/chat-frontend/src/App.jsx:198 | the filter keeps a duplicate-free list duplicate-free |
| Client.RecipientName | FE/chat-frontend/src/App.jsx:213-220 | no selection gives the prompt text; a direct chat gives the recipient; a group chat gives the name of the first group with that id, or the not-found text |
| Client.Initials | FE/chat-frontend/src/App.jsx:223-230 | rendered initials are at most two characters |
| Client.InitialsOneWord | FE/chat-frontend/src/App.jsx:224-229 | the empty name gives "??"; a name without a space gives its first one or two characters, upper-cased |
| Client.InitialsLeadingSpace | FE/chat-frontend/src/App.jsx:225-227 | a name starting with a space makes the first part empty, and reading its first character is a TypeError |
| Client.InitialsTwoWords | FE/chat-frontend/src/App.jsx:225-227 | with a first space inside the name, the initials are the first character and the one after the space, or a TypeError when that part is empty |
| Client.ChatClient.constructor | FE/chat-frontend/src/App.jsx:11-23 | the state hooks start at their initial values |
| Client.ChatClient.OnConnect | FE/chat-frontend/src/App.jsx:39-44 | on (re)connection a logged-in client with a name joins again |
| Client.ChatClient.OnMessage | FE/chat-frontend/src/App.jsx:46-56 | an incoming message is appended exactly when its room equals the current room id |
| Client.ChatClient.OnUsers | FE/chat-frontend/src/App.jsx:58-61 | the users list is replaced by the one received |
| Client.ChatClient.OnGroups | FE/chat-frontend/src/App.jsx:63-66 | the groups list is replaced by the one received |
| Client.ChatClient.OnMessageHistory | FE/chat-frontend/src/App.jsx:68-71 | the shown messages are replaced by the history, document by document |
| Client.ChatClient.Logout | FE/chat-frontend/src/App.jsx:147-158 | the session state is cleared and the socket disconnects and reconnects |
| Client.ChatClient.SendMessage | FE/chat-frontend/src/App.jsx:161-174 | when the guard holds, the draft is sent to the selected recipient as typed and cleared; otherwise nothing changes |
| Client.ChatClient.CreateGroup | FE/chat-frontend/src/App.jsx:177-184 | when the guard holds, the name and the members followed by the user's own name are sent and the form is reset; otherwise nothing changes |
| Client.ChatClient.SelectChat | FE/chat-frontend/src/App.jsx:187-193 | the chat is selected, the list emptied and the history of its room id requested |
| Client.ChatClient.ToggleGroupMember | FE/chat-frontend/src/App.jsx:196-200 | the selection becomes `ToggleMember` of the old one |
| Scenarios.DirectMessageRoundTrip | BE/chat-app/socket/handler.js:78-111 | after A and B join and A writes "hi" to B, the echo to s1 and the emit to s2 both carry the stored document of A's "hi" in room "A-B", both sockets are reached, and B's history of "A-B" is exactly that message |
| Scenarios.CreateGroupNotices | BE/chat-app/socket/handler.js:28-43 | a group created from the form with B selected lists A, B, A and sends three notices |
| Scenarios.GroupMessageReachesNoMember | BE/chat-app/socket/handler.js:59-76 | a member's group message is stored but reaches no socket, since no socket joins a group room |
| Scenarios.NonMemberPostDropped | BE/chat-app/socket/handler.js:61-62 | a non-member's group message is neither stored nor emitted |
| Scenarios.DuplicateNameDisconnect | BE/chat-app/socket/handler.js:18-19 | the second socket under a name gets no entry; its disconnect removes the name while the first socket stays connected |

## Left out

- The transport is not modelled. Socket.io connections, reconnection, `connect_error` and the browser are outside the model. Every emit becomes an entry in an outbox, and delivery is the `Reaches` rule.
- Each handler is modelled as running to completion. The interleaving of the `async` handlers at their `await` points is not modelled.
- A failing MongoDB `save` is not modelled. When a `save` rejects in the source, the emits after it do not happen.
- `uuidv4()` is not modelled. `Server.ChatServer.CreateGroup` takes the group id as a parameter and requires it to be fresh.
- `new Date()` and the schema's default timestamp become one `now` parameter. The notice and the stored system message therefore share a timestamp, although in the source they may differ by a few milliseconds.
- The Message schema file is not part of this model. Its fields are taken from how the handler builds documents.
- `History.Query` treats documents with equal timestamps as keeping their store order. MongoDB does not promise this order.
- The string order is by Unicode scalar value. JavaScript compares UTF-16 code units, so the two orders can disagree on characters outside the Basic Multilingual Plane. The same difference applies to indexing in `getInitials`.
- `Client.Initials`: `toUpperCase` is an abstract character function here. Its results that change length, such as "ß" becoming "SS", are outside the model, so the contract bounds the result at two characters.
- `Server.DirectRoomSymmetric` is proved for two named users only. A user named "null" and a `null` recipient sort alike but render differently, so symmetry is not claimed for them.
- The room key is not injective, and the model does not claim that it is. `Server.DirectRoomCollision` exhibits two pairs of names that share one room.
- The `room` variable computed in the client's `sendMessage` is only logged, so it is not modelled.
- Login, registration, their `fetch` calls, `localStorage` and the mount effect are not modelled. They talk to the HTTP server, and `server.js` is not part of this model.
- `isRegistering`, `handleKeyPress`, the scroll effect and the JSX rendering are not modelled. The form and chat components (`LoginRegisterForm.js`, `ChatInterface.js`) are not part of this model either.
- Event payloads are typed as the shipped client sends them: the name of `join` is a string, `isGroup` a boolean and `members` a list of strings. Socket.io delivers any JSON value. For example, a `join` with `null` registers an entry whose name is `null`, and `disconnect` then never removes it because `null` is falsy. Such payloads are outside the model.
- Console logging is left out.
