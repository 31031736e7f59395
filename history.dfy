/**
 * The history query of the server:
 * `Message.find({ room, isGroup }).sort({ timestamp: 1 }).limit(50)`,
 * stated over the store as a sequence of documents in insertion order.
 */
module History {
  import opened Protocol

  /** The most documents one history reply holds. */
  const HistoryLimit: nat := 50

  predicate Matches(m: Message, room: string, isGroup: bool)
  {
    m.room == room && m.isGroup == isGroup
  }

  /** `find({ room, isGroup })`: the matching documents, in store order. */
  function Matching(store: seq<Message>, room: string, isGroup: bool): (r: seq<Message>)
    ensures forall k :: 0 <= k < |r| ==> Matches(r[k], room, isGroup)
    ensures multiset(r) <= multiset(store)
  {
    if store == [] then []
    else
      var rest := Matching(store[1..], room, isGroup);
      assert store == [store[0]] + store[1..];
      if Matches(store[0], room, isGroup) then [store[0]] + rest else rest
  }

  /** Every matching document of the store is found, as often as it is stored. */
  lemma {:induction false} MatchingComplete(store: seq<Message>, room: string, isGroup: bool, m: Message)
    requires Matches(m, room, isGroup)
    ensures multiset(Matching(store, room, isGroup))[m] == multiset(store)[m]
    decreases |store|
  {
    if store != [] {
      MatchingComplete(store[1..], room, isGroup, m);
      assert store == [store[0]] + store[1..];
    }
  }

  predicate SortedByTime(s: seq<Message>)
  {
    forall i, j :: 0 <= i < j < |s| ==> s[i].timestamp <= s[j].timestamp
  }

  /** Places m before the first document that is not older than it. */
  function InsertByTime(m: Message, s: seq<Message>): (r: seq<Message>)
    requires SortedByTime(s)
    ensures SortedByTime(r)
    ensures multiset(r) == multiset(s) + multiset{m}
    ensures |r| == |s| + 1 && (r[0] == m || (s != [] && r[0] == s[0]))
  {
    if s == [] || m.timestamp <= s[0].timestamp then
      ConsSorted(m, s);
      [m] + s
    else
      var rest := InsertByTime(m, s[1..]);
      assert s == [s[0]] + s[1..];
      assert s[0].timestamp <= rest[0].timestamp;
      ConsSorted(s[0], rest);
      [s[0]] + rest
  }

  /** A document no younger than the head of a sorted sequence may go in front of it. */
  lemma ConsSorted(x: Message, s: seq<Message>)
    requires SortedByTime(s)
    requires s != [] ==> x.timestamp <= s[0].timestamp
    ensures SortedByTime([x] + s)
  {
    var r := [x] + s;
    forall i, j | 0 <= i < j < |r| ensures r[i].timestamp <= r[j].timestamp {
      if i == 0 {
        assert r[j] == s[j - 1];
        assert s[0].timestamp <= s[j - 1].timestamp;
      } else {
        assert r[i] == s[i - 1] && r[j] == s[j - 1];
      }
    }
  }

  /** `sort({ timestamp: 1 })`: ascending timestamps, ties in store order. */
  function SortByTime(s: seq<Message>): (r: seq<Message>)
    ensures SortedByTime(r)
    ensures multiset(r) == multiset(s)
  {
    if s == [] then []
    else
      assert s == [s[0]] + s[1..];
      InsertByTime(s[0], SortByTime(s[1..]))
  }

  function Min(a: int, b: int): int
  {
    if a <= b then a else b
  }

  /** The reply to `getMessageHistory`: the sorted matches, cut at the limit. */
  function Query(store: seq<Message>, room: string, isGroup: bool): seq<Message>
  {
    var sorted := SortByTime(Matching(store, room, isGroup));
    sorted[..Min(HistoryLimit, |sorted|)]
  }

  /**
   * A reply holds at most 50 documents, all of the requested room and kind,
   * in non-decreasing timestamp order; it holds as many as the store has up
   * to the limit, and every matching document left out is no older than
   * every one in the reply, so the reply is the oldest 50.
   */
  lemma QueryIsOldestMatches(store: seq<Message>, room: string, isGroup: bool)
    ensures var r := Query(store, room, isGroup);
            var f := Matching(store, room, isGroup);
            && |r| <= HistoryLimit
            && |r| == Min(HistoryLimit, |f|)
            && (forall k :: 0 <= k < |r| ==> Matches(r[k], room, isGroup))
            && SortedByTime(r)
            && multiset(r) <= multiset(f)
            && (forall x, y :: x in r && y in multiset(f) - multiset(r) ==> x.timestamp <= y.timestamp)
  {
    var f := Matching(store, room, isGroup);
    var t := SortByTime(f);
    var n := Min(HistoryLimit, |t|);
    assert |t| == |f| by { assert |multiset(t)| == |multiset(f)|; }
    SortedPrefix(t, n);
    forall k | 0 <= k < n ensures Matches(t[..n][k], room, isGroup) {
      assert t[k] in multiset(f);
    }
  }

  /** A prefix of a sorted sequence is sorted, part of it, and no younger than what it leaves out. */
  lemma SortedPrefix(t: seq<Message>, n: nat)
    requires SortedByTime(t) && n <= |t|
    ensures SortedByTime(t[..n])
    ensures multiset(t[..n]) <= multiset(t)
    ensures forall x, y :: x in t[..n] && y in multiset(t) - multiset(t[..n]) ==> x.timestamp <= y.timestamp
  {
    var r, rest := t[..n], t[n..];
    PrefixRestSplit(t, n);
    forall x, y | x in r && y in multiset(t) - multiset(r) ensures x.timestamp <= y.timestamp {
      assert y in rest;
      PrefixBeforeRest(t, n, x, y);
    }
  }

  lemma PrefixRestSplit(t: seq<Message>, n: nat)
    requires n <= |t|
    ensures multiset(t) == multiset(t[..n]) + multiset(t[n..])
    ensures multiset(t) - multiset(t[..n]) == multiset(t[n..])
  {
    assert t == t[..n] + t[n..];
  }

  lemma PrefixBeforeRest(t: seq<Message>, n: nat, x: Message, y: Message)
    requires SortedByTime(t) && n <= |t|
    requires x in t[..n] && y in t[n..]
    ensures x.timestamp <= y.timestamp
  {
    var i :| 0 <= i < n && t[..n][i] == x;
    var j :| 0 <= j < |t| - n && t[n..][j] == y;
    assert t[i] == x && t[n + j] == y;
  }

  /** Adding a document of another room or kind leaves the reply as it was. */
  lemma QueryIgnoresOtherRooms(store: seq<Message>, m: Message, room: string, isGroup: bool)
    requires !Matches(m, room, isGroup)
    ensures Query(store + [m], room, isGroup) == Query(store, room, isGroup)
  {
    MatchingAppend(store, m, room, isGroup);
    assert Matching(store + [m], room, isGroup) == Matching(store, room, isGroup) + [];
    assert Matching(store, room, isGroup) + [] == Matching(store, room, isGroup);
  }

  lemma {:induction false} MatchingAppend(store: seq<Message>, m: Message, room: string, isGroup: bool)
    ensures Matching(store + [m], room, isGroup)
         == Matching(store, room, isGroup) + (if Matches(m, room, isGroup) then [m] else [])
    decreases |store|
  {
    if store == [] {
      assert [m][1..] == [];
    } else {
      assert (store + [m])[1..] == store[1..] + [m];
      MatchingAppend(store[1..], m, room, isGroup);
    }
  }

  /** In an empty room with a fresh document, the reply is that one document. */
  lemma QuerySingle(store: seq<Message>, m: Message)
    requires forall k :: 0 <= k < |store| ==> !Matches(store[k], m.room, m.isGroup)
    ensures Query(store + [m], m.room, m.isGroup) == [m]
  {
    MatchingAppend(store, m, m.room, m.isGroup);
    assert Matching(store + [m], m.room, m.isGroup) == [m];
    assert [m][1..] == [];
  }
}
