/**
 * The session registry (`ChannelSupervise`): the group of live channels, the
 * map from a channel id's long text to the id, and the map from username to
 * channel-id text. The source keeps these as static shared state; here they are
 * the fields of one registry object that every connection handler shares.
 */
module Supervise {
  import opened Wrappers
  import CountStat

  /** A Netty channel id. `longText` is its `asLongText()` rendering, unique per id,
      so two ids are equal exactly when their long texts are. A channel is
      identified with its id. */
  datatype ChannelId = ChannelId(longText: string)

  /** `users` after `removeIf` dropped every entry bound to channel text `c`. */
  function Unbind(users: map<string, string>, c: string): map<string, string> {
    map u | u in users && users[u] != c :: users[u]
  }

  /** After unbinding `c`, no user resolves to it. */
  lemma UnbindClears(users: map<string, string>, c: string)
    ensures c !in Unbind(users, c).Values
  {
  }

  /** Unbinding removes exactly the users bound to `c`; everyone else keeps their binding. */
  lemma UnbindKeepsOthers(users: map<string, string>, c: string, u: string)
    ensures u in Unbind(users, c) <==> u in users && users[u] != c
    ensures u in Unbind(users, c) ==> Unbind(users, c)[u] == users[u]
  {
  }

  /** Unbinding twice is unbinding once. */
  lemma UnbindIdempotent(users: map<string, string>, c: string)
    ensures Unbind(Unbind(users, c), c) == Unbind(users, c)
  {
  }

  /** When `u` is the only user bound to `c`, unbinding `c` removes `u` and nobody else,
      so the user count drops by one. */
  lemma UnbindSingleUser(users: map<string, string>, c: string, u: string)
    requires u in users && users[u] == c
    requires forall v :: v in users && users[v] == c ==> v == u
    ensures Unbind(users, c).Keys == users.Keys - {u}
    ensures |Unbind(users, c)| == |users| - 1
  {
    assert Unbind(users, c).Keys == users.Keys - {u};
  }

  /** Unbinding a channel text no user is bound to leaves the map as it was. */
  lemma UnbindUnbound(users: map<string, string>, c: string)
    requires c !in users.Values
    ensures Unbind(users, c) == users
  {
    forall u | u in users ensures users[u] != c {
      assert users[u] in users.Values;
    }
  }

  /** Distinct ids have distinct long texts, so the long texts of a set of ids are as many as the ids. */
  lemma {:induction false} LongTextsCount(ids: set<ChannelId>)
    ensures |set c | c in ids :: c.longText| == |ids|
    decreases |ids|
  {
    if ids != {} {
      var x :| x in ids;
      var rest := ids - {x};
      LongTextsCount(rest);
      var texts := set c | c in ids :: c.longText;
      var restTexts := set c | c in rest :: c.longText;
      assert texts == restTexts + {x.longText};
      assert x.longText !in restTexts;
    }
  }

  class ChannelSupervise {
    /** `SOCKET_GROUP` */
    var socketGroup: set<ChannelId>
    /** `CHANNEL_MAP`: channel-id long text to channel id */
    var channelMap: map<string, ChannelId>
    /** `USER_MAP`: username to channel-id long text */
    var userMap: map<string, string>

    /** `addChannel` and `removeChannel` keep the group and the channel map in step:
        each key of the map is the long text of the id it maps to, and an id is in
        the group exactly when its long text is a key. */
    ghost predicate Valid()
      reads this
    {
      && (forall t :: t in channelMap ==> channelMap[t].longText == t)
      && (forall c :: c in socketGroup <==> c.longText in channelMap)
    }

    /** Every bound user's channel is a live one. The connection handler keeps this as
        long as users join only from active channels. */
    ghost predicate Consistent()
      reads this
    {
      Valid() && forall u :: u in userMap ==> userMap[u] in channelMap
    }

    /** At most one username per channel. */
    ghost predicate OneUserPerChannel()
      reads this
    {
      forall u, v :: u in userMap && v in userMap && u != v ==> userMap[u] != userMap[v]
    }

    constructor ()
      ensures Consistent() && OneUserPerChannel()
      ensures socketGroup == {} && channelMap == map[] && userMap == map[]
    {
      socketGroup := {};
      channelMap := map[];
      userMap := map[];
    }

    /** `addUser`: binds `userName` to `channelId`, overwriting any earlier binding of that name. */
    method AddUser(userName: string, channelId: string)
      modifies this
      ensures userMap == old(userMap)[userName := channelId]
      ensures GetUserChannelId(userName) == Some(channelId)
      ensures forall v :: v != userName ==> GetUserChannelId(v) == old(GetUserChannelId(v))
      ensures socketGroup == old(socketGroup) && channelMap == old(channelMap)
    {
      userMap := userMap[userName := channelId];
    }

    /** `removeUser`: deletes only the key `userName`; nothing happens when it is absent. */
    method RemoveUser(userName: string)
      modifies this
      ensures userMap == old(userMap) - {userName}
      ensures GetUserChannelId(userName) == None
      ensures userName !in old(userMap) ==> userMap == old(userMap)
      ensures socketGroup == old(socketGroup) && channelMap == old(channelMap)
    {
      userMap := userMap - {userName};
    }

    /** `removeUserByChannelId`: the `removeIf` over the user map's entries, one entry at a time. */
    method RemoveUserByChannelId(channelId: string)
      modifies this
      ensures userMap == Unbind(old(userMap), channelId)
      ensures channelId !in userMap.Values
      ensures socketGroup == old(socketGroup) && channelMap == old(channelMap)
    {
      var pending := userMap.Keys;
      while pending != {}
        invariant pending <= old(userMap).Keys
        invariant forall u :: u in userMap <==> u in old(userMap) && (u in pending || old(userMap)[u] != channelId)
        invariant forall u :: u in userMap ==> userMap[u] == old(userMap)[u]
        invariant socketGroup == old(socketGroup) && channelMap == old(channelMap)
        decreases pending
      {
        var u :| u in pending;
        if userMap[u] == channelId {
          userMap := userMap - {u};
        }
        pending := pending - {u};
      }
      UnbindClears(old(userMap), channelId);
    }

    /** `getUserChannelId`: the channel-id text `userName` is bound to, or null. */
    function GetUserChannelId(userName: string): (r: Option<string>)
      reads this
      ensures r.Some? <==> userName in userMap
      ensures r.Some? ==> userMap[userName] == r.value
    {
      if userName in userMap then Some(userMap[userName]) else None
    }

    /** `addChannel` */
    method AddChannel(socketChannel: ChannelId)
      requires Valid()
      modifies this
      ensures Valid()
      ensures socketGroup == old(socketGroup) + {socketChannel}
      ensures channelMap == old(channelMap)[socketChannel.longText := socketChannel]
      ensures userMap == old(userMap)
    {
      socketGroup := socketGroup + {socketChannel};
      channelMap := channelMap[socketChannel.longText := socketChannel];
    }

    /** `removeChannel` */
    method RemoveChannel(socketChannel: ChannelId)
      requires Valid()
      modifies this
      ensures Valid()
      ensures socketGroup == old(socketGroup) - {socketChannel}
      ensures channelMap == old(channelMap) - {socketChannel.longText}
      ensures userMap == old(userMap)
    {
      socketGroup := socketGroup - {socketChannel};
      channelMap := channelMap - {socketChannel.longText};
    }

    /** `getTargetChannel`: null for a null id; otherwise the group member whose id the
        channel map holds for that text. An unmapped text is treated as absent. */
    function GetTargetChannel(channelId: Option<string>): (r: Option<ChannelId>)
      reads this
      ensures channelId.None? ==> r.None?
      ensures r.Some? ==> channelId.Some? && r.value in socketGroup && channelId.value in channelMap && channelMap[channelId.value] == r.value
      ensures Valid() ==> (r.Some? <==> channelId.Some? && channelId.value in channelMap)
      ensures Valid() && r.Some? ==> r.value.longText == channelId.value
    {
      match channelId
      case None => None
      case Some(t) => if t in channelMap && channelMap[t] in socketGroup then Some(channelMap[t]) else None
    }

    /** `name` is an answer the reverse lookup may give for `channelId`: a user bound to it,
        or null exactly when the id is null or no user is bound to it. */
    ghost predicate ClientNameOf(channelId: Option<string>, name: Option<string>)
      reads this
    {
      && (name.Some? ==> channelId.Some? && name.value in userMap && userMap[name.value] == channelId.value)
      && (name.None? <==> channelId.None? || channelId.value !in userMap.Values)
    }

    /** `getChannelClientName`: some user bound to `channelId` (the first the map's
        iteration meets, an order the model leaves open), or null. */
    method GetChannelClientName(channelId: Option<string>) returns (name: Option<string>)
      ensures ClientNameOf(channelId, name)
    {
      if channelId.Some? && channelId.value in userMap.Values {
        var u :| u in userMap && userMap[u] == channelId.value;
        name := Some(u);
      } else {
        name := None;
      }
    }

    /** The channels a broadcast from `sourceId` reaches: group members other than the
        source whose id text some user is bound to (`ConcurrentHashMap.contains` tests values). */
    ghost function BroadcastRecipients(sourceId: ChannelId): set<ChannelId>
      reads this
    {
      set c | c in socketGroup && c != sourceId && c.longText in userMap.Values
    }

    /** `broadcastMsg`: walks the group and returns, in the order written, the channels
        the message text was written to, each exactly once. */
    method BroadcastMsg(sourceId: ChannelId) returns (sent: seq<ChannelId>)
      ensures forall i, j :: 0 <= i < j < |sent| ==> sent[i] != sent[j]
      ensures forall c :: c in sent <==> c in BroadcastRecipients(sourceId)
    {
      sent := [];
      var pending := socketGroup;
      while pending != {}
        invariant pending <= socketGroup
        invariant forall i, j :: 0 <= i < j < |sent| ==> sent[i] != sent[j]
        invariant forall c :: c in sent <==> c in BroadcastRecipients(sourceId) && c !in pending
        decreases pending
      {
        var ch :| ch in pending;
        if ch != sourceId && ch.longText in userMap.Values {
          sent := sent + [ch];
        }
        pending := pending - {ch};
      }
    }

    /** `currentConnections`: the group size, the channel map size and the user map size. */
    function CurrentConnections(): (r: CountStat.WebSocketCountStatVo)
      reads this
      ensures r.channelsCount == CountStat.SaturatedSize(|socketGroup|)
      ensures r.channelMapCount == CountStat.SaturatedSize(|channelMap|)
      ensures r.usersCount == CountStat.SaturatedSize(|userMap|)
    {
      CountStat.Create(
        CountStat.SaturatedSize(|socketGroup|),
        CountStat.SaturatedSize(|channelMap|),
        CountStat.SaturatedSize(|userMap|))
    }

    /** `currentUsers`: every bound username, once each. */
    method CurrentUsers() returns (users: seq<string>)
      ensures forall i, j :: 0 <= i < j < |users| ==> users[i] != users[j]
      ensures forall u :: u in users <==> u in userMap
    {
      users := [];
      var pending := userMap.Keys;
      while pending != {}
        invariant pending <= userMap.Keys
        invariant forall i, j :: 0 <= i < j < |users| ==> users[i] != users[j]
        invariant forall u :: u in users <==> u in userMap && u !in pending
        decreases pending
      {
        var u :| u in pending;
        users := users + [u];
        pending := pending - {u};
      }
    }

    /** In a valid registry the group and the channel map always report the same size. */
    lemma GroupMatchesChannelMap()
      requires Valid()
      ensures |socketGroup| == |channelMap|
      ensures CurrentConnections().channelsCount == CurrentConnections().channelMapCount
    {
      LongTextsCount(socketGroup);
      assert channelMap.Keys == set c | c in socketGroup :: c.longText by {
        forall t | t in channelMap ensures t in set c | c in socketGroup :: c.longText {
          assert channelMap[t] in socketGroup;
        }
      }
    }
  }
}
