# netty-websocket relay: session registry and message routing

This project models the core of a small WebSocket relay server built on Netty:

- **The session registry** (`ChannelSupervise`). It holds the group of live channels, a map from a channel id's text to the id, and a map from username to channel-id text. In the model it is the class `Supervise.ChannelSupervise`, with a `set` and two `map` fields that its methods update in place. Three predicates state its invariants: `Valid` (the group and the channel map agree), `Consistent` (every bound user's channel is live) and `OneUserPerChannel`. Every registry operation keeps `Valid`. The handler's methods keep `Consistent` and `OneUserPerChannel` under the conditions their `ensures` clauses state.
- **The per-connection handler** (`NioWebSocketHandler`). This covers:
  - connect and disconnect bookkeeping;
  - taking the username from the upgrade request's path;
  - evicting a duplicate login;
  - routing inbound frames: the "Channel Not Join" reply, targeted delivery and broadcast.

  The handler is the class `Handler.NioWebSocketHandler`. Everything it writes to the network, or closes, is appended to the `log` of a shared `Handler.Outbox`, in order. The routing rules for a text frame are also stated as the specification `Handler.TextEffects`, and the lemmas about routing are stated over it.
- **The two records**: the message envelope `WebSocketMsgDto` (`MsgDto`) and the statistics triple `WebSocketCountStatVo` (`CountStat`). Both are datatypes; the datatype's selectors serve as the getters, and each setter is a function returning the updated record.
- **The library behaviour the routing depends on** (`Strings`):
  - Java's `String.split` on `/`, including its rule of dropping trailing empty pieces;
  - hutool's `StrUtil.isBlank` and its set of blank characters;
  - Java's decimal rendering of an `int`.

Java `null` is `Wrappers.Option.None`. JSON decoding of a frame is an input of `HandleWebSocketFrame`, with `None` meaning the decoder threw. The registry's iteration order is left open (`:|`), so the broadcast and user-list methods are specified by the set of what they return and by "each once".

Three behaviours of the code are easy to misread; the model follows the code in each:

- The unjoined-sender check is made only for JSON-shaped frames. Plain text from a connection with no registered name is still broadcast (`NioWebSocketHandler.java:224-233`, `:257`).
- Evicting a duplicate login closes the old channel and unbinds its users, but does not remove the old channel from the group or the channel map. That happens later, in the old channel's own `channelInactive`.
- The JSON decode happens before the unjoined check. A malformed JSON frame from an unjoined sender therefore gets no reply at all (`Handler.MalformedJsonIsDropped`).

## Model

| member | source | states |
|---|---|---|
| Supervise.ChannelSupervise.constructor | netty-websocket/src/main/java/top/shuzz/socketserver/ChannelSupervise.java:31-43 | the registry starts with an empty group and two empty maps, and satisfies its invariants |
| Supervise.ChannelSupervise.AddUser | netty-websocket/src/main/java/top/shuzz/socketserver/ChannelSupervise.java:51-54 | the name is bound to the channel text, overwriting any earlier binding; every other name keeps its binding; group and channel map untouched |
| Supervise.ChannelSupervise.RemoveUser | netty-websocket/src/main/java/top/shuzz/socketserver/ChannelSupervise.java:61-63 | only the key `userName` is removed; an absent name leaves the map unchanged |
| Supervise.ChannelSupervise.RemoveUserByChannelId | netty-websocket/src/main/java/top/shuzz/socketserver/ChannelSupervise.java:70-78 | the entry-by-entry `removeIf` loop leaves exactly `Unbind(old map, channelId)`, so no user stays bound to that channel |
| Supervise.UnbindClears | netty-websocket/src/main/java/top/shuzz/socketserver/ChannelSupervise.java:70-78 | after unbinding a channel text no user is bound to it |
| Supervise.UnbindKeepsOthers | netty-websocket/src/main/java/top/shuzz/socketserver/ChannelSupervise.java:70-78 | a user survives the unbinding exactly when bound to another channel, and keeps that binding |
| Supervise.UnbindSingleUser | netty-websocket/src/main/java/top/shuzz/socketserver/ChannelSupervise.java:70-78 | when one user alone is bound to the channel, unbinding removes that user and no other, so the user count drops by one |
| Supervise.UnbindUnbound | netty-websocket/src/main/java/top/shuzz/socketserver/ChannelSupervise.java:70-78 | unbinding a channel no user is bound to leaves the user map unchanged |
| Supervise.UnbindIdempotent | netty-websocket/src/main/java/top/shuzz/socketserver/ChannelSupervise.java:70-78 | removing a channel's users twice is the same as removing them once |
| Supervise.ChannelSupervise.GetUserChannelId | netty-websocket/src/main/java/top/shuzz/socketserver/ChannelSupervise.java:86-88 | the result is present exactly when the name is bound, and then equals its binding |
| Supervise.ChannelSupervise.AddChannel | netty-websocket/src/main/java/top/shuzz/socketserver/ChannelSupervise.java:95-98 | the channel joins the group and the channel map together, and the group/map agreement `Valid` is kept |
| Supervise.ChannelSupervise.RemoveChannel | netty-websocket/src/main/java/top/shuzz/socketserver/ChannelSupervise.java:105-108 | the channel leaves the group and the channel map together, and `Valid` is kept |
| Supervise.ChannelSupervise.GetTargetChannel | netty-websocket/src/main/java/top/shuzz/socketserver/ChannelSupervise.java:116-120 | null in gives null out; a result is always a group member that the channel map holds for that text; in a valid registry a mapped text always resolves, to the id with that text |
| Supervise.ChannelSupervise.GetChannelClientName | netty-websocket/src/main/java/top/shuzz/socketserver/ChannelSupervise.java:122-130 | a returned name is bound to the given channel text; null exactly when the text is null or no user is bound to it |
| Supervise.ChannelSupervise.BroadcastMsg | netty-websocket/src/main/java/top/shuzz/socketserver/ChannelSupervise.java:139-149 | the channels written to are distinct, and are exactly the group members other than the source whose id text some user is bound to (the map's `contains` tests values) |
| Supervise.ChannelSupervise.CurrentConnections | netty-websocket/src/main/java/top/shuzz/socketserver/ChannelSupervise.java:154-164 | the triple holds the group size, the channel map size and the user map size, each as `size()` reports it |
| Supervise.ChannelSupervise.CurrentUsers | netty-websocket/src/main/java/top/shuzz/socketserver/ChannelSupervise.java:166-168 | every bound username exactly once, and nothing else |
| Supervise.ChannelSupervise.GroupMatchesChannelMap | netty-websocket/src/main/java/top/shuzz/socketserver/ChannelSupervise.java:95-108 | because add and remove keep group and map in step, the first two counts of the statistics are always equal |
| Supervise.LongTextsCount | netty-websocket/src/main/java/top/shuzz/socketserver/ChannelSupervise.java:97 | distinct channel ids have distinct texts, so a set of ids has as many texts as ids |
| CountStat.SaturatedSize | netty-websocket/src/main/java/top/shuzz/socketserver/ChannelSupervise.java:163 | a size is reported exactly when it fits in an `int`, and as `Integer.MAX_VALUE` otherwise |
| Handler.NioWebSocketHandler.ChannelActive | netty-websocket/src/main/java/top/shuzz/socketserver/NioWebSocketHandler.java:57-62 | the connection joins group and channel map; the users are untouched; consistency is kept |
| Handler.NioWebSocketHandler.ChannelInactive | netty-websocket/src/main/java/top/shuzz/socketserver/NioWebSocketHandler.java:64-71 | every user bound to the connection is unbound before the connection leaves group and map; no stale user remains; consistency and one-user-per-channel are kept; with one user per channel, a connection that had a user leaves the user map one key smaller, short of exactly that user, and the reported user count drops by one; a connection without a user leaves the user map as it was; a live connection leaves the group one smaller |
| Handler.NioWebSocketHandler.HandleHttpRequest | netty-websocket/src/main/java/top/shuzz/socketserver/NioWebSocketHandler.java:105-147 | a failed decode or an `Upgrade` header other than exactly `websocket` gets a 400 and no name; a path without a name gets a 400; otherwise the handshake, and the name only when the version is supported; any returned name is non-blank and free of `/` |
| Handler.ClientName | netty-websocket/src/main/java/top/shuzz/socketserver/NioWebSocketHandler.java:113-120 | a name is produced only as the second of exactly two non-blank path segments; it is non-blank and contains no `/` |
| Handler.ClientNameByPieces | netty-websocket/src/main/java/top/shuzz/socketserver/NioWebSocketHandler.java:113-120 | the name is the second of exactly two non-blank pieces of the plain split on `/`: Java's dropping of trailing empty pieces never changes it |
| Handler.ClientNameOfTwoSegments | netty-websocket/src/main/java/top/shuzz/socketserver/NioWebSocketHandler.java:113-120 | `/prefix/name` yields `name` for any non-blank prefix: the prefix is never compared |
| Handler.ClientNameRejectsOneSegment | netty-websocket/src/main/java/top/shuzz/socketserver/NioWebSocketHandler.java:113-120 | a path with one segment yields no name |
| Handler.ClientNameRejectsThreeSegments | netty-websocket/src/main/java/top/shuzz/socketserver/NioWebSocketHandler.java:113-120 | a path with three non-blank segments yields no name |
| Handler.ClientNameIgnoresEmptySegments | netty-websocket/src/main/java/top/shuzz/socketserver/NioWebSocketHandler.java:114-118 | doubling a slash anywhere in the path does not change the name |
| Handler.NioWebSocketHandler.HandleUserRegister | netty-websocket/src/main/java/top/shuzz/socketserver/NioWebSocketHandler.java:180-193 | a new name is simply bound; a name bound to a live channel closes that channel and unbinds all its users before binding the name here; in a consistent registry the name then resolves to this connection only; consistency and one-user-per-channel are kept |
| Handler.NioWebSocketHandler.HandleWebSocketFrame | netty-websocket/src/main/java/top/shuzz/socketserver/NioWebSocketHandler.java:201-263 | a close frame goes to the handshaker; a ping gets a pong with the same payload; other non-text frames do nothing; a text frame produces exactly the effects `TextEffects` prescribes for the sender name the reverse lookup reports |
| Handler.NioWebSocketHandler.SendToTarget | netty-websocket/src/main/java/top/shuzz/socketserver/NioWebSocketHandler.java:239-247 | one listed target: the raw text is written to the channel `TargetChannel` finds for it, and nothing is written when there is none |
| Handler.TargetSendsStep | netty-websocket/src/main/java/top/shuzz/socketserver/NioWebSocketHandler.java:237-247 | serving one more non-null target extends the sends so far by that target's send, towards the sends for the whole list |
| Handler.NioWebSocketHandler.SendToTargets | netty-websocket/src/main/java/top/shuzz/socketserver/NioWebSocketHandler.java:236-249 | the `forEach` over targets appends exactly `TargetSends` of the list |
| Handler.NioWebSocketHandler.Broadcast | netty-websocket/src/main/java/top/shuzz/socketserver/NioWebSocketHandler.java:252 | the appended effects are a broadcast of the text from this connection: one send to each recipient, to no one else |
| Handler.NotJoinedDto | netty-websocket/src/main/java/top/shuzz/socketserver/NioWebSocketHandler.java:230 | the reply envelope has source `Server`, null targets and body `Channel Not Join` |
| Handler.NotJoinedReply | netty-websocket/src/main/java/top/shuzz/socketserver/NioWebSocketHandler.java:229-233 | at most one reply; for a live sender in a valid registry, exactly one reply, to the sender |
| Handler.TargetChannel | netty-websocket/src/main/java/top/shuzz/socketserver/NioWebSocketHandler.java:239-246 | a target is served only if it is not the sender's name, not blank and bound, and then on the live channel its binding maps to; in a consistent registry every such target is served |
| Handler.TargetSendsAreSends | netty-websocket/src/main/java/top/shuzz/socketserver/NioWebSocketHandler.java:244-247 | every effect of a targeted delivery writes the raw frame text to a live channel |
| Handler.UnjoinedJsonGetsOneReply | netty-websocket/src/main/java/top/shuzz/socketserver/NioWebSocketHandler.java:224-233 | a decodable JSON-shaped frame from a connection with no user gets exactly one "Channel Not Join" reply, to itself, and nothing else |
| Handler.PlainTextIsBroadcast | netty-websocket/src/main/java/top/shuzz/socketserver/NioWebSocketHandler.java:256-257 | text that is not JSON-shaped is broadcast, whether or not the sender has joined |
| Handler.MalformedJsonIsDropped | netty-websocket/src/main/java/top/shuzz/socketserver/NioWebSocketHandler.java:224-260 | a JSON-shaped frame the decoder rejects produces nothing, not even the not-joined reply |
| Handler.BroadcastExcludesSender | netty-websocket/src/main/java/top/shuzz/socketserver/ChannelSupervise.java:142-148 | a broadcast never reaches the sender or an unregistered connection, and sends exactly as many frames as there are recipients |
| Handler.DistinctChannelsCount | netty-websocket/src/main/java/top/shuzz/socketserver/ChannelSupervise.java:142-148 | effects on pairwise distinct channels reach as many channels as there are effects |
| Handler.TargetSendsInOrder | netty-websocket/src/main/java/top/shuzz/socketserver/NioWebSocketHandler.java:237-247 | targets are served in list order: the sends for `front + back` are those for `front` followed by those for `back` |
| Handler.NullTargetStopsDelivery | netty-websocket/src/main/java/top/shuzz/socketserver/NioWebSocketHandler.java:236-260 | a null entry in the target list throws; targets before it were served and none after it are |
| Handler.TargetSendsSkipSender | netty-websocket/src/main/java/top/shuzz/socketserver/NioWebSocketHandler.java:239 | with one user per channel, a targeted message never comes back to the sender's connection |
| Handler.TargetedDeliveryExample | netty-websocket/src/main/java/top/shuzz/socketserver/NioWebSocketHandler.java:236-249 | A listing B (bound), C (unbound) and itself delivers the raw text to B's channel only |
| Strings.SplitJoin | netty-websocket/src/main/java/top/shuzz/socketserver/NioWebSocketHandler.java:114 | splitting on a character loses nothing: joining the pieces gives the path back |
| Strings.SplitOnExcludesSep | netty-websocket/src/main/java/top/shuzz/socketserver/NioWebSocketHandler.java:114 | no piece of a split contains the separator |
| Strings.SplitOnConcat | netty-websocket/src/main/java/top/shuzz/socketserver/NioWebSocketHandler.java:114 | a separator splits a text into the pieces of its left side followed by those of its right side |
| Strings.SplitOnWithoutSep | netty-websocket/src/main/java/top/shuzz/socketserver/NioWebSocketHandler.java:114 | a text without the separator is one piece |
| Strings.JavaSplitExcludesSep | netty-websocket/src/main/java/top/shuzz/socketserver/NioWebSocketHandler.java:114 | no piece of Java's split contains the separator |
| Strings.DropTrailingEmpty | netty-websocket/src/main/java/top/shuzz/socketserver/NioWebSocketHandler.java:114 | the result is a prefix of the pieces, does not end in an empty piece, and only empty pieces were dropped |
| Strings.JavaSplitNonBlank | netty-websocket/src/main/java/top/shuzz/socketserver/NioWebSocketHandler.java:114-118 | after the blank filter, Java's split and the plain split agree |
| Strings.NonBlankIgnoresTrailingEmpty | netty-websocket/src/main/java/top/shuzz/socketserver/NioWebSocketHandler.java:114-118 | dropping trailing empty pieces never changes what survives the blank filter |
| Strings.NonBlankKeeps | netty-websocket/src/main/java/top/shuzz/socketserver/NioWebSocketHandler.java:118 | the filter keeps only pieces of its input, and only non-blank ones |
| Strings.NonBlankConcat | netty-websocket/src/main/java/top/shuzz/socketserver/NioWebSocketHandler.java:118 | filtering a concatenation is concatenating the filtered parts |
| Strings.NatDigits | netty-websocket/src/main/java/top/shuzz/socketserver/WebSocketCountStatVo.java:50-54 | the decimal rendering is non-empty, all digits, and has no leading zero |
| Strings.IntToStringHasNoComma | netty-websocket/src/main/java/top/shuzz/socketserver/WebSocketCountStatVo.java:50-54 | the decimal rendering of an integer never contains a comma, so the counts in the statistics text cannot run into the labels |
| Strings.IntToStringRoundTrip | netty-websocket/src/main/java/top/shuzz/socketserver/WebSocketCountStatVo.java:50-54 | the decimal rendering of an `int` parses back to it |
| MsgDto.Empty | netty-websocket/src/main/java/top/shuzz/socketserver/WebSocketMsgDto.java:26 | the no-argument constructor leaves all three fields null |
| MsgDto.Create | netty-websocket/src/main/java/top/shuzz/socketserver/WebSocketMsgDto.java:28-32 | the constructor stores source, targets and body as given, despite its argument order differing from the field order |
| MsgDto.SetTargets | netty-websocket/src/main/java/top/shuzz/socketserver/WebSocketMsgDto.java:34-36 | only the targets change |
| MsgDto.SetSource | netty-websocket/src/main/java/top/shuzz/socketserver/WebSocketMsgDto.java:38-40 | only the source changes |
| MsgDto.SetDataBody | netty-websocket/src/main/java/top/shuzz/socketserver/WebSocketMsgDto.java:42-44 | only the body changes |
| MsgDto.TargetsText | netty-websocket/src/main/java/top/shuzz/socketserver/WebSocketMsgDto.java:61 | a null list renders as `null`; a present list renders as its elements, joined as `JoinElements` prescribes, inside brackets; the empty list as `[]` |
| MsgDto.JoinElementsAppend | netty-websocket/src/main/java/top/shuzz/socketserver/WebSocketMsgDto.java:61 | a single element renders alone (`null` for a null element), and each further element adds `, ` and its own rendering; so the text is determined for every list |
| MsgDto.ToString | netty-websocket/src/main/java/top/shuzz/socketserver/WebSocketMsgDto.java:58-65 | the rendering starts `WebSocketMsgDto{targets=`, continues with the targets, then `, source='…', dataBody=…}`, in field order, with null fields shown as `null` |
| CountStat.Empty | netty-websocket/src/main/java/top/shuzz/socketserver/WebSocketCountStatVo.java:12-16 | the no-argument constructor leaves every count at 0 |
| CountStat.Create | netty-websocket/src/main/java/top/shuzz/socketserver/WebSocketCountStatVo.java:18-22 | the counts are stored in argument order |
| CountStat.SetChannelsCount | netty-websocket/src/main/java/top/shuzz/socketserver/WebSocketCountStatVo.java:28-30 | only the channel count changes |
| CountStat.SetChannelMapCount | netty-websocket/src/main/java/top/shuzz/socketserver/WebSocketCountStatVo.java:36-38 | only the channel map count changes |
| CountStat.SetUsersCount | netty-websocket/src/main/java/top/shuzz/socketserver/WebSocketCountStatVo.java:44-46 | only the user count changes |
| CountStat.ToString | netty-websocket/src/main/java/top/shuzz/socketserver/WebSocketCountStatVo.java:48-55 | the rendering is `WebSocketCountStatVo{channelsCount=`, the first count in decimal, `, channelMapCount=`, the second count, `, userCount=`, the third count and `}`: the third count is labelled `userCount`, not after its field |
| CountStat.ToStringInjective | netty-websocket/src/main/java/top/shuzz/socketserver/WebSocketCountStatVo.java:48-55 | two triples with the same rendering are the same triple: the text can be read back into its three counts |

## Left out

- Logging, Netty's event loops and threads: effects are appended to an in-order log, and the registry is used sequentially. The thread safety of `ConcurrentHashMap` and `DefaultChannelGroup` is not modelled.
- The group's automatic removal of a channel when it closes is not modelled. A channel leaves the group only through `RemoveChannel`, which is how `channelInactive` removes it.
- JSON encoding and decoding (`JSONUtil.toBean`, `toJsonStr`) belong to a foreign library. The decoded envelope is an input of `HandleWebSocketFrame`, and a reply is logged as the envelope rather than its JSON text. `dataBody` is kept as its rendered text.
- The WebSocket opening handshake, the close handshake, pong frame mechanics and `sendHttpResponse` (the status body, keep-alive and the close listener) appear only as effects in the log. Whether the handshaker factory supports the request's version is an input of the request.
- The server's host, port and path prefix are used only to build the handshake URL, so they are not modelled.
- `channelRead0`'s dispatch is not modelled. It passes a returned name to `handleUserRegister` and a frame to `handleWebSocketFrame`; callers of the model do this themselves.
- Supervise.ChannelSupervise.GetTargetChannel: for a non-null id text that the channel map does not hold, the result is taken as absent. In the code, the lookup of that id in the group goes to `DefaultChannelGroup.find`, which is not part of this model. In a `Consistent` registry with a live sender none of the three lookups in the handler meets such a text. The eviction in `HandleUserRegister` looks up a bound user's text, which `Consistent` makes a key. The not-joined reply looks up the live sender's own text. The targeted delivery in `SendToTarget` looks up a bound user's text, as `TargetChannel`'s contract states.
- Handler.NioWebSocketHandler.HandleUserRegister: when the old binding resolves to no channel, closing it would throw. The model then changes nothing.
- Handler.NotJoinedReply: when the sender resolves to no channel, writing the reply would throw. The model then sends nothing.
- Handler.NioWebSocketHandler.HandleWebSocketFrame: a close frame with no handshaker throws out of the handler. The model then writes nothing.
- Strings: texts are sequences of Unicode scalar values, not UTF-16 code units. Every blank character hutool lists lies in the basic plane, so blankness is unaffected; lengths of texts with supplementary characters differ from Java's.
- Getters are the datatypes' field selectors, so they have no members of their own. `ApiService`'s `/api/ws-stat` and `/api/ws-users` only wrap `CurrentConnections` and `CurrentUsers` in JSON, so they are not modelled.
