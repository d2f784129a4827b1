/**
 * The per-connection handler (`NioWebSocketHandler`): connect and disconnect
 * bookkeeping, the username taken from the upgrade request's path, duplicate-login
 * eviction, and the routing of inbound frames. Transport actions are appended to
 * a shared `Outbox` log instead of being performed; JSON decoding of a frame is
 * an input (`None` when the decoder throws).
 */
module Handler {
  import opened Wrappers
  import opened Strings
  import opened MsgDto
  import opened Supervise
  import CountStat

  /** What the relay does to the outside world, each on one channel. */
  datatype Effect =
    | Send(ch: ChannelId, text: string)           // a text frame written and flushed
    | Reply(ch: ChannelId, dto: WebSocketMsgDto)  // a text frame holding the JSON rendering of `dto`
    | Close(ch: ChannelId)                        // the channel closed by the server
    | HttpStatus(ch: ChannelId, code: int)        // an HTTP response with that status, then close
    | UnsupportedVersion(ch: ChannelId)           // the handshake factory's unsupported-version response
    | Handshake(ch: ChannelId)                    // the WebSocket opening handshake completed
    | CloseHandshake(ch: ChannelId)               // a close frame handed to the handshaker
    | Pong(ch: ChannelId, payload: seq<bv8>)      // a pong carrying the ping's content

  /** The transport's record of everything written or closed, in order. */
  class Outbox {
    var log: seq<Effect>

    constructor ()
      ensures log == []
    {
      log := [];
    }
  }

  /** The parts of the upgrade request the handler looks at. `versionSupported` says whether
      the handshaker factory knows the request's WebSocket version (it yields no handshaker otherwise). */
  datatype HttpRequest = HttpRequest(decoderSuccess: bool, upgrade: Option<string>, uri: Option<string>, versionSupported: bool)

  datatype Frame = CloseFrame | PingFrame(payload: seq<bv8>) | TextFrame(text: string) | OtherFrame

  const BAD_REQUEST := 400

  /** The client name in an upgrade path: the path split on `/`, blank segments dropped,
      and the second of exactly two survivors. The first segment is never compared. */
  function ClientName(uri: Option<string>): (name: Option<string>)
    ensures name.Some? ==> !IsBlank(name.value) && '/' !in name.value
  {
    match uri
    case None => None
    case Some(u) =>
      var segments := NonBlank(JavaSplit(u, '/'));
      if |segments| == 2 then
        NonBlankKeeps(JavaSplit(u, '/'));
        JavaSplitExcludesSep(u, '/');
        Some(segments[1])
      else None
  }

  /** `ClientName` through `SplitOn`: Java's trailing-empty rule never matters. */
  lemma ClientNameByPieces(u: string, pieces: seq<string>)
    requires SplitOn(u, '/') == pieces
    ensures ClientName(Some(u)) == if |NonBlank(pieces)| == 2 then Some(NonBlank(pieces)[1]) else None
  {
    JavaSplitNonBlank(u, '/');
  }

  /** Any non-blank prefix segment is accepted, and the name is the segment after it. */
  lemma ClientNameOfTwoSegments(prefix: string, name: string)
    requires !IsBlank(prefix) && !IsBlank(name)
    requires '/' !in prefix && '/' !in name
    ensures ClientName(Some("/" + prefix + "/" + name)) == Some(name)
  {
    PathPieces2(prefix, name);
    assert IsBlank("");
    NonBlankCons(name, []);
    NonBlankCons(prefix, [name]);
    NonBlankCons("", [prefix, name]);
    ClientNameByPieces("/" + prefix + "/" + name, ["", prefix, name]);
  }

  /** A path with a single segment yields no name. */
  lemma ClientNameRejectsOneSegment(name: string)
    requires '/' !in name
    ensures ClientName(Some("/" + name)) == None
  {
    PathPieces1(name);
    assert IsBlank("");
    NonBlankCons(name, []);
    NonBlankCons("", [name]);
    ClientNameByPieces("/" + name, ["", name]);
  }

  /** A path with three non-blank segments yields no name. */
  lemma ClientNameRejectsThreeSegments(a: string, b: string, c: string)
    requires !IsBlank(a) && !IsBlank(b) && !IsBlank(c)
    requires '/' !in a && '/' !in b && '/' !in c
    ensures ClientName(Some("/" + a + "/" + b + "/" + c)) == None
  {
    PathPieces3(a, b, c);
    assert IsBlank("");
    NonBlankCons(c, []);
    NonBlankCons(b, [c]);
    NonBlankCons(a, [b, c]);
    NonBlankCons("", [a, b, c]);
    ClientNameByPieces("/" + a + "/" + b + "/" + c, ["", a, b, c]);
  }

  /** Empty segments never matter: doubling a slash does not change the name. */
  lemma ClientNameIgnoresEmptySegments(a: string, b: string)
    ensures ClientName(Some(a + "/" + b)) == ClientName(Some(a + "//" + b))
  {
    var pa, pb := SplitOn(a, '/'), SplitOn(b, '/');
    SingleSlashPieces(a, b);
    DoubleSlashPieces(a, b);
    NonBlankSkipsEmpty(pa, pb);
    ClientNameByPieces(a + "/" + b, pa + pb);
    ClientNameByPieces(a + "//" + b, pa + ([""] + pb));
  }

  /** `startsWith("{") && endsWith("}")` */
  predicate IsJsonShaped(text: string) {
    |text| > 0 && text[0] == '{' && text[|text| - 1] == '}'
  }

  /** `StrUtil.isEmptyIfStr` on a string reference: null or empty. */
  predicate IsEmptyIfStr(s: Option<string>) {
    s.None? || s.value == ""
  }

  /** The envelope sent back to a sender that has not joined. */
  function NotJoinedDto(): (d: WebSocketMsgDto)
    ensures d.source == Some("Server") && d.targets.None? && d.dataBody == Some("Channel Not Join")
  {
    Create(Some("Server"), None, Some("Channel Not Join"))
  }

  /** The reply to an unjoined sender: written to the channel the registry resolves for the
      sender's own id; when it resolves to nothing the write throws and nothing is sent. */
  function NotJoinedReply(reg: ChannelSupervise, sender: ChannelId): (effs: seq<Effect>)
    reads reg
    ensures |effs| <= 1
    ensures reg.Valid() && sender in reg.socketGroup ==> effs == [Reply(sender, NotJoinedDto())]
  {
    match reg.GetTargetChannel(Some(sender.longText))
    case Some(c) => [Reply(c, NotJoinedDto())]
    case None => []
  }

  /** The channel one listed target receives the message on: a target equal to the sender's
      name or blank is skipped, and one that resolves to no channel is dropped. */
  function TargetChannel(reg: ChannelSupervise, source: string, target: string): (r: Option<ChannelId>)
    reads reg
    ensures r.Some? ==> target != source && !IsBlank(target) && target in reg.userMap && r.value in reg.socketGroup
    ensures r.Some? ==> reg.userMap[target] in reg.channelMap && reg.channelMap[reg.userMap[target]] == r.value
    ensures reg.Consistent() && target != source && !IsBlank(target) && target in reg.userMap ==> r.Some?
  {
    if target == source || IsBlank(target) then None
    else reg.GetTargetChannel(reg.GetUserChannelId(target))
  }

  /** The send, if any, one listed target receives. */
  function TargetSend(reg: ChannelSupervise, source: string, text: string, target: string): (effs: seq<Effect>)
    reads reg
    ensures |effs| <= 1
    ensures forall i :: 0 <= i < |effs| ==> effs[i] == Send(effs[i].ch, text) && effs[i].ch in reg.socketGroup
  {
    match TargetChannel(reg, source, target)
    case Some(c) => [Send(c, text)]
    case None => []
  }

  /** The sends of a targeted message, in target order; a null entry throws, which ends the
      delivery there. */
  function TargetSends(reg: ChannelSupervise, source: string, text: string, targets: seq<Option<string>>): (effs: seq<Effect>)
    reads reg
    ensures |effs| <= |targets|
  {
    if targets == [] then []
    else match targets[0]
      case None => []
      case Some(t) => TargetSend(reg, source, text, t) + TargetSends(reg, source, text, targets[1..])
  }

  /** Every effect of a targeted delivery is a write of the message text to a live channel. */
  lemma {:induction false} TargetSendsAreSends(reg: ChannelSupervise, source: string, text: string, targets: seq<Option<string>>)
    ensures forall i :: 0 <= i < |TargetSends(reg, source, text, targets)| ==>
      TargetSends(reg, source, text, targets)[i] == Send(TargetSends(reg, source, text, targets)[i].ch, text)
      && TargetSends(reg, source, text, targets)[i].ch in reg.socketGroup
  {
    if targets != [] && targets[0].Some? {
      TargetSendsAreSends(reg, source, text, targets[1..]);
    }
  }

  /** `TargetSends` from position `i` on: a null entry ends the delivery, any other entry
      contributes its own send before the rest. */
  lemma TargetSendsAt(reg: ChannelSupervise, source: string, text: string, targets: seq<Option<string>>, i: nat)
    requires i < |targets|
    ensures targets[i].None? ==> TargetSends(reg, source, text, targets[i..]) == []
    ensures targets[i].Some? ==> TargetSends(reg, source, text, targets[i..])
                                 == TargetSend(reg, source, text, targets[i].value) + TargetSends(reg, source, text, targets[i + 1..])
  {
    assert targets[i..][0] == targets[i];
    assert targets[i..][1..] == targets[i + 1..];
  }

  /** Delivering to one more listed target extends what was delivered so far by that target's send. */
  lemma TargetSendsStep(reg: ChannelSupervise, source: string, text: string, targets: seq<Option<string>>,
                        i: nat, done: seq<Effect>)
    requires i < |targets| && targets[i].Some?
    requires done + TargetSends(reg, source, text, targets[i..]) == TargetSends(reg, source, text, targets)
    ensures (done + TargetSend(reg, source, text, targets[i].value)) + TargetSends(reg, source, text, targets[i + 1..])
            == TargetSends(reg, source, text, targets)
  {
    TargetSendsAt(reg, source, text, targets, i);
    var step := TargetSend(reg, source, text, targets[i].value);
    var tail := TargetSends(reg, source, text, targets[i + 1..]);
    assert done + (step + tail) == (done + step) + tail;
  }

  /** One send of `text` per channel, in order. */
  function SendAll(chs: seq<ChannelId>, text: string): (effs: seq<Effect>)
    ensures |effs| == |chs|
    ensures forall i :: 0 <= i < |chs| ==> effs[i] == Send(chs[i], text)
  {
    seq(|chs|, i requires 0 <= i < |chs| => Send(chs[i], text))
  }

  /** `effs` is a broadcast of `text` from `sender`: one send to each broadcast recipient, none elsewhere. */
  ghost predicate IsBroadcast(reg: ChannelSupervise, sender: ChannelId, text: string, effs: seq<Effect>)
    reads reg
  {
    && (forall i :: 0 <= i < |effs| ==> effs[i] == Send(effs[i].ch, text))
    && (forall i, j :: 0 <= i < j < |effs| ==> effs[i].ch != effs[j].ch)
    && (forall c :: c in reg.BroadcastRecipients(sender) <==> exists i :: 0 <= i < |effs| && effs[i].ch == c)
  }

  /** The effects of a text frame from `sender`, whose registered name the reverse lookup
      reported as `source`; `decoded` is the JSON decoder's result (`None`: it threw). */
  ghost predicate TextEffects(reg: ChannelSupervise, sender: ChannelId, text: string,
                              decoded: Option<WebSocketMsgDto>, source: Option<string>, effs: seq<Effect>)
    reads reg
  {
    if IsJsonShaped(text) then
      match decoded
      case None => effs == []
      case Some(dto) =>
        if IsEmptyIfStr(source) then effs == NotJoinedReply(reg, sender)
        else if dto.targets.Some? && |dto.targets.value| > 0 then effs == TargetSends(reg, source.value, text, dto.targets.value)
        else IsBroadcast(reg, sender, text, effs)
    else IsBroadcast(reg, sender, text, effs)
  }

  class NioWebSocketHandler {
    /** The channel this handler serves (one handler per connection). */
    const channel: ChannelId
    const supervise: ChannelSupervise
    const outbox: Outbox
    /** Whether `handShaker` holds a handshaker (it is null until a handshake is set up). */
    var hasHandShaker: bool

    constructor (channel: ChannelId, supervise: ChannelSupervise, outbox: Outbox)
      ensures this.channel == channel && this.supervise == supervise && this.outbox == outbox
      ensures !hasHandShaker
    {
      this.channel := channel;
      this.supervise := supervise;
      this.outbox := outbox;
      hasHandShaker := false;
    }

    /** `channelActive`: the new connection joins the registry's group and channel map. */
    method ChannelActive()
      requires supervise.Valid()
      modifies supervise
      ensures supervise.Valid()
      ensures supervise.socketGroup == old(supervise.socketGroup) + {channel}
      ensures supervise.channelMap == old(supervise.channelMap)[channel.longText := channel]
      ensures supervise.userMap == old(supervise.userMap)
      ensures old(supervise.Consistent()) ==> supervise.Consistent()
    {
      supervise.AddChannel(channel);
    }

    /** `channelInactive`: every user bound to the connection is removed, then the connection itself. */
    method ChannelInactive()
      requires supervise.Valid()
      modifies supervise
      ensures supervise.Valid()
      ensures supervise.userMap == Unbind(old(supervise.userMap), channel.longText)
      ensures supervise.socketGroup == old(supervise.socketGroup) - {channel}
      ensures supervise.channelMap == old(supervise.channelMap) - {channel.longText}
      ensures channel.longText !in supervise.userMap.Values
      ensures forall u :: u in old(supervise.userMap) && old(supervise.userMap)[u] == channel.longText ==> supervise.GetUserChannelId(u) == None
      ensures old(supervise.Consistent()) ==> supervise.Consistent()
      ensures old(supervise.OneUserPerChannel()) ==> supervise.OneUserPerChannel()
      ensures channel.longText !in old(supervise.userMap).Values ==> supervise.userMap == old(supervise.userMap)
      ensures old(supervise.OneUserPerChannel()) && channel.longText in old(supervise.userMap).Values ==>
        && (exists u :: u in old(supervise.userMap) && old(supervise.userMap)[u] == channel.longText
                        && supervise.userMap.Keys == old(supervise.userMap).Keys - {u})
        && |supervise.userMap| == |old(supervise.userMap)| - 1
        && supervise.CurrentConnections().usersCount == CountStat.SaturatedSize(|old(supervise.userMap)| - 1)
      ensures channel in old(supervise.socketGroup) ==> |supervise.socketGroup| == |old(supervise.socketGroup)| - 1
    {
      ghost var users := supervise.userMap;
      if channel.longText !in users.Values {
        UnbindUnbound(users, channel.longText);
      } else if supervise.OneUserPerChannel() {
        ghost var u :| u in users && users[u] == channel.longText;
        UnbindSingleUser(users, channel.longText, u);
      }
      supervise.RemoveUserByChannelId(channel.longText);
      supervise.RemoveChannel(channel);
    }

    /** The rejection and name-extraction parts of `handleHttpRequest`: a 400 for a request that
        failed to decode, is not a WebSocket upgrade, or has no client name in its path; otherwise
        the handshake, which yields the name when the handshaker factory supports the version. */
    method HandleHttpRequest(request: HttpRequest) returns (clientName: Option<string>)
      modifies this, outbox
      ensures !request.decoderSuccess || request.upgrade != Some("websocket") ==>
        && clientName.None? && hasHandShaker == old(hasHandShaker)
        && outbox.log == old(outbox.log) + [HttpStatus(channel, BAD_REQUEST)]
      ensures request.decoderSuccess && request.upgrade == Some("websocket") && ClientName(request.uri).None? ==>
        && clientName.None? && hasHandShaker == old(hasHandShaker)
        && outbox.log == old(outbox.log) + [HttpStatus(channel, BAD_REQUEST)]
      ensures request.decoderSuccess && request.upgrade == Some("websocket") && ClientName(request.uri).Some? ==>
        && hasHandShaker == request.versionSupported
        && (request.versionSupported ==> clientName == ClientName(request.uri) && outbox.log == old(outbox.log) + [Handshake(channel)])
        && (!request.versionSupported ==> clientName.None? && outbox.log == old(outbox.log) + [UnsupportedVersion(channel)])
      ensures clientName.Some? ==> !IsBlank(clientName.value) && '/' !in clientName.value
    {
      if !request.decoderSuccess || request.upgrade != Some("websocket") {
        outbox.log := outbox.log + [HttpStatus(channel, BAD_REQUEST)];
        return None;
      }
      var name := ClientName(request.uri);
      if name.None? {
        outbox.log := outbox.log + [HttpStatus(channel, BAD_REQUEST)];
        return None;
      }
      hasHandShaker := request.versionSupported;
      if !hasHandShaker {
        outbox.log := outbox.log + [UnsupportedVersion(channel)];
        return None;
      }
      outbox.log := outbox.log + [Handshake(channel)];
      return name;
    }

    /** `handleUserRegister`: a name already bound to a channel closes that channel and unbinds
        every user of it before the name is bound to this connection. */
    method HandleUserRegister(clientName: string)
      modifies supervise, outbox
      ensures supervise.socketGroup == old(supervise.socketGroup) && supervise.channelMap == old(supervise.channelMap)
      ensures var prev := old(supervise.GetUserChannelId(clientName));
        prev.None? ==>
          && supervise.userMap == old(supervise.userMap)[clientName := channel.longText]
          && outbox.log == old(outbox.log)
      ensures var prev := old(supervise.GetUserChannelId(clientName));
        prev.Some? && old(supervise.GetTargetChannel(prev)).Some? ==>
          && outbox.log == old(outbox.log) + [Close(old(supervise.GetTargetChannel(prev)).value)]
          && supervise.userMap == Unbind(old(supervise.userMap), prev.value)[clientName := channel.longText]
          && (prev.value != channel.longText ==> prev.value !in supervise.userMap.Values)
      ensures var prev := old(supervise.GetUserChannelId(clientName));
        // closing the old channel dereferences null: the registration is abandoned
        prev.Some? && old(supervise.GetTargetChannel(prev)).None? ==>
          supervise.userMap == old(supervise.userMap) && outbox.log == old(outbox.log)
      ensures old(supervise.Consistent()) ==> supervise.GetUserChannelId(clientName) == Some(channel.longText)
      ensures old(supervise.Consistent()) && channel in old(supervise.socketGroup) ==> supervise.Consistent()
      ensures old(supervise.OneUserPerChannel()) && channel.longText !in old(supervise.userMap).Values ==> supervise.OneUserPerChannel()
    {
      var chId := supervise.GetUserChannelId(clientName);
      if chId.Some? {
        var previous := supervise.GetTargetChannel(chId);
        if previous.None? {
          return;
        }
        outbox.log := outbox.log + [Close(previous.value)];
        supervise.RemoveUserByChannelId(chId.value);
      }
      supervise.AddUser(clientName, channel.longText);
    }

    /** One listed target of a targeted delivery: the lookup of its channel and the write, if any. */
    method SendToTarget(source: string, text: string, t: string)
      modifies outbox
      ensures outbox.log == old(outbox.log) + TargetSend(supervise, source, text, t)
    {
      var ch: Option<ChannelId> := None;
      if t != source && !IsBlank(t) {
        var targetChannelId := supervise.GetUserChannelId(t);
        ch := supervise.GetTargetChannel(targetChannelId);
      }
      assert ch == TargetChannel(supervise, source, t);
      if ch.Some? {
        outbox.log := outbox.log + [Send(ch.value, text)];
      }
    }

    /** The targeted delivery loop (`targets.stream()...forEach`). */
    method SendToTargets(source: string, text: string, targets: seq<Option<string>>)
      modifies outbox
      ensures outbox.log == old(outbox.log) + TargetSends(supervise, source, text, targets)
    {
      var i := 0;
      ghost var done: seq<Effect> := [];
      while i < |targets|
        invariant 0 <= i <= |targets|
        invariant outbox.log == old(outbox.log) + done
        invariant done + TargetSends(supervise, source, text, targets[i..]) == TargetSends(supervise, source, text, targets)
      {
        match targets[i]
        case None =>
          TargetSendsAt(supervise, source, text, targets, i);
          return;
        case Some(t) =>
          TargetSendsStep(supervise, source, text, targets, i, done);
          SendToTarget(source, text, t);
          done := done + TargetSend(supervise, source, text, t);
          i := i + 1;
      }
    }

    /** `broadcastMsg` from this connection, its writes appended to the log. */
    method Broadcast(text: string)
      modifies outbox
      ensures old(outbox.log) <= outbox.log
      ensures IsBroadcast(supervise, channel, text, outbox.log[|old(outbox.log)|..])
    {
      var sent := supervise.BroadcastMsg(channel);
      var effs := SendAll(sent, text);
      outbox.log := outbox.log + effs;
      assert outbox.log[|old(outbox.log)|..] == effs;
      forall c | c in supervise.BroadcastRecipients(channel)
        ensures exists i :: 0 <= i < |effs| && effs[i].ch == c
      {
        var i :| 0 <= i < |sent| && sent[i] == c;
        assert effs[i].ch == c;
      }
    }

    /** `handleWebSocketFrame`. For a text frame the ghost result is the sender's name as the
        registry's reverse lookup reported it. */
    method HandleWebSocketFrame(frame: Frame, decoded: Option<WebSocketMsgDto>) returns (ghost source: Option<string>)
      modifies outbox
      ensures frame.CloseFrame? ==>
        outbox.log == old(outbox.log) + (if hasHandShaker then [CloseHandshake(channel)] else [])
      ensures frame.PingFrame? ==> outbox.log == old(outbox.log) + [Pong(channel, frame.payload)]
      ensures frame.OtherFrame? ==> outbox.log == old(outbox.log)
      ensures frame.TextFrame? ==>
        && supervise.ClientNameOf(Some(channel.longText), source)
        && old(outbox.log) <= outbox.log
        && TextEffects(supervise, channel, frame.text, decoded, source, outbox.log[|old(outbox.log)|..])
    {
      source := None;
      match frame
      case CloseFrame =>
        // with no handshaker the call throws out of the handler and nothing is written
        if hasHandShaker {
          outbox.log := outbox.log + [CloseHandshake(channel)];
        }
      case PingFrame(payload) =>
        outbox.log := outbox.log + [Pong(channel, payload)];
      case OtherFrame =>
      case TextFrame(text) =>
        var name := supervise.GetChannelClientName(Some(channel.longText));
        source := name;
        if IsJsonShaped(text) {
          if decoded.None? {
            // the decoder threw; the exception is caught and the frame dropped
            return;
          }
          var dto := decoded.value;
          if IsEmptyIfStr(name) {
            var own := supervise.GetTargetChannel(Some(channel.longText));
            if own.Some? {
              outbox.log := outbox.log + [Reply(own.value, NotJoinedDto())];
            }
            return;
          }
          if dto.targets.Some? && |dto.targets.value| > 0 {
            SendToTargets(name.value, text, dto.targets.value);
            return;
          }
          Broadcast(text);
          return;
        }
        Broadcast(text);
    }
  }

  // ---------------------------------------------------------------------------
  // Routing properties

  /** A JSON-shaped frame that decodes, from a connection with no registered user, gets exactly
      one reply, to that connection, saying it has not joined; nothing else is sent. */
  lemma UnjoinedJsonGetsOneReply(reg: ChannelSupervise, sender: ChannelId, text: string,
                                 dto: WebSocketMsgDto, source: Option<string>, effs: seq<Effect>)
    requires reg.Valid() && sender in reg.socketGroup
    requires reg.ClientNameOf(Some(sender.longText), source) && sender.longText !in reg.userMap.Values
    requires IsJsonShaped(text)
    requires TextEffects(reg, sender, text, Some(dto), source, effs)
    ensures effs == [Reply(sender, NotJoinedDto())]
  {
  }

  /** Plain text is broadcast whether or not the sender has joined. */
  lemma PlainTextIsBroadcast(reg: ChannelSupervise, sender: ChannelId, text: string,
                             decoded: Option<WebSocketMsgDto>, source: Option<string>, effs: seq<Effect>)
    requires !IsJsonShaped(text)
    requires TextEffects(reg, sender, text, decoded, source, effs)
    ensures IsBroadcast(reg, sender, text, effs)
  {
  }

  /** A JSON-shaped frame the decoder rejects produces nothing, not even a reply to an unjoined sender. */
  lemma MalformedJsonIsDropped(reg: ChannelSupervise, sender: ChannelId, text: string,
                               source: Option<string>, effs: seq<Effect>)
    requires IsJsonShaped(text)
    requires TextEffects(reg, sender, text, None, source, effs)
    ensures effs == []
  {
  }

  lemma {:induction false} DistinctChannelsCount(effs: seq<Effect>)
    requires forall i, j :: 0 <= i < j < |effs| ==> effs[i].ch != effs[j].ch
    ensures |set i | 0 <= i < |effs| :: effs[i].ch| == |effs|
  {
    if effs != [] {
      var init := effs[..|effs| - 1];
      DistinctChannelsCount(init);
      var chs := set i | 0 <= i < |effs| :: effs[i].ch;
      var initChs := set i | 0 <= i < |init| :: init[i].ch;
      assert chs == initChs + {effs[|effs| - 1].ch};
      assert effs[|effs| - 1].ch !in initChs;
    }
  }

  /** A broadcast never reaches the sender or an unregistered connection, and reaches every
      other registered connection exactly once: as many sends as recipients. */
  lemma BroadcastExcludesSender(reg: ChannelSupervise, sender: ChannelId, text: string, effs: seq<Effect>)
    requires IsBroadcast(reg, sender, text, effs)
    ensures forall i :: 0 <= i < |effs| ==>
      effs[i] == Send(effs[i].ch, text) && effs[i].ch != sender
      && effs[i].ch in reg.socketGroup && effs[i].ch.longText in reg.userMap.Values
    ensures |effs| == |reg.BroadcastRecipients(sender)|
  {
    forall i | 0 <= i < |effs|
      ensures effs[i].ch in reg.BroadcastRecipients(sender)
    {
    }
    DistinctChannelsCount(effs);
    assert reg.BroadcastRecipients(sender) == set i | 0 <= i < |effs| :: effs[i].ch;
  }

  /** Targets are served in list order: the sends for a list are those for its first part
      followed by those for the rest, as long as the first part holds no null entry. */
  lemma {:induction false} TargetSendsInOrder(reg: ChannelSupervise, source: string, text: string,
                                              front: seq<Option<string>>, back: seq<Option<string>>)
    requires forall k :: 0 <= k < |front| ==> front[k].Some?
    ensures TargetSends(reg, source, text, front + back)
         == TargetSends(reg, source, text, front) + TargetSends(reg, source, text, back)
  {
    if front != [] {
      assert (front + back)[1..] == front[1..] + back;
      TargetSendsInOrder(reg, source, text, front[1..], back);
    } else {
      assert front + back == back;
    }
  }

  /** A null entry stops delivery: targets after it receive nothing. */
  lemma {:induction false} NullTargetStopsDelivery(reg: ChannelSupervise, source: string, text: string,
                                                   front: seq<Option<string>>, back: seq<Option<string>>)
    requires forall k :: 0 <= k < |front| ==> front[k].Some?
    ensures TargetSends(reg, source, text, front + [None] + back) == TargetSends(reg, source, text, front)
  {
    TargetSendsInOrder(reg, source, text, front, [None] + back);
    assert front + [None] + back == front + ([None] + back);
  }

  /** With at most one user per channel, a targeted message never comes back to its sender,
      even when the sender lists its own name or another name bound to its connection. */
  lemma {:induction false} TargetSendsSkipSender(reg: ChannelSupervise, sender: ChannelId, source: string, text: string,
                                                 targets: seq<Option<string>>)
    requires reg.Valid() && reg.OneUserPerChannel()
    requires reg.ClientNameOf(Some(sender.longText), Some(source))
    ensures forall i :: 0 <= i < |TargetSends(reg, source, text, targets)| ==>
      TargetSends(reg, source, text, targets)[i].ch != sender
  {
    if targets != [] && targets[0].Some? {
      TargetSendsSkipSender(reg, sender, source, text, targets[1..]);
      var t := targets[0].value;
      var r := TargetChannel(reg, source, t);
      if r.Some? {
        assert reg.userMap[t] != reg.userMap[source];
        assert r.value.longText == reg.userMap[t];
      }
    }
  }

  /** Sender A lists B (registered), C (not registered) and itself: only B's connection
      receives the raw text. */
  lemma TargetedDeliveryExample(reg: ChannelSupervise, a: string, b: string, c: string, text: string)
    requires reg.Consistent()
    requires a != b && !IsBlank(b)
    requires b in reg.userMap && c !in reg.userMap
    ensures TargetSends(reg, a, text, [Some(b), Some(c), Some(a)]) == [Send(reg.channelMap[reg.userMap[b]], text)]
  {
    var ts := [Some(b), Some(c), Some(a)];
    var chB := reg.channelMap[reg.userMap[b]];
    assert TargetChannel(reg, a, b) == Some(chB);
    assert TargetChannel(reg, a, c) == None;
    assert TargetChannel(reg, a, a) == None;
    assert [Some(a)][1..] == [];
    assert TargetSends(reg, a, text, [Some(a)]) == [];
    assert [Some(c), Some(a)][1..] == [Some(a)];
    assert TargetSends(reg, a, text, [Some(c), Some(a)]) == [];
    assert ts[1..] == [Some(c), Some(a)];
  }
}
