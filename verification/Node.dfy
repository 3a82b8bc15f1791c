/** A node: its routing table, and what it does with the messages it gets (core/Node.go). */
module Nodes {
  import opened Common
  import opened Flooding
  import opened Forwarding
  import opened Graph
  import opened Messages
  import opened Routers
  import opened RoutingTables

  class Node {
    const id: Id
    var channels: set<string>
    var linkSet: LinkSet
    var routingTable: RoutingTable
    var nodePeers: set<Id>
    var receivedMsgs: set<string>
    var totalSubs: Subs
    var mySubs: map<string, set<string>>
    var messageVersionCounter: nat

    constructor (id: Id)
      ensures this.id == id && channels == {} && linkSet == map[] && routingTable == map[]
      ensures nodePeers == {} && receivedMsgs == {} && totalSubs == map[] && mySubs == map[] && messageVersionCounter == 0
    {
      this.id, channels, linkSet, routingTable := id, {}, map[], map[];
      nodePeers, receivedMsgs, totalSubs, mySubs, messageVersionCounter := {}, {}, map[], map[], 0;
    }

    /** Whatever table there was before, afterwards it is the shortest one for the link set. */
    method BuildRoutingTable()
      requires WellFormed(linkSet) && NoOverflow(linkSet, id) && AllReachable(linkSet, id)
      modifies this`routingTable
      ensures RoutesShortest(linkSet, id, routingTable)
    {
      var dist, prev, reached, tr := ShortestPaths(linkSet, id);
      AllAreReached(linkSet, id, dist, prev, reached, tr);
      var temp := RouteAll(linkSet, id, dist, prev, reached, tr);
      var same := CompareRoutingTables(temp);
      if !same {
        routingTable := temp;
      }
    }

    method CompareRoutingTables(temp: RoutingTable) returns (same: bool)
      ensures same <==> routingTable == temp
    {
      if |routingTable| != |temp| {
        return false;
      }
      var rest := routingTable.Keys;
      while rest != {}
        invariant rest <= routingTable.Keys
        invariant forall t :: t in routingTable && t !in rest ==> t in temp && routingTable[t] == temp[t]
        decreases |rest|
      {
        var target :| target in rest;
        var routes := routingTable[target];
        if target !in temp || |routes| != |temp[target]| {
          return false;
        }
        for i := 0 to |routes|
          invariant routes[..i] == temp[target][..i]
        {
          if routes[i] != temp[target][i] {
            return false;
          }
        }
        assert routes[..|routes|] == routes && temp[target][..|routes|] == temp[target];
        rest := rest - {target};
      }
      SameEntries(routingTable, temp);
      return true;
    }

    // -------------------------------------------------------------------------
    // Messages
    // -------------------------------------------------------------------------

    /**
     * Numbers the message and passes it to the first hop to its target, over the given channel if there is one, or keeps
     * it for a later attempt.
     */
    method SendTo(targetId: Id, message: Message, channelID: Option<string>) returns (action: Action)
      modifies this`messageVersionCounter
      ensures action == SendVia(routingTable, channels,
                                message.(versionSeq := old(messageVersionCounter), dst := targetId), channelID)
      ensures messageVersionCounter == old(messageVersionCounter) + 1
      ensures
        var known := targetId in routingTable && |routingTable[targetId]| > 0;
        var m := message.(versionSeq := old(messageVersionCounter), dst := targetId);
        if !known then action == Retry(m.(lost := true))
        else
          var first := routingTable[targetId][0];
          var channel := match channelID case Some(chosen) => chosen case None => first.localChannelID;
          if channel !in channels then action == Retry(m.(route := first.nextHopNodeID, lost := true))
          else action == Send(channel, first.nextHopNodeID, m.(route := first.nextHopNodeID))
    {
      var msg := message.(versionSeq := messageVersionCounter);
      messageVersionCounter := messageVersionCounter + 1;
      msg := msg.(dst := targetId);
      if targetId !in routingTable || |routingTable[targetId]| == 0 {
        return Retry(msg.(lost := true));
      }
      var localChannelID;
      if channelID.Some? {
        localChannelID := channelID.value;
      } else {
        localChannelID := routingTable[targetId][0].localChannelID;
      }
      var nextHopID := routingTable[targetId][0].nextHopNodeID;
      msg := msg.(route := nextHopID);
      if localChannelID !in channels {
        return Retry(msg.(lost := true));
      }
      return Send(localChannelID, nextHopID, msg);
    }

    /** What a message brings about, and that its key is remembered from then on; a greeting makes its origin known. */
    method OnRecv(message: Message) returns (action: Action)
      modifies this`receivedMsgs, this`nodePeers
      ensures nodePeers == old(nodePeers) + if message.kind == HELLO then {message.from} else {}
      ensures (receivedMsgs, action) == Receive(id, routingTable, channels, old(receivedMsgs), message)
    {
      var msg := message;
      var msgKey := MsgKey(msg);
      if msg.kind == HELLO {
        if msg.from !in nodePeers {
          nodePeers := nodePeers + {msg.from};
        }
        return Greet;
      }
      if msg.kind == HEART_BEAT {
        return Greet;
      }
      if msgKey in receivedMsgs {
        return Ignore;
      }
      receivedMsgs := receivedMsgs + {msgKey};
      if IsFlood(msg.kind) {
        return Spawn;
      }
      if msg.dst == id {
        return Deliver;
      } else if msg.route == id {
        msg := msg.(ttl := Decrement(msg.ttl));
        if msg.ttl <= 0 {
          return Expire;
        }
        if msg.dst !in routingTable || |routingTable[msg.dst]| == 0 {
          return Retry(msg.(lost := true));
        }
        var localChannelID := routingTable[msg.dst][0].localChannelID;
        var nextHopID := routingTable[msg.dst][0].nextHopNodeID;
        msg := msg.(route := nextHopID);
        if localChannelID !in channels {
          return Retry(msg.(lost := true));
        }
        msg := msg.(lastSender := id);
        return Send(localChannelID, nextHopID, msg);
      } else {
        return Ignore;
      }
    }

    /** Records the sender, once, and says what goes out on all channels. */
    method HandleTopicInit(msg: Message) returns (newMsg: Message)
      modifies this`totalSubs
      ensures totalSubs == RecordSub(old(totalSubs), msg.data, msg.from) && newMsg == Rebroadcast(id, msg)
      ensures forall t :: SubsOf(totalSubs, t) ==
                SubsOf(old(totalSubs), t)
                + if t == msg.data && msg.from !in SubsOf(old(totalSubs), t) then [msg.from] else []
      ensures newMsg.lastSender == id && newMsg.ttl == 1 && newMsg == msg.(lastSender := id, ttl := 1)
    {
      var topic, sender := msg.data, msg.from;
      var alreadyKnown := false;
      if topic in totalSubs {
        var subs := totalSubs[topic];
        var i := 0;
        while i < |subs| && !alreadyKnown
          invariant i <= |subs|
          invariant if alreadyKnown then sender in subs else sender !in subs[..i]
          decreases |subs| - i, if alreadyKnown then 0 else 1
        {
          if subs[i] == sender {
            alreadyKnown := true;
          } else {
            i := i + 1;
          }
        }
      }
      if !alreadyKnown {
        totalSubs := totalSubs[topic := SubsOf(totalSubs, topic) + [sender]];
      }
      newMsg := msg;
      newMsg := newMsg.(lastSender := id);
      newMsg := newMsg.(ttl := 1);
    }

    /** Only the first subscriber of a topic is announced. */
    method AddLocalSub(topic: string, clientName: string) returns (flood: Option<Message>)
      modifies this`mySubs, this`messageVersionCounter
      ensures topic in mySubs && clientName in mySubs[topic]
      ensures forall t :: t in mySubs <==> t in old(mySubs) || t == topic
      ensures forall t :: t in mySubs ==>
                mySubs[t] == (if t in old(mySubs) then old(mySubs)[t] else {}) + (if t == topic then {clientName} else {})
      ensures flood.Some? <==> topic !in old(mySubs)
      ensures flood.Some? ==>
                var m := flood.value;
                && m.kind == TOPIC_INIT && m.data == topic && m.from == id && m.lastSender == id && m.ttl == 1
                && m.versionSeq == old(messageVersionCounter) && m.dst == "" && m.route == "" && !m.lost
                && m == TopicInitMessage(id, topic, old(messageVersionCounter))
      ensures messageVersionCounter == old(messageVersionCounter) + if flood.Some? then 1 else 0
    {
      if topic in mySubs {
        mySubs := mySubs[topic := mySubs[topic] + {clientName}];
        return None;
      }
      mySubs := mySubs[topic := {clientName}];
      flood := Some(Message(TOPIC_INIT, topic, id, "", "", 1, false, messageVersionCounter, id));
      messageVersionCounter := messageVersionCounter + 1;
    }
  }
}
