/** The relay process: one mutable broadcaster slot, the socket server's client
    set with the fields the handlers write on each socket, and the handlers
    themselves, which update that state in place and send as they go. Each
    handler is proved to do what the functions of module Routing describe, and
    to keep the registry invariant.
 */
module Server {
  import opened Envelopes
  import opened Registry
  import opened Routing

  class Relay {
    /** The module-level `broadcaster` variable. */
    var broadcaster: Option<ClientId>
    /** The socket server's client set, in its iteration order. */
    var clients: seq<ClientId>
    /** `role`, `id` and `readyState === OPEN` of every socket in the set. */
    var conns: map<ClientId, Conn>

    function Snapshot(): State
      reads this
    {
      State(broadcaster, clients, conns)
    }

    ghost predicate Valid()
      reads this
    {
      Registry.Valid(Snapshot())
    }

    /** The process starts with no broadcaster and no sockets. */
    constructor ()
      ensures Valid()
      ensures broadcaster == None && clients == [] && conns == map[]
    {
      broadcaster := None;
      clients := [];
      conns := map[];
    }

    /** The socket server accepts a connection. */
    method Connect(c: ClientId)
      requires Valid() && c !in conns
      modifies this
      ensures Valid()
      ensures Snapshot() == HandleConnection(old(Snapshot()), c)
    {
      HandleConnectionKeepsValid(Snapshot(), c);
      clients := clients + [c];
      conns := conns[c := Conn(NoRole, None, true)];
    }

    /** A socket's ready state changes outside the handlers. */
    method SetOpen(c: ClientId, open: bool)
      requires Valid() && c in conns
      modifies this
      ensures Valid()
      ensures Snapshot() == SetReadyState(old(Snapshot()), c, open)
    {
      SetReadyStateKeepsValid(Snapshot(), c, open);
      conns := conns[c := conns[c].(open := open)];
    }

    /** The `some` scan of the id generator: does a viewer socket hold `id`? */
    method IdInUse(id: int) returns (taken: bool)
      requires forall c :: c in conns <==> c in clients
      ensures taken <==> id in ViewerIds(conns)
    {
      taken := false;
      var i := 0;
      while i < |clients| && !taken
        invariant 0 <= i <= |clients|
        invariant taken ==> id in ViewerIds(conns)
        invariant !taken ==> forall j :: 0 <= j < i ==> !(IsViewer(conns[clients[j]]) && conns[clients[j]].id == Some(id))
      {
        var c := clients[i];
        taken := IsViewer(conns[c]) && conns[c].id == Some(id);
        i := i + 1;
      }
      if !taken {
        forall c | c in conns && IsViewer(conns[c]) && conns[c].id.Some? ensures conns[c].id.value != id {
          var j :| 0 <= j < |clients| && clients[j] == c;
        }
      }
    }

    /** `generateUniqueId`: draw ids from 1000..9999 until one is held by no
        viewer. Each draw is any id not drawn before in this call. */
    method GenerateUniqueId() returns (id: int)
      requires forall c :: c in conns <==> c in clients
      requires |ViewerIds(conns)| < MaxViewerId - MinViewerId + 1
      ensures FreshViewerId(conns, id)
    {
      var tried: set<int> := {};
      var taken := true;
      id := MinViewerId;
      while taken
        invariant forall t :: t in tried ==> InIdRange(t)
        invariant taken ==> tried <= ViewerIds(conns)
        invariant !taken ==> FreshViewerId(conns, id)
        decreases IdSpan(MinViewerId, MaxViewerId + 1) - tried
      {
        SubsetSize(tried, ViewerIds(conns));
        FreeIdExists(tried);
        id :| MinViewerId <= id <= MaxViewerId && id !in tried;
        tried := tried + {id};
        taken := IdInUse(id);
      }
    }

    /** A `forEach` over the client set sending `msg` to every selected socket. */
    method Deliver(sel: Selector, msg: Envelope) returns (out: seq<Send>)
      requires forall c :: c in clients ==> c in conns
      ensures out == FanOut(clients, conns, sel, msg)
    {
      out := [];
      for i := 0 to |clients|
        invariant out == FanOut(clients[..i], conns, sel, msg)
      {
        var c := clients[i];
        assert clients[..i + 1][..i] == clients[..i] && clients[..i + 1][i] == c;
        if Selects(sel, conns[c]) {
          out := out + [Send(c, msg)];
        }
      }
      assert clients[..|clients|] == clients;
    }

    /** Send `msg` to the broadcaster if the slot is set and its socket is open. */
    method NotifyBroadcaster(msg: Envelope) returns (out: seq<Send>)
      requires broadcaster.Some? ==> broadcaster.value in conns
      ensures out == ToBroadcaster(Snapshot(), msg)
    {
      out := [];
      if broadcaster.Some? && conns[broadcaster.value].open {
        out := [Send(broadcaster.value, msg)];
      }
    }

    /** The `message` handler. `drawn` is the id the generator returned for a 'watcher'. */
    method OnMessage(sender: ClientId, env: Envelope) returns (sends: seq<Send>, ghost drawn: int)
      requires Valid() && sender in conns
      requires env.Watcher? ==> CanDrawId(Snapshot(), sender)
      modifies this
      ensures Valid()
      ensures env.Watcher? ==> FreshViewerId(PromoteToViewer(old(conns), sender), drawn)
      ensures (Snapshot(), sends) == HandleMessage(old(Snapshot()), sender, env, drawn)
    {
      ghost var before := Snapshot();
      sends := [];
      drawn := 0;
      match env {
        case Broadcaster =>
          conns := conns[sender := conns[sender].(role := BroadcasterRole)];
          broadcaster := Some(sender);
        case Watcher(_) =>
          conns := conns[sender := conns[sender].(role := ViewerRole)];
          var id := GenerateUniqueId();
          conns := conns[sender := conns[sender].(id := Some(id))];
          drawn := id;
          sends := NotifyBroadcaster(Watcher(Some(id)));
        case Offer(id, sdp) =>
          sends := Deliver(ViewerWithId(id), Offer(id, sdp));
        case Answer(id, sdp) =>
          sends := NotifyBroadcaster(Answer(id, sdp));
        case IceCandidate(id, candidate) =>
          if conns[sender].role == BroadcasterRole {
            sends := Deliver(ViewerWithId(id), IceCandidate(id, candidate));
          } else if conns[sender].role == ViewerRole {
            sends := NotifyBroadcaster(IceCandidate(conns[sender].id, candidate));
          }
        case Start =>
          sends := Deliver(AnyViewer, Start);
        case Close =>
        case Disconnect(_) =>
        case Unknown(_) =>
      }
      HandleMessageKeepsValid(before, sender, env, drawn);
    }

    /** The `close` handler, run after the socket server has dropped `sender` from its set. */
    method OnClose(sender: ClientId) returns (sends: seq<Send>)
      requires Valid() && sender in conns
      modifies this
      ensures Valid()
      ensures (Snapshot(), sends) == HandleClose(old(Snapshot()), sender)
    {
      HandleCloseKeepsValid(Snapshot(), sender);
      var gone := conns[sender];
      clients := RemoveFrom(clients, sender);
      conns := conns - {sender};
      if broadcaster == Some(sender) {
        broadcaster := None;
        sends := Deliver(AnyViewer, Close);
      } else if gone.role == ViewerRole {
        sends := NotifyBroadcaster(Disconnect(gone.id));
      } else {
        sends := [];
      }
    }
  }
}
