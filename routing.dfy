/** What the relay does with each event, as functions of the state before it:
    the `message` handler's switch on the envelope type, the `close` handler's
    teardown, and the socket server adding a connection or changing its ready
    state. The lemmas state the routing rules the handlers promise.
 */
module Routing {
  import opened Envelopes
  import opened Registry

  /** The client fields right after `ws.role = 'viewer'` and before an id is drawn. */
  function PromoteToViewer(conns: map<ClientId, Conn>, sender: ClientId): (r: map<ClientId, Conn>)
    requires sender in conns
    ensures r.Keys == conns.Keys
    ensures IsViewer(r[sender]) && r[sender].id == conns[sender].id && r[sender].open == conns[sender].open
    ensures forall c :: c in conns && c != sender ==> r[c] == conns[c]
  {
    conns[sender := conns[sender].(role := ViewerRole)]
  }

  /** An id the id generator may return: in range, and held by no viewer. */
  predicate FreshViewerId(conns: map<ClientId, Conn>, id: int) {
    InIdRange(id) && id !in ViewerIds(conns)
  }

  /** The id generator can stop: fewer than 9000 ids are held once the sender counts as a viewer. */
  predicate CanDrawId(s: State, sender: ClientId)
    requires sender in s.conns
  {
    |ViewerIds(PromoteToViewer(s.conns, sender))| < MaxViewerId - MinViewerId + 1
  }

  /** The `message` handler: the next state and the sends, in order. `newId` is the
      id the generator drew; only a 'watcher' envelope uses it. */
  function HandleMessage(s: State, sender: ClientId, env: Envelope, newId: int): (r: (State, seq<Send>))
    requires sender in s.conns
    // no frame adds or removes a socket, or touches another socket's fields
    ensures r.0.clients == s.clients && r.0.conns.Keys == s.conns.Keys
    ensures forall c :: c in s.conns && c != sender ==> r.0.conns[c] == s.conns[c]
    ensures r.0.conns[sender].open == s.conns[sender].open
    // only a 'broadcaster' frame moves the slot, and it moves it to the sender
    ensures r.0.broadcaster != s.broadcaster ==> env.Broadcaster? && r.0.broadcaster == Some(sender)
    // every send goes to a connected socket
    ensures forall k :: 0 <= k < |r.1| ==> r.1[k].to in s.conns
  {
    match env
    case Broadcaster =>
      (s.(broadcaster := Some(sender), conns := s.conns[sender := s.conns[sender].(role := BroadcasterRole)]), [])
    case Watcher(_) =>
      var promoted := PromoteToViewer(s.conns, sender);
      var t := s.(conns := promoted[sender := promoted[sender].(id := Some(newId))]);
      (t, ToBroadcaster(t, Watcher(Some(newId))))
    case Offer(id, sdp) =>
      (s, FanOut(s.clients, s.conns, ViewerWithId(id), Offer(id, sdp)))
    case Answer(id, sdp) =>
      (s, ToBroadcaster(s, Answer(id, sdp)))
    case IceCandidate(id, candidate) =>
      if s.conns[sender].role == BroadcasterRole then
        (s, FanOut(s.clients, s.conns, ViewerWithId(id), IceCandidate(id, candidate)))
      else if s.conns[sender].role == ViewerRole then
        (s, ToBroadcaster(s, IceCandidate(s.conns[sender].id, candidate)))
      else
        (s, [])
    case Start =>
      (s, FanOut(s.clients, s.conns, AnyViewer, Start))
    case Close => (s, [])
    case Disconnect(_) => (s, [])
    case Unknown(_) => (s, [])
  }

  /** The `close` handler. The socket server deletes the socket from its client
      set before the handler runs; the handler then reads the socket's own
      fields and the broadcaster slot. */
  function HandleClose(s: State, sender: ClientId): (r: (State, seq<Send>))
    requires sender in s.conns
    // the socket leaves the client set and its fields are forgotten; others keep theirs
    ensures forall c :: c in r.0.clients <==> c in s.clients && c != sender
    ensures Distinct(s.clients) ==> Distinct(r.0.clients)
    ensures r.0.conns.Keys == s.conns.Keys - {sender}
    ensures forall c :: c in r.0.conns ==> r.0.conns[c] == s.conns[c]
    // the slot is emptied exactly when the departed socket held it
    ensures r.0.broadcaster == if s.broadcaster == Some(sender) then None else s.broadcaster
    // nothing is sent to the departed socket, only to sockets still connected
    ensures forall k :: 0 <= k < |r.1| ==> r.1[k].to != sender && r.1[k].to in r.0.conns
  {
    var gone := s.conns[sender];
    var rest := s.(clients := RemoveFrom(s.clients, sender), conns := s.conns - {sender});
    if s.broadcaster == Some(sender) then
      var t := rest.(broadcaster := None);
      (t, FanOut(t.clients, t.conns, AnyViewer, Close))
    else if gone.role == ViewerRole then
      (rest, ToBroadcaster(rest, Disconnect(gone.id)))
    else
      (rest, [])
  }

  /** A new socket joins the client set, open, with no role and no id. */
  function HandleConnection(s: State, c: ClientId): (r: State)
    requires c !in s.conns
    ensures r.clients == s.clients + [c] && r.broadcaster == s.broadcaster
    ensures r.conns.Keys == s.conns.Keys + {c} && r.conns[c] == Conn(NoRole, None, true)
    ensures forall d :: d in s.conns ==> r.conns[d] == s.conns[d]
    // a fresh socket holds no viewer id
    ensures ViewerIds(r.conns) == ViewerIds(s.conns)
  {
    s.(clients := s.clients + [c], conns := s.conns[c := Conn(NoRole, None, true)])
  }

  /** The socket's ready state changes (it is OPEN or it is not). */
  function SetReadyState(s: State, c: ClientId, open: bool): (r: State)
    requires c in s.conns
    ensures r.clients == s.clients && r.broadcaster == s.broadcaster && r.conns.Keys == s.conns.Keys
    ensures r.conns[c].open == open && r.conns[c].role == s.conns[c].role && r.conns[c].id == s.conns[c].id
    ensures forall d :: d in s.conns && d != c ==> r.conns[d] == s.conns[d]
    // the ready state plays no part in which ids are held
    ensures ViewerIds(r.conns) == ViewerIds(s.conns)
  {
    s.(conns := s.conns[c := s.conns[c].(open := open)])
  }

  // ---------------------------------------------------------------------------
  // The invariant is kept by every event.

  lemma HandleMessageKeepsValid(s: State, sender: ClientId, env: Envelope, newId: int)
    requires Valid(s) && sender in s.conns
    requires env.Watcher? ==> FreshViewerId(PromoteToViewer(s.conns, sender), newId)
    ensures Valid(HandleMessage(s, sender, env, newId).0)
  {
  }

  lemma HandleCloseKeepsValid(s: State, sender: ClientId)
    requires Valid(s) && sender in s.conns
    ensures Valid(HandleClose(s, sender).0)
  {
  }

  lemma HandleConnectionKeepsValid(s: State, c: ClientId)
    requires Valid(s) && c !in s.conns
    ensures Valid(HandleConnection(s, c))
  {
  }

  lemma SetReadyStateKeepsValid(s: State, c: ClientId, open: bool)
    requires Valid(s) && c in s.conns
    ensures Valid(SetReadyState(s, c, open))
  {
  }

  // ---------------------------------------------------------------------------
  // The message handler's routing rules.

  /** 'broadcaster' always takes the slot, whether or not it was set; nothing is sent. */
  lemma BroadcasterTakesSlot(s: State, sender: ClientId, newId: int)
    requires sender in s.conns
    ensures var (t, out) := HandleMessage(s, sender, Broadcaster, newId);
      && t.broadcaster == Some(sender)
      && out == []
      && t.clients == s.clients
      && t.conns == s.conns[sender := Conn(BroadcasterRole, s.conns[sender].id, s.conns[sender].open)]
  {
  }

  /** 'watcher' makes the sender a viewer with a fresh id, and notifies the
      broadcaster exactly once when the slot is set and open, else nobody.
      Any id the client wrote into the frame (`wid`) is ignored. */
  lemma WatcherRegisters(s: State, sender: ClientId, wid: Option<int>, newId: int)
    requires Valid(s) && sender in s.conns
    requires FreshViewerId(PromoteToViewer(s.conns, sender), newId)
    ensures var (t, out) := HandleMessage(s, sender, Watcher(wid), newId);
      && t.conns[sender] == Conn(ViewerRole, Some(newId), s.conns[sender].open)
      && InIdRange(newId)
      && (forall c :: c in t.conns && c != sender && IsViewer(t.conns[c]) ==> t.conns[c].id != Some(newId))
      && t.broadcaster == s.broadcaster && t.clients == s.clients
      && (forall c :: c in s.conns && c != sender ==> t.conns[c] == s.conns[c])
      && out == (if s.broadcaster.Some? && s.conns[s.broadcaster.value].open
                 then [Send(s.broadcaster.value, Watcher(Some(newId)))] else [])
  {
  }

  /** An 'offer' reaches exactly the open viewers whose id is the addressed one,
      each once, with the addressed id and payload; the state is unchanged. */
  lemma OfferReachesOnlyAddressedViewer(s: State, sender: ClientId, id: Option<int>, sdp: Payload, newId: int)
    requires Valid(s) && sender in s.conns
    ensures var (t, out) := HandleMessage(s, sender, Offer(id, sdp), newId);
      && t == s
      && (forall k :: 0 <= k < |out| ==> out[k].msg == Offer(id, sdp))
      && (forall c :: c in Recipients(out) <==> c in s.conns && IsViewer(s.conns[c]) && s.conns[c].open && s.conns[c].id == id)
      && Distinct(Recipients(out))
  {
  }

  /** Because viewer ids are unique, an addressed envelope has at most one recipient. */
  lemma AddressedFanOutAtMostOne(s: State, id: Option<int>, msg: Envelope)
    requires Valid(s)
    ensures |FanOut(s.clients, s.conns, ViewerWithId(id), msg)| <= 1
  {
    FirstRecipients(FanOut(s.clients, s.conns, ViewerWithId(id), msg));
  }

  /** The first two sends name recipients of the sequence, different ones when recipients are distinct. */
  lemma FirstRecipients(out: seq<Send>)
    ensures |out| >= 1 ==> out[0].to in Recipients(out)
    ensures |out| >= 2 ==> out[1].to in Recipients(out) && (Distinct(Recipients(out)) ==> out[0].to != out[1].to)
  {
  }

  /** An 'offer' for an id no open viewer holds is dropped. */
  lemma OfferToUnknownIdDropped(s: State, sender: ClientId, id: Option<int>, sdp: Payload, newId: int)
    requires Valid(s) && sender in s.conns
    requires forall c :: c in s.conns && IsViewer(s.conns[c]) && s.conns[c].open ==> s.conns[c].id != id
    ensures HandleMessage(s, sender, Offer(id, sdp), newId).1 == []
  {
    FirstRecipients(HandleMessage(s, sender, Offer(id, sdp), newId).1);
  }

  /** Two distinct viewers never receive each other's offers. */
  lemma OffersIsolatedById(s: State, sender: ClientId, a: ClientId, b: ClientId, sdp: Payload, newId: int)
    requires Valid(s) && sender in s.conns
    requires a in s.conns && b in s.conns && a != b && IsViewer(s.conns[a])
    ensures b !in Recipients(HandleMessage(s, sender, Offer(s.conns[a].id, sdp), newId).1)
  {
  }

  /** An 'answer' goes to the open broadcaster only, stamped with the id the sender wrote. */
  lemma AnswerGoesToBroadcaster(s: State, sender: ClientId, id: Option<int>, sdp: Payload, newId: int)
    requires Valid(s) && sender in s.conns
    ensures var (t, out) := HandleMessage(s, sender, Answer(id, sdp), newId);
      && t == s
      && out == (if s.broadcaster.Some? && s.conns[s.broadcaster.value].open
                 then [Send(s.broadcaster.value, Answer(id, sdp))] else [])
  {
  }

  /** A candidate from the broadcaster reaches exactly the open viewers holding the addressed id. */
  lemma BroadcasterCandidateReachesAddressedViewer(s: State, sender: ClientId, id: Option<int>, cand: Payload, newId: int)
    requires Valid(s) && sender in s.conns && s.conns[sender].role == BroadcasterRole
    ensures var (t, out) := HandleMessage(s, sender, IceCandidate(id, cand), newId);
      && t == s
      && (forall k :: 0 <= k < |out| ==> out[k].msg == IceCandidate(id, cand))
      && (forall c :: c in Recipients(out) <==> c in s.conns && IsViewer(s.conns[c]) && s.conns[c].open && s.conns[c].id == id)
      && |out| <= 1
  {
    AddressedFanOutAtMostOne(s, id, IceCandidate(id, cand));
  }

  /** A candidate from a viewer goes to the open broadcaster only, stamped with
      the sender's own id whatever id it wrote; from a socket with no role it is dropped. */
  lemma ViewerCandidateGoesToBroadcaster(s: State, sender: ClientId, id: Option<int>, cand: Payload, newId: int)
    requires Valid(s) && sender in s.conns && s.conns[sender].role != BroadcasterRole
    ensures var (t, out) := HandleMessage(s, sender, IceCandidate(id, cand), newId);
      && t == s
      && out == (if s.conns[sender].role == ViewerRole && s.broadcaster.Some? && s.conns[s.broadcaster.value].open
                 then [Send(s.broadcaster.value, IceCandidate(s.conns[sender].id, cand))] else [])
  {
  }

  /** 'start' reaches every open viewer exactly once and nobody else. */
  lemma StartReachesEveryOpenViewer(s: State, sender: ClientId, newId: int)
    requires Valid(s) && sender in s.conns
    ensures var (t, out) := HandleMessage(s, sender, Start, newId);
      && t == s
      && (forall k :: 0 <= k < |out| ==> out[k].msg == Start)
      && (forall c :: c in Recipients(out) <==> c in s.conns && IsViewer(s.conns[c]) && s.conns[c].open)
      && Distinct(Recipients(out))
  {
  }

  /** Any other type, including a client-sent 'close' or 'disconnect', changes nothing and sends nothing. */
  lemma OtherTypesIgnored(s: State, sender: ClientId, env: Envelope, newId: int)
    requires sender in s.conns
    requires env.Close? || env.Disconnect? || env.Unknown?
    requires env.Unknown? ==> !RoutedType(env.tag)
    ensures HandleMessage(s, sender, env, newId) == (s, [])
  {
  }

  // ---------------------------------------------------------------------------
  // The close handler's teardown rules.

  /** Closing the broadcaster empties the slot and sends one 'close' to each open viewer. */
  lemma ClosingBroadcasterEndsSession(s: State, sender: ClientId)
    requires Valid(s) && sender in s.conns && s.broadcaster == Some(sender)
    ensures var (t, out) := HandleClose(s, sender);
      && t.broadcaster == None
      && t.clients == RemoveFrom(s.clients, sender)
      && t.conns == s.conns - {sender}
      && (forall k :: 0 <= k < |out| ==> out[k].msg == Close)
      && (forall c :: c in Recipients(out) <==> c in s.conns && c != sender && IsViewer(s.conns[c]) && s.conns[c].open)
      && Distinct(Recipients(out))
  {
  }

  /** Closing a viewer keeps the slot and sends at most one 'disconnect' carrying its id, to the open broadcaster. */
  lemma ClosingViewerNotifiesBroadcaster(s: State, sender: ClientId)
    requires Valid(s) && sender in s.conns && s.broadcaster != Some(sender) && IsViewer(s.conns[sender])
    ensures var (t, out) := HandleClose(s, sender);
      && t.broadcaster == s.broadcaster
      && t.clients == RemoveFrom(s.clients, sender)
      && t.conns == s.conns - {sender}
      && out == (if s.broadcaster.Some? && s.conns[s.broadcaster.value].open
                 then [Send(s.broadcaster.value, Disconnect(s.conns[sender].id))] else [])
  {
  }

  /** Closing a socket that is neither in the slot nor a viewer (a replaced
      broadcaster, or one that never registered) only drops it. */
  lemma ClosingOtherSocketIsSilent(s: State, sender: ClientId)
    requires sender in s.conns && s.broadcaster != Some(sender) && !IsViewer(s.conns[sender])
    ensures var (t, out) := HandleClose(s, sender);
      && out == []
      && t.broadcaster == s.broadcaster
      && t.conns == s.conns - {sender}
      && t.clients == RemoveFrom(s.clients, sender)
  {
  }

  // ---------------------------------------------------------------------------
  // Properties of event sequences.

  /** After a viewer leaves, an 'offer' for its old id reaches nobody. */
  lemma OfferAfterViewerLeftIsDropped(s: State, v: ClientId, sender: ClientId, sdp: Payload, newId: int)
    requires Valid(s) && v in s.conns && IsViewer(s.conns[v])
    requires sender in s.conns && sender != v
    ensures var t := HandleClose(s, v).0;
      sender in t.conns && HandleMessage(t, sender, Offer(s.conns[v].id, sdp), newId).1 == []
  {
    var t := HandleClose(s, v).0;
    HandleCloseKeepsValid(s, v);
    forall c | c in t.conns && IsViewer(t.conns[c]) && t.conns[c].open ensures t.conns[c].id != s.conns[v].id {
      assert t.conns[c] == s.conns[c];
    }
    OfferToUnknownIdDropped(t, sender, s.conns[v].id, sdp, newId);
  }

  /** A viewer that registers while open receives exactly the offer addressed to its new id,
      whatever id `wid` it wrote into its 'watcher' frame. */
  lemma WatcherThenOfferReachesWatcher(s: State, w: ClientId, wid: Option<int>, b: ClientId, sdp: Payload, newId: int)
    requires Valid(s) && w in s.conns && s.conns[w].open && b in s.conns
    requires FreshViewerId(PromoteToViewer(s.conns, w), newId)
    ensures var t := HandleMessage(s, w, Watcher(wid), newId).0;
      HandleMessage(t, b, Offer(Some(newId), sdp), newId).1 == [Send(w, Offer(Some(newId), sdp))]
  {
    var t := HandleMessage(s, w, Watcher(wid), newId).0;
    HandleMessageKeepsValid(s, w, Watcher(wid), newId);
    var out := HandleMessage(t, b, Offer(Some(newId), sdp), newId).1;
    assert w in Recipients(out);
    AddressedFanOutAtMostOne(t, Some(newId), Offer(Some(newId), sdp));
    assert Recipients(out)[0] == out[0].to;
  }
}
