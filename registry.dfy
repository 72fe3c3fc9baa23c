/** The relay's view of its connections: the broadcaster slot, the connected
    sockets in the order the server's client set iterates them, and the
    `role`, `id` and ready-state of each socket.
 */
module Registry {
  import opened Envelopes

  /** The `role` field of a socket: unset, 'broadcaster' or 'viewer'. */
  datatype Role = NoRole | BroadcasterRole | ViewerRole

  /** The fields the relay keeps on a socket; `open` is `readyState === OPEN`. */
  datatype Conn = Conn(role: Role, id: Option<int>, open: bool)

  /** The whole relay state: the broadcaster slot, the client set in
      iteration order, and each client's fields. */
  datatype State = State(broadcaster: Option<ClientId>, clients: seq<ClientId>, conns: map<ClientId, Conn>)

  const MinViewerId: int := 1000
  const MaxViewerId: int := 9999

  predicate InIdRange(id: int) {
    MinViewerId <= id <= MaxViewerId
  }

  predicate IsViewer(c: Conn) {
    c.role == ViewerRole
  }

  /** The ids held by sockets whose role is 'viewer'. */
  function ViewerIds(conns: map<ClientId, Conn>): set<int> {
    set c | c in conns && IsViewer(conns[c]) && conns[c].id.Some? :: conns[c].id.value
  }

  /** Viewer ids are pairwise distinct among connected sockets. */
  predicate UniqueViewerIds(conns: map<ClientId, Conn>) {
    forall a, b :: a in conns && b in conns && a != b && IsViewer(conns[a]) && IsViewer(conns[b]) ==>
      conns[a].id != conns[b].id
  }

  /** The invariant the relay keeps between events. */
  ghost predicate Valid(s: State) {
    && Distinct(s.clients)
    && (forall c :: c in s.conns <==> c in s.clients)
    && (s.broadcaster.Some? ==> s.broadcaster.value in s.conns)
    && (forall c :: c in s.conns && IsViewer(s.conns[c]) ==> s.conns[c].id.Some? && InIdRange(s.conns[c].id.value))
    && UniqueViewerIds(s.conns)
  }

  /** Which sockets a `forEach` over the client set sends to. */
  datatype Selector =
    | AnyViewer                      // every open viewer
    | ViewerWithId(id: Option<int>)  // open viewers whose id equals `id`

  predicate Selects(sel: Selector, c: Conn) {
    IsViewer(c) && c.open && (sel.AnyViewer? || c.id == sel.id)
  }

  /** The sends made by iterating `order` and sending `msg` to each selected socket. */
  function FanOut(order: seq<ClientId>, conns: map<ClientId, Conn>, sel: Selector, msg: Envelope): (out: seq<Send>)
    ensures |out| <= |order|
    ensures forall k :: 0 <= k < |out| ==> out[k].msg == msg && out[k].to in conns && Selects(sel, conns[out[k].to])
    ensures forall c :: c in Recipients(out) <==> c in order && c in conns && Selects(sel, conns[c])
    ensures Distinct(order) ==> Distinct(Recipients(out))
    decreases |order|
  {
    if order == [] then []
    else
      var front := order[..|order| - 1];
      var c := order[|order| - 1];
      var rest := FanOut(front, conns, sel, msg);
      assert Recipients(rest + [Send(c, msg)]) == Recipients(rest) + [c];
      assert Distinct(order) ==> c !in front;
      if c in conns && Selects(sel, conns[c]) then rest + [Send(c, msg)] else rest
  }

  /** Two sockets `a` and `b` appear in `order` with `a` strictly before `b`. */
  predicate Before(order: seq<ClientId>, a: ClientId, b: ClientId) {
    exists p, q :: 0 <= p < q < |order| && order[p] == a && order[q] == b
  }

  /** Whenever one send precedes another, its recipient comes earlier in `order`. */
  predicate InOrder(out: seq<Send>, order: seq<ClientId>) {
    forall i, j :: 0 <= i < j < |out| ==> Before(order, out[i].to, out[j].to)
  }

  /** A fan-out sends in client order. */
  lemma {:induction false} FanOutInClientOrder(order: seq<ClientId>, conns: map<ClientId, Conn>, sel: Selector, msg: Envelope)
    ensures InOrder(FanOut(order, conns, sel, msg), order)
    decreases |order|
  {
    if order != [] {
      var front := order[..|order| - 1];
      var c := order[|order| - 1];
      var rest := FanOut(front, conns, sel, msg);
      FanOutInClientOrder(front, conns, sel, msg);
      var out := FanOut(order, conns, sel, msg);
      assert out == if c in conns && Selects(sel, conns[c]) then rest + [Send(c, msg)] else rest;
      forall i, j | 0 <= i < j < |out|
        ensures Before(order, out[i].to, out[j].to)
      {
        assert out[i] == rest[i];
        if j < |rest| {
          assert out[j] == rest[j];
          assert InOrder(rest, front);
          assert Before(front, rest[i].to, rest[j].to);
          var p, q :| 0 <= p < q < |front| && front[p] == rest[i].to && front[q] == rest[j].to;
          assert order[p] == out[i].to && order[q] == out[j].to;
        } else {
          assert out[j].to == c;
          assert Recipients(rest)[i] == rest[i].to;
          var p :| 0 <= p < |front| && front[p] == rest[i].to;
          assert order[p] == out[i].to && order[|order| - 1] == out[j].to;
        }
      }
    }
  }

  /** `order` without `x`, in the same order (deleting a socket from the client set). */
  function RemoveFrom(order: seq<ClientId>, x: ClientId): (r: seq<ClientId>)
    ensures |r| <= |order|
    ensures forall c :: c in r <==> c in order && c != x
    ensures Distinct(order) ==> Distinct(r)
    decreases |order|
  {
    if order == [] then []
    else
      var rest := RemoveFrom(order[..|order| - 1], x);
      var c := order[|order| - 1];
      assert Distinct(order) ==> c !in order[..|order| - 1];
      if c == x then rest else rest + [c]
  }

  /** Deleting a socket keeps the others in their relative order. */
  lemma {:induction false} RemoveFromKeepsOrder(order: seq<ClientId>, x: ClientId)
    ensures forall a, b :: Before(RemoveFrom(order, x), a, b) ==> Before(order, a, b)
    decreases |order|
  {
    if order != [] {
      var front := order[..|order| - 1];
      var c := order[|order| - 1];
      var rest := RemoveFrom(front, x);
      RemoveFromKeepsOrder(front, x);
      var r := RemoveFrom(order, x);
      assert r == if c == x then rest else rest + [c];
      forall a, b | Before(r, a, b)
        ensures Before(order, a, b)
      {
        var p, q :| 0 <= p < q < |r| && r[p] == a && r[q] == b;
        assert r[p] == rest[p];
        if q < |rest| {
          assert r[q] == rest[q];
          assert Before(rest, a, b);
          var p', q' :| 0 <= p' < q' < |front| && front[p'] == a && front[q'] == b;
          assert order[p'] == a && order[q'] == b;
        } else {
          assert b == c && a in rest;
          var p' :| 0 <= p' < |front| && front[p'] == a;
          assert order[p'] == a && order[|order| - 1] == b;
        }
      }
    }
  }

  /** A send of `msg` to the broadcaster when the slot is set and its socket is open. */
  function ToBroadcaster(s: State, msg: Envelope): (out: seq<Send>)
    ensures |out| <= 1
    ensures out != [] <==> s.broadcaster.Some? && s.broadcaster.value in s.conns && s.conns[s.broadcaster.value].open
    ensures out != [] ==> out == [Send(s.broadcaster.value, msg)]
  {
    if s.broadcaster.Some? && s.broadcaster.value in s.conns && s.conns[s.broadcaster.value].open
    then [Send(s.broadcaster.value, msg)]
    else []
  }

  /** The ids `lo .. hi-1`. */
  function IdSpan(lo: int, hi: int): (r: set<int>)
    ensures forall i :: i in r <==> lo <= i < hi
    decreases hi - lo
  {
    if hi <= lo then {} else IdSpan(lo, hi - 1) + {hi - 1}
  }

  lemma {:induction false} IdSpanSize(lo: int, hi: int)
    requires lo <= hi
    ensures |IdSpan(lo, hi)| == hi - lo
    decreases hi - lo
  {
    if lo < hi {
      IdSpanSize(lo, hi - 1);
      assert hi - 1 !in IdSpan(lo, hi - 1);
    }
  }

  /** While fewer than 9000 ids of the range are taken, some id of the range is free. */
  lemma FreeIdExists(taken: set<int>)
    requires |taken| < MaxViewerId - MinViewerId + 1
    ensures exists id :: InIdRange(id) && id !in taken
  {
    var span := IdSpan(MinViewerId, MaxViewerId + 1);
    IdSpanSize(MinViewerId, MaxViewerId + 1);
    var free := span - taken;
    SubsetSize(span * taken, taken);
    SplitSize(span, taken);
    assert |free| > 0;
    var id :| id in free;
    assert InIdRange(id);
  }

  lemma {:induction false} SubsetSize<T>(a: set<T>, b: set<T>)
    requires a <= b
    ensures |a| <= |b|
  {
    assert b == a + (b - a);
  }

  /** `a` splits into the part outside `b` and the part inside it. */
  lemma SplitSize<T>(a: set<T>, b: set<T>)
    ensures |a| == |a - b| + |a * b|
  {
    assert a == (a - b) + (a * b);
    assert (a - b) * (a * b) == {};
  }
}
