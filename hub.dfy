/** The connection hub of src/notification/hub.go: a registry of websocket
    clients, each tagged with the hive and sector it speaks for and owning a
    bounded outbound queue, and one method per case of the `select` in
    Hub.Run. A send never blocks: a client whose queue is full is closed and
    dropped from the registry. Go's map iteration order is unspecified, so
    every "for client := range h.clients" picks its next client arbitrarily. */
module Notification {
  import opened Base

  // ---------------------------------------------------------------------------
  // Message framing
  // ---------------------------------------------------------------------------

  const Newline: bv8 := 0x0A
  const Space: bv8 := 0x20

  /** json.Marshal of the hub's `event` struct, whose fields are all
      unexported: the two bytes `{}`. */
  const MarshalledEvent: Bytes := [0x7B, 0x7D]

  /** The ASCII white space bytes.TrimSpace removes. */
  predicate IsSpace(b: bv8) {
    b == 0x09 || b == 0x0A || b == 0x0B || b == 0x0C || b == 0x0D || b == 0x20
  }

  /** bytes.Replace(data, newline, space, -1). */
  function ReplaceNewlines(data: Bytes): Bytes {
    if data == [] then []
    else [if data[0] == Newline then Space else data[0]] + ReplaceNewlines(data[1..])
  }

  /** Drop leading white space. */
  function TrimLeft(data: Bytes): Bytes {
    if data != [] && IsSpace(data[0]) then TrimLeft(data[1..]) else data
  }

  /** Drop trailing white space. */
  function TrimRight(data: Bytes): Bytes {
    if data != [] && IsSpace(data[|data| - 1]) then TrimRight(data[..|data| - 1]) else data
  }

  /** bytes.TrimSpace for ASCII white space. */
  function TrimSpace(data: Bytes): Bytes {
    TrimRight(TrimLeft(data))
  }

  /** The framing the hub applies before sending: newlines become spaces,
      then the ends are trimmed. */
  function Flatten(data: Bytes): Bytes {
    TrimSpace(ReplaceNewlines(data))
  }

  /** Every newline byte becomes a space, every other byte stays, so the
      result has no newline. */
  lemma {:induction false} ReplaceNewlinesMeaning(data: Bytes)
    ensures var r := ReplaceNewlines(data);
            && |r| == |data|
            && (forall i :: 0 <= i < |data| ==> r[i] == (if data[i] == Newline then Space else data[i]))
            && (forall i :: 0 <= i < |r| ==> r[i] != Newline)
  {
    if data != [] {
      ReplaceNewlinesMeaning(data[1..]);
      var r := ReplaceNewlines(data);
      assert forall i :: 1 <= i < |data| ==> r[i] == ReplaceNewlines(data[1..])[i - 1];
    }
  }

  /** TrimLeft keeps a suffix of the input, drops only white space, and the
      suffix does not start with white space. */
  lemma {:induction false} TrimLeftMeaning(data: Bytes)
    ensures var r := TrimLeft(data);
            && |r| <= |data| && r == data[|data| - |r|..]
            && (forall i :: 0 <= i < |data| - |r| ==> IsSpace(data[i]))
            && (r != [] ==> !IsSpace(r[0]))
  {
    if data != [] && IsSpace(data[0]) {
      TrimLeftMeaning(data[1..]);
    }
  }

  /** TrimRight keeps a prefix of the input, drops only white space, and the
      prefix does not end with white space. */
  lemma {:induction false} TrimRightMeaning(data: Bytes)
    ensures var r := TrimRight(data);
            && |r| <= |data| && r == data[..|r|]
            && (forall i :: |r| <= i < |data| ==> IsSpace(data[i]))
            && (r != [] ==> !IsSpace(r[|r| - 1]))
  {
    if data != [] && IsSpace(data[|data| - 1]) {
      TrimRightMeaning(data[..|data| - 1]);
    }
  }

  /** What a client receives is one line: no newline byte and no white
      space at either end. */
  lemma FlattenIsOneLine(data: Bytes)
    ensures var r := Flatten(data);
            && (forall i :: 0 <= i < |r| ==> r[i] != Newline)
            && (r != [] ==> !IsSpace(r[0]) && !IsSpace(r[|r| - 1]))
  {
    var s := ReplaceNewlines(data);
    var left := TrimLeft(s);
    var r := TrimRight(left);
    ReplaceNewlinesMeaning(data);
    TrimLeftMeaning(s);
    TrimRightMeaning(left);
    var off := |s| - |left|;
    forall i | 0 <= i < |r|
      ensures r[i] != Newline
    {
      assert r[i] == left[i];
      assert left[i] == s[off + i];
    }
    if r != [] {
      assert r[0] == left[0];
    }
  }

  /** Trimming a trimmed string changes nothing. */
  lemma TrimSpaceOfTrimmed(data: Bytes)
    requires data != [] ==> !IsSpace(data[0]) && !IsSpace(data[|data| - 1])
    ensures TrimSpace(data) == data
  {
  }

  /** Replacing newlines in a string without any changes nothing. */
  lemma {:induction false} ReplaceNewlinesOfLine(data: Bytes)
    requires forall i :: 0 <= i < |data| ==> data[i] != Newline
    ensures ReplaceNewlines(data) == data
  {
    if data != [] {
      ReplaceNewlinesOfLine(data[1..]);
    }
  }

  /** Framing is idempotent: a framed message passes through unchanged. */
  lemma FlattenIdempotent(data: Bytes)
    ensures Flatten(Flatten(data)) == Flatten(data)
  {
    var r := Flatten(data);
    FlattenIsOneLine(data);
    ReplaceNewlinesOfLine(r);
    TrimSpaceOfTrimmed(r);
  }

  // ---------------------------------------------------------------------------
  // Clients and the hub
  // ---------------------------------------------------------------------------

  /** One websocket client: the hive and sector it was opened for (hex
      strings), and its `send` channel as a queue of at most `capacity`
      messages that can be closed once. */
  class Client {
    const hiveId: string
    const sectorId: string
    const capacity: nat
    var queue: seq<Bytes>
    var closed: bool

    constructor (hiveId: string, sectorId: string, capacity: nat)
      ensures this.hiveId == hiveId && this.sectorId == sectorId && this.capacity == capacity
      ensures queue == [] && !closed
    {
      this.hiveId := hiveId;
      this.sectorId := sectorId;
      this.capacity := capacity;
      queue := [];
      closed := false;
    }
  }

  /** What the event handler returns: the broadcast flag, the per-sector
      payloads (None for a nil map), and whether it reported an error. */
  datatype HandlerResult = HandlerResult(broadcast: bool, sectorEvents: Option<map<string, Bytes>>, failed: bool)

  /** The handler installed by RegisterEventHandler: (hive hex, sector hex,
      message) to its verdict. */
  type Handler = (string, string, Bytes) -> HandlerResult

  /** One item of the `event` channel. */
  datatype HubEvent = HubEvent(hiveHex: string, sectorHex: string, message: Bytes)

  /** The clients a routed message may go to. */
  datatype Target =
    | OtherSectors(hiveId: string, sectorId: string)   // an event broadcast: same hive, another sector
    | SectorOf(hiveId: string, sectorId: string)       // one entry of sectorEvents: same hive, that sector

  /** The negation of the `continue` condition of each routing loop. */
  predicate Accepts(t: Target, c: Client) {
    match t
    case OtherSectors(h, s) => c.hiveId == h && c.sectorId != s
    case SectorOf(h, s) => c.hiveId == h && c.sectorId == s
  }

  class Hub {
    var clients: set<Client>
    var eventHandler: Option<Handler>

    /** Every registered client is open and its queue within capacity. */
    ghost predicate Valid()
      reads this, clients
    {
      forall c :: c in clients ==> !c.closed && |c.queue| <= c.capacity
    }

    /** The outcome of one non-blocking send to c, whose queue was `before`:
        the message is queued if there was room, otherwise c is closed and
        no longer registered. */
    ghost predicate Delivered(c: Client, before: seq<Bytes>, data: Bytes)
      reads this, c
    {
      if |before| < c.capacity then
        c in clients && !c.closed && c.queue == before + [data]
      else
        c !in clients && c.closed && c.queue == before
    }

    /** c is still registered and open, with its queue as `before`. */
    ghost predicate Kept(c: Client, before: seq<Bytes>)
      reads this, c
    {
      c in clients && !c.closed && c.queue == before
    }

    /** NewHub: an empty registry and no handler. */
    constructor ()
      ensures Valid()
      ensures clients == {} && eventHandler == None
    {
      clients := {};
      eventHandler := None;
    }

    method RegisterEventHandler(handler: Handler)
      modifies this
      ensures eventHandler == Some(handler) && clients == old(clients)
    {
      eventHandler := Some(handler);
    }

    /** The outcome of routing for c, whose queue was `before`: the entry
        for c's sector was sent to c, or c is untouched. */
    ghost predicate Routed(c: Client, before: seq<Bytes>, sentTo: map<string, Client>, sent: map<string, Bytes>)
      reads this, c
    {
      if c.sectorId in sentTo && sentTo[c.sectorId] == c && c.sectorId in sent
      then Delivered(c, before, sent[c.sectorId])
      else Kept(c, before)
    }

    /** `case client := <-h.register`. A client is registered with the open,
        empty-enough send channel it was created with. */
    method Register(c: Client)
      requires Valid()
      requires !c.closed && |c.queue| <= c.capacity
      modifies this
      ensures Valid()
      ensures clients == old(clients) + {c} && eventHandler == old(eventHandler)
    {
      clients := clients + {c};
    }

    /** `case client := <-h.unregister`: only a registered client is removed
        and closed, so no queue is closed twice on this path. */
    method Unregister(c: Client)
      requires Valid()
      modifies this, c
      ensures Valid()
      ensures eventHandler == old(eventHandler) && c.queue == old(c.queue)
      ensures old(c in clients) ==> clients == old(clients) - {c} && c.closed
      ensures old(c !in clients) ==> clients == old(clients) && c.closed == old(c.closed)
    {
      if c in clients {
        clients := clients - {c};
        c.closed := true;
      }
    }

    /** `select { case client.send <- data: default: close; delete }`. */
    method TrySend(c: Client, data: Bytes)
      requires Valid() && c in clients
      modifies this, c
      ensures Valid() && eventHandler == old(eventHandler)
      ensures Delivered(c, old(c.queue), data)
      ensures clients == if |old(c.queue)| < c.capacity then old(clients) else old(clients) - {c}
    {
      if |c.queue| < c.capacity {
        c.queue := c.queue + [data];
      } else {
        c.closed := true;
        clients := clients - {c};
      }
    }

    /** `case message := <-h.broadcast`: every registered client is tried
        once with the message. */
    method Broadcast(message: Bytes)
      requires Valid()
      modifies this, clients
      ensures Valid() && eventHandler == old(eventHandler)
      ensures clients <= old(clients)
      ensures forall c :: c in old(clients) ==> Delivered(c, old(c.queue), message)
    {
      var todo := clients;
      while todo != {}
        invariant Valid() && eventHandler == old(eventHandler)
        invariant todo <= clients <= old(clients)
        invariant forall c :: c in todo ==> Kept(c, old(c.queue))
        invariant forall c :: c in old(clients) && c !in todo ==> Delivered(c, old(c.queue), message)
        decreases |todo|
      {
        var c :| c in todo;
        TrySend(c, message);
        todo := todo - {c};
      }
    }

    /** One routing loop with its `break`: skip the clients the target does
        not accept, try the first accepted one and stop. */
    method SendToFirst(t: Target, data: Bytes) returns (ghost tried: Option<Client>)
      requires Valid()
      modifies this, clients
      ensures Valid() && eventHandler == old(eventHandler)
      ensures clients <= old(clients)
      ensures tried.None? <==> forall c :: c in old(clients) ==> !Accepts(t, c)
      ensures tried.Some? ==> && tried.value in old(clients) && Accepts(t, tried.value)
                              && Delivered(tried.value, old(tried.value.queue), data)
      ensures forall c :: c in old(clients) && Some(c) != tried ==> Kept(c, old(c.queue))
    {
      tried := None;
      var todo := clients;
      while todo != {}
        invariant Valid() && tried == None
        invariant todo <= clients == old(clients)
        invariant forall c :: c in old(clients) && c !in todo ==> !Accepts(t, c)
        invariant forall c :: c in old(clients) ==> Kept(c, old(c.queue))
        decreases |todo|
      {
        var c :| c in todo;
        if !Accepts(t, c) {
          todo := todo - {c};
          continue;
        }
        TrySend(c, data);
        tried := Some(c);
        break;
      }
    }

    /** `for k, v := range sectorEvents`: each entry goes to the first
        registered client of the hive whose sector is k. Entries are taken in
        any order; since each client has one sector, no client is tried for
        two entries. */
    method RouteSectorEvents(hiveId: string, events: map<string, Bytes>) returns (ghost sentTo: map<string, Client>)
      requires Valid()
      modifies this, clients
      ensures Valid() && eventHandler == old(eventHandler)
      ensures clients <= old(clients)
      ensures sentTo.Keys <= events.Keys
      ensures forall k :: k in events && k !in sentTo ==> forall c :: c in old(clients) ==> !Accepts(SectorOf(hiveId, k), c)
      ensures forall k :: k in sentTo ==>
                && sentTo[k] in old(clients) && Accepts(SectorOf(hiveId, k), sentTo[k])
                && Delivered(sentTo[k], old(sentTo[k].queue), Flatten(events[k]))
      ensures forall c :: c in old(clients) && !(c.sectorId in sentTo && sentTo[c.sectorId] == c) ==> Kept(c, old(c.queue))
    {
      sentTo := map[];
      ghost var q0 := map c | c in clients :: c.queue;
      ghost var sent: map<string, Bytes> := map[];
      var keys := events.Keys;
      while keys != {}
        invariant Valid() && eventHandler == old(eventHandler)
        invariant RouteProgress(hiveId, events, keys, old(clients), q0, sentTo, sent)
        decreases |keys|
      {
        var k :| k in keys;
        sentTo, sent := RouteEntry(hiveId, events, keys, k, old(clients), q0, sentTo, sent);
        keys := keys - {k};
      }
      forall k | k in sentTo
        ensures Delivered(sentTo[k], old(sentTo[k].queue), Flatten(events[k]))
      {
        var c := sentTo[k];
        assert c.sectorId == k && q0[c] == old(c.queue) && sent[k] == Flatten(events[k]);
        assert Routed(c, q0[c], sentTo, sent);
      }
      forall c | c in old(clients) && !(c.sectorId in sentTo && sentTo[c.sectorId] == c)
        ensures Kept(c, old(c.queue))
      {
        assert Routed(c, q0[c], sentTo, sent);
      }
    }

    /** The state of the loop over sectorEvents with `keys` still to do:
        `sentTo` and `sent` record, per routed entry, the client it went to
        and the framed payload; an entry already taken but not routed had no
        client of its sector; and every client registered at the start, whose
        queue was then `q0`, received its sector's entry or is untouched. */
    ghost predicate RouteProgress(hiveId: string, events: map<string, Bytes>, keys: set<string>, orig: set<Client>,
                                  q0: map<Client, seq<Bytes>>, sentTo: map<string, Client>, sent: map<string, Bytes>)
      reads this, orig
    {
      && keys <= events.Keys && clients <= orig
      && sentTo.Keys == sent.Keys <= events.Keys && sentTo.Keys !! keys
      && (forall k :: k in sent ==> sent[k] == Flatten(events[k]))
      && (forall k :: k in events && k !in keys && k !in sentTo ==>
            forall c :: c in orig ==> !Accepts(SectorOf(hiveId, k), c))
      && (forall k :: k in sentTo ==> sentTo[k] in orig && Accepts(SectorOf(hiveId, k), sentTo[k]))
      && forall c :: c in orig ==> c in q0 && Routed(c, q0[c], sentTo, sent)
    }

    /** One iteration of the loop over sectorEvents: the entry for sector k
        is framed and goes to the first client of the hive in that sector. */
    method RouteEntry(hiveId: string, events: map<string, Bytes>, keys: set<string>, k: string,
                      ghost orig: set<Client>, ghost q0: map<Client, seq<Bytes>>,
                      ghost sentTo: map<string, Client>, ghost sent: map<string, Bytes>)
      returns (ghost sentTo': map<string, Client>, ghost sent': map<string, Bytes>)
      requires Valid() && k in keys
      requires RouteProgress(hiveId, events, keys, orig, q0, sentTo, sent)
      modifies this, clients
      ensures Valid() && eventHandler == old(eventHandler)
      ensures RouteProgress(hiveId, events, keys - {k}, orig, q0, sentTo', sent')
    {
      var data := Flatten(events[k]);
      var tried := SendToFirst(SectorOf(hiveId, k), data);
      sentTo', sent' := sentTo, sent;
      if tried.Some? {
        sentTo' := sentTo[k := tried.value];
        sent' := sent[k := data];
      }
      forall c | c in orig
        ensures Routed(c, q0[c], sentTo', sent')
      {
        assert old(Routed(c, q0[c], sentTo, sent));
        if tried.Some? && tried.value == c {
          assert c.sectorId == k && k !in sentTo;
        } else if c in old(clients) {
          assert Kept(c, old(c.queue));
        } else {
          assert c !in clients && c.queue == old(c.queue) && c.closed == old(c.closed);
        }
      }
    }

    /** `case event := <-h.event`: run the handler, whose error is only
        logged. With broadcast set, the framed marshalled event goes to the
        first client of the hive in another sector and the per-sector map is
        ignored; otherwise each map entry is routed to its sector; with
        neither, nothing changes. With no handler installed (NewHub leaves it
        nil) the call panics, which ends Run: the model reports `panicked`
        and touches no client. */
    method HandleEvent(ev: HubEvent) returns (panicked: bool, ghost broadcastTo: Option<Client>, ghost sentTo: map<string, Client>)
      requires Valid()
      modifies this, clients
      ensures Valid() && eventHandler == old(eventHandler)
      ensures clients <= old(clients)
      ensures panicked <==> eventHandler.None?
      ensures panicked ==> && broadcastTo == None && sentTo == map[] && clients == old(clients)
                           && forall c :: c in old(clients) ==> Kept(c, old(c.queue))
      ensures !panicked ==>
              var r := eventHandler.value(ev.hiveHex, ev.sectorHex, ev.message);
              if r.broadcast then
                && sentTo == map[]
                && (broadcastTo.None? <==> forall c :: c in old(clients) ==> !Accepts(OtherSectors(ev.hiveHex, ev.sectorHex), c))
                && (broadcastTo.Some? ==> && broadcastTo.value in old(clients)
                                          && Accepts(OtherSectors(ev.hiveHex, ev.sectorHex), broadcastTo.value)
                                          && Delivered(broadcastTo.value, old(broadcastTo.value.queue), Flatten(MarshalledEvent)))
                && forall c :: c in old(clients) && Some(c) != broadcastTo ==> Kept(c, old(c.queue))
              else if r.sectorEvents.None? then
                && broadcastTo == None && sentTo == map[] && clients == old(clients)
                && forall c :: c in old(clients) ==> Kept(c, old(c.queue))
              else
                var events := r.sectorEvents.value;
                && broadcastTo == None
                && sentTo.Keys <= events.Keys
                && (forall k :: k in events && k !in sentTo ==> forall c :: c in old(clients) ==> !Accepts(SectorOf(ev.hiveHex, k), c))
                && (forall k :: k in sentTo ==>
                      && sentTo[k] in old(clients) && Accepts(SectorOf(ev.hiveHex, k), sentTo[k])
                      && Delivered(sentTo[k], old(sentTo[k].queue), Flatten(events[k])))
                && forall c :: c in old(clients) && !(c.sectorId in sentTo && sentTo[c.sectorId] == c) ==> Kept(c, old(c.queue))
    {
      broadcastTo := None;
      sentTo := map[];
      if eventHandler.None? {
        panicked := true;
        return;
      }
      panicked := false;
      var r := eventHandler.value(ev.hiveHex, ev.sectorHex, ev.message);
      if r.broadcast {
        var data := Flatten(MarshalledEvent);
        broadcastTo := SendToFirst(OtherSectors(ev.hiveHex, ev.sectorHex), data);
      } else if r.sectorEvents.Some? {
        sentTo := RouteSectorEvents(ev.hiveHex, r.sectorEvents.value);
      }
    }
  }
}
