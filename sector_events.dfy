/** The sector-event dispatcher of src/hive/system.go: decode the
    EventSectorChange envelope, switch on its type, decode the payload and
    call at most one store operation, and report whether the event is to be
    broadcast. The JSON decoder is a parameter: one partial decoding function
    per target type. */
module SectorEvents {
  import opened Base
  import opened FactionData
  import FactionEngine
  import FactionSystem

  const EventTypeFactionCreated: string := "factionCreated"
  const EventTypeFactionCreatedComplete: string := "factionCreatedComplete"

  /** The envelope every sector event arrives in; `raw` is kept undecoded. */
  datatype EventSectorChange = EventSectorChange(typ: string, raw: Bytes)

  /** json.Unmarshal into each of the three target types; None is a decode
      error. */
  datatype Codec = Codec(
    envelope: Bytes -> Option<EventSectorChange>,
    created: Bytes -> Option<EventFactionCreated>,
    complete: Bytes -> Option<EventFactionCreatedComplete>)

  /** The store operation an event leads to. */
  datatype StoreCall =
    | NoCall
    | CallCreateFaction(created: EventFactionCreated)
    | CallAddFactionSector(complete: EventFactionCreatedComplete)

  /** The decision ProcessSectorEvent takes before touching the store: the
      broadcast verdict, the one store call, and a decode error (which rules
      out any call). */
  datatype Plan = Plan(broadcast: bool, call: StoreCall, decodeError: bool)

  /** The switch of ProcessSectorEvent. An envelope or a payload of one of
      the two known types that fails to decode is an error. Broadcast is set
      for a created event before its payload is decoded, so a malformed
      payload is still broadcast; a store call happens only on a payload that
      decodes; an unknown type is no error, no call and no broadcast. */
  function PlanEvent(codec: Codec, data: Bytes): (p: Plan)
    ensures p.decodeError ==> p.call.NoCall?
    ensures p.decodeError <==>
              || codec.envelope(data).None?
              || (codec.envelope(data).value.typ == EventTypeFactionCreated && codec.created(codec.envelope(data).value.raw).None?)
              || (codec.envelope(data).value.typ == EventTypeFactionCreatedComplete && codec.complete(codec.envelope(data).value.raw).None?)
    ensures codec.envelope(data).None? ==> p == Plan(false, NoCall, true)
    ensures p.broadcast <==> codec.envelope(data).Some? && codec.envelope(data).value.typ == EventTypeFactionCreated
    ensures p.call.CallCreateFaction? <==>
              && codec.envelope(data).Some? && codec.envelope(data).value.typ == EventTypeFactionCreated
              && codec.created(codec.envelope(data).value.raw).Some?
    ensures p.call.CallCreateFaction? ==> Some(p.call.created) == codec.created(codec.envelope(data).value.raw)
    ensures p.call.CallAddFactionSector? <==>
              && codec.envelope(data).Some? && codec.envelope(data).value.typ == EventTypeFactionCreatedComplete
              && codec.complete(codec.envelope(data).value.raw).Some?
    ensures p.call.CallAddFactionSector? ==> Some(p.call.complete) == codec.complete(codec.envelope(data).value.raw)
    ensures codec.envelope(data).Some?
            && codec.envelope(data).value.typ != EventTypeFactionCreated
            && codec.envelope(data).value.typ != EventTypeFactionCreatedComplete
            ==> p == Plan(false, NoCall, false)
  {
    match codec.envelope(data)
    case None => Plan(false, NoCall, true)
    case Some(event) =>
      if event.typ == EventTypeFactionCreated then
        match codec.created(event.raw)
        case None => Plan(true, NoCall, true)
        case Some(ev) => Plan(true, CallCreateFaction(ev), false)
      else if event.typ == EventTypeFactionCreatedComplete then
        match codec.complete(event.raw)
        case None => Plan(false, NoCall, true)
        case Some(ev) => Plan(false, CallAddFactionSector(ev), false)
      else Plan(false, NoCall, false)
  }

  /** What a planned event does to the collection, as the functions of
      FactionEngine describe the two store calls, together with the error
      ProcessSectorEvent returns. */
  function Dispatch(docs: seq<Faction>, nextId: ObjectId, hiveId: ObjectId, sectorId: ObjectId, p: Plan): Written {
    if p.decodeError then Written(Fail(Malformed), docs)
    else match p.call
      case NoCall => Written(Pass, docs)
      case CallCreateFaction(ev) => FactionEngine.CreateFaction(docs, nextId, hiveId, sectorId, ev)
      case CallAddFactionSector(ev) => FactionEngine.AddFactionSector(docs, hiveId, sectorId, ev)
  }

  /** ProcessSectorEvent on the faction store `s`. */
  method ProcessSectorEvent(s: FactionSystem.System, hiveId: ObjectId, sectorId: ObjectId, codec: Codec, data: Bytes)
    returns (broadcast: bool, err: Outcome)
    requires s.Valid()
    modifies s
    ensures s.Valid()
    ensures broadcast == PlanEvent(codec, data).broadcast
    ensures Written(err, s.docs) == Dispatch(old(s.docs), old(s.nextId), hiveId, sectorId, PlanEvent(codec, data))
  {
    broadcast := false;
    err := Pass;
    var decoded := codec.envelope(data);
    if decoded.None? {
      err := Fail(Malformed);
      return;
    }
    var event := decoded.value;
    if event.typ == EventTypeFactionCreated {
      broadcast := true;
      var created := codec.created(event.raw);
      if created.None? {
        err := Fail(Malformed);
        return;
      }
      err := s.CreateFaction(hiveId, sectorId, created.value);
    } else if event.typ == EventTypeFactionCreatedComplete {
      var complete := codec.complete(event.raw);
      if complete.None? {
        err := Fail(Malformed);
        return;
      }
      err := s.AddFactionSector(hiveId, sectorId, complete.value);
    }
  }

  /** Every event makes at most one store call, and the collection changes
      only through it: with no call (decode error, or any other type) the
      collection is untouched; a created event appends exactly one record;
      a completion event keeps the number of records. */
  lemma AtMostOneStoreCall(docs: seq<Faction>, nextId: ObjectId, hiveId: ObjectId, sectorId: ObjectId, codec: Codec, data: Bytes)
    ensures var p := PlanEvent(codec, data);
            var w := Dispatch(docs, nextId, hiveId, sectorId, p);
            && (p.call.NoCall? ==> w.docs == docs && (w.outcome == Pass <==> !p.decodeError))
            && (p.call.CallCreateFaction? ==> w.outcome == Pass && |w.docs| == |docs| + 1 && w.docs[..|docs|] == docs)
            && (p.call.CallAddFactionSector? ==> |w.docs| == |docs| && !p.broadcast)
  {
    var p := PlanEvent(codec, data);
    if p.call.CallAddFactionSector? {
      WriteMeaning(docs, ByTag(hiveId, p.call.complete.tag), PushSector(FactionSector(sectorId, p.call.complete.factionId)));
    }
    if p.call.CallCreateFaction? {
      var w := Dispatch(docs, nextId, hiveId, sectorId, p);
      assert w.docs[..|docs|] == docs;
    }
  }
}
