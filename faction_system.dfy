/** The faction operations of src/hive/faction.go as methods of the System
    that owns the faction collection. Each method issues its lookups and
    writes one at a time on the stored collection, scanning members and
    relation rows with the loops and `found` flags of the Go code, and is
    proved to leave the collection and return what the matching function of
    FactionEngine describes. */
module FactionSystem {
  import opened Base
  import opened FactionData
  import FactionEngine

  /** The `for _, v := range faction.Members` scan with its `found` flag. */
  method ContainsMember(ms: seq<FactionMember>, steamId: SteamId) returns (found: bool)
    ensures found <==> exists j :: 0 <= j < |ms| && ms[j].steamId == steamId
    ensures found == HasMember(ms, steamId)
  {
    found := false;
    var k := 0;
    while k < |ms|
      invariant k <= |ms|
      invariant found <==> exists j :: 0 <= j < k && ms[j].steamId == steamId
    {
      if ms[k].steamId == steamId {
        found := true;
      }
      k := k + 1;
    }
  }

  /** The service object; `docs` is the "faction" collection, and `nextId`
      the next _id the store hands out on insert. */
  class System {
    var docs: seq<Faction>
    var nextId: ObjectId

    /** The store's own guarantee: _id is unique, and every stored _id was
        handed out before. */
    ghost predicate Valid()
      reads this
    {
      && UniqueIds(docs)
      && forall k :: 0 <= k < |docs| ==> docs[k].id < nextId
    }

    constructor ()
      ensures Valid() && docs == []
    {
      docs := [];
      nextId := 1;
    }

    // -------------------------------------------------------------------------
    // Store primitives
    // -------------------------------------------------------------------------

    /** Position of the first document the selector matches, or |docs|. */
    method FindFirst(sel: Selector) returns (i: nat)
      ensures i <= |docs|
      ensures i < |docs| ==> Matches(docs[i], sel)
      ensures forall j :: 0 <= j < i ==> !Matches(docs[j], sel)
      ensures i == FirstMatch(docs, sel)
    {
      i := 0;
      while i < |docs| && !Matches(docs[i], sel)
        invariant i <= |docs|
        invariant forall j :: 0 <= j < i ==> !Matches(docs[j], sel)
      {
        i := i + 1;
      }
    }

    /** Update(selector, modifier) on the first matching document. */
    method Update(sel: Selector, m: Modifier) returns (out: Outcome)
      requires Valid()
      modifies this
      ensures Valid() && nextId == old(nextId)
      ensures Written(out, docs) == Write(old(docs), sel, m)
    {
      var i := FindFirst(sel);
      if i < |docs| {
        docs := docs[i := Apply(docs[i], m)];
        out := Pass;
      } else {
        out := Fail(NotFound);
      }
    }

    /** Insert: the store gives the document a fresh _id. */
    method Insert(f: Faction) returns (id: ObjectId)
      requires Valid()
      modifies this
      ensures Valid()
      ensures id == old(nextId) && nextId == id + 1
      ensures docs == old(docs) + [f.(id := id)]
    {
      id := nextId;
      docs := docs + [f.(id := id)];
      nextId := nextId + 1;
    }

    // -------------------------------------------------------------------------
    // Creation, alias registration, lookup, edits
    // -------------------------------------------------------------------------

    /** CreateFaction: one new record, whatever tags the hive already uses. */
    method CreateFaction(hiveId: ObjectId, sectorId: ObjectId, ev: EventFactionCreated) returns (out: Outcome)
      requires Valid()
      modifies this
      ensures Valid()
      ensures out == Pass
      ensures docs == old(docs) + [FactionEngine.NewFaction(old(nextId), hiveId, sectorId, ev)]
      ensures Written(out, docs) == FactionEngine.CreateFaction(old(docs), old(nextId), hiveId, sectorId, ev)
    {
      var _ := Insert(Faction(0, hiveId, ev.tag, ev.name, ev.description, ev.privateInfo, ev.acceptHumans,
                              0, false, false, [], [], [FactionSector(sectorId, ev.factionId)]));
      out := Pass;
    }

    method AddFactionSector(hiveId: ObjectId, sectorId: ObjectId, ev: EventFactionCreatedComplete) returns (out: Outcome)
      requires Valid()
      modifies this
      ensures Valid() && nextId == old(nextId)
      ensures Written(out, docs) == FactionEngine.AddFactionSector(old(docs), hiveId, sectorId, ev)
    {
      out := Update(ByTag(hiveId, ev.tag), PushSector(FactionSector(sectorId, ev.factionId)));
    }

    /** GetFaction and getFaction: Find by alias, One(). */
    method GetFaction(hiveId: ObjectId, sectorId: ObjectId, entityId: EntityId) returns (r: Result<Faction>)
      ensures r == FactionEngine.GetFaction(docs, hiveId, sectorId, entityId)
      ensures r.Ok? ==> r.value in docs && r.value.hiveId == hiveId && FactionSector(sectorId, entityId) in r.value.sectors
      ensures r.Err? ==> r.error == NotFound && forall k :: 0 <= k < |docs| ==> !Matches(docs[k], ByAlias(hiveId, sectorId, entityId))
    {
      var i := FindFirst(ByAlias(hiveId, sectorId, entityId));
      if i < |docs| {
        r := Ok(docs[i]);
      } else {
        r := Err(NotFound);
      }
    }

    method EditFaction(hiveId: ObjectId, sectorId: ObjectId, ev: EventFactionEdited) returns (out: Outcome)
      requires Valid()
      modifies this
      ensures Valid() && nextId == old(nextId)
      ensures Written(out, docs) == FactionEngine.EditFaction(old(docs), hiveId, sectorId, ev)
    {
      out := Update(ByAlias(hiveId, sectorId, ev.factionId), SetProfile(ev.tag, ev.name, ev.description, ev.privateInfo));
    }

    method ChangeAutoAccept(hiveId: ObjectId, sectorId: ObjectId, ev: EventFactionAutoAcceptChangeEvent) returns (out: Outcome)
      requires Valid()
      modifies this
      ensures Valid() && nextId == old(nextId)
      ensures Written(out, docs) == FactionEngine.ChangeAutoAccept(old(docs), hiveId, sectorId, ev)
    {
      out := Update(ByAlias(hiveId, sectorId, ev.factionId), SetAutoAccept(ev.autoAcceptMember, ev.autoAcceptPeace));
    }

    // -------------------------------------------------------------------------
    // Relations
    // -------------------------------------------------------------------------

    /** One branch of updateFactionRelation: scan `scan` for a row keyed by
        `key`; on the first one, set the state positionally on from's row for
        to and stop; with none, push (to.id, state) onto from's record. */
    method RelationBranch(scan: seq<FactionRelation>, key: ObjectId, state: RelationState, from: Faction, to: Faction)
      returns (out: Outcome)
      requires Valid()
      modifies this
      ensures Valid() && nextId == old(nextId)
      ensures Written(out, docs) == FactionEngine.RelationRowWrite(old(docs), HasRelation(scan, key), state, from, to)
    {
      var found := false;
      var k := 0;
      while k < |scan|
        invariant k <= |scan| && !found
        invariant forall j :: 0 <= j < k ==> scan[j].factionId != key
        invariant docs == old(docs) && nextId == old(nextId)
      {
        if scan[k].factionId != key {
          k := k + 1;
          continue;
        }
        found := true;
        out := Update(ByIdAndRelation(from.id, to.id), SetRelationState(to.id, state));
        if out.Fail? {
          return;
        }
        break;
      }
      if found {
        return Pass;
      }
      out := Update(ById(from.id), PushRelation(FactionRelation(to.id, state)));
    }

    /** updateFactionRelation: the from-side branch, then the to-side branch,
        which does nothing for a peace request; the first error is returned. */
    method UpdateFactionRelation(state: RelationState, from: Faction, to: Faction) returns (out: Outcome)
      requires Valid()
      modifies this
      ensures Valid() && nextId == old(nextId)
      ensures Written(out, docs) == FactionEngine.UpdateFactionRelation(old(docs), state, from, to)
    {
      out := RelationBranch(from.relations, to.id, state, from, to);
      if !state.SendPeaceRequest? {
        var second := RelationBranch(to.relations, from.id, state, from, to);
        out := out.Then(second);
      }
    }

    /** The body shared by the four relation operations: look both factions
        up, give up on the first failed lookup, then update the relation. */
    method RelationChange(hiveId: ObjectId, sectorId: ObjectId, ev: EventFactionPeaceWar, state: RelationState)
      returns (factions: Option<(Faction, Faction)>, out: Outcome)
      requires Valid()
      modifies this
      ensures Valid() && nextId == old(nextId)
      ensures FactionEngine.RelationReply(factions, out, docs) == FactionEngine.RelationChange(old(docs), hiveId, sectorId, ev, state)
    {
      var from := GetFaction(hiveId, sectorId, ev.fromFactionId);
      var to := GetFaction(hiveId, sectorId, ev.toFactionId);
      if from.Err? {
        return None, Fail(from.error);
      }
      if to.Err? {
        return None, Fail(to.error);
      }
      out := UpdateFactionRelation(state, from.value, to.value);
      factions := Some((from.value, to.value));
    }

    method SendPeaceRequest(hiveId: ObjectId, sectorId: ObjectId, ev: EventFactionPeaceWar)
      returns (factions: Option<(Faction, Faction)>, out: Outcome)
      requires Valid()
      modifies this
      ensures Valid() && nextId == old(nextId)
      ensures FactionEngine.RelationReply(factions, out, docs) == FactionEngine.SendPeaceRequest(old(docs), hiveId, sectorId, ev)
    {
      factions, out := RelationChange(hiveId, sectorId, ev, RelationState.SendPeaceRequest);
    }

    method CancelPeaceRequest(hiveId: ObjectId, sectorId: ObjectId, ev: EventFactionPeaceWar)
      returns (factions: Option<(Faction, Faction)>, out: Outcome)
      requires Valid()
      modifies this
      ensures Valid() && nextId == old(nextId)
      ensures FactionEngine.RelationReply(factions, out, docs) == FactionEngine.CancelPeaceRequest(old(docs), hiveId, sectorId, ev)
    {
      factions, out := RelationChange(hiveId, sectorId, ev, Neutral);
    }

    method AcceptPeace(hiveId: ObjectId, sectorId: ObjectId, ev: EventFactionPeaceWar)
      returns (factions: Option<(Faction, Faction)>, out: Outcome)
      requires Valid()
      modifies this
      ensures Valid() && nextId == old(nextId)
      ensures FactionEngine.RelationReply(factions, out, docs) == FactionEngine.AcceptPeace(old(docs), hiveId, sectorId, ev)
    {
      factions, out := RelationChange(hiveId, sectorId, ev, Peace);
    }

    method DeclareWar(hiveId: ObjectId, sectorId: ObjectId, ev: EventFactionPeaceWar)
      returns (factions: Option<(Faction, Faction)>, out: Outcome)
      requires Valid()
      modifies this
      ensures Valid() && nextId == old(nextId)
      ensures FactionEngine.RelationReply(factions, out, docs) == FactionEngine.DeclareWar(old(docs), hiveId, sectorId, ev)
    {
      factions, out := RelationChange(hiveId, sectorId, ev, War);
    }

    // -------------------------------------------------------------------------
    // Membership
    // -------------------------------------------------------------------------

    method MemberSendJoin(hiveId: ObjectId, sectorId: ObjectId, ev: EventFactionMember) returns (r: Result<Faction>)
      requires Valid()
      modifies this
      ensures Valid() && nextId == old(nextId)
      ensures FactionEngine.Reply(r, docs) == FactionEngine.MemberSendJoin(old(docs), hiveId, sectorId, ev)
    {
      var got := GetFaction(hiveId, sectorId, ev.factionId);
      if got.Err? {
        return Err(got.error);
      }
      var f := got.value;
      var present := ContainsMember(f.members, ev.playerSteamId);
      if present {
        return Err(MemberExists(ev.playerSteamId, f.id));
      }
      var out := Update(ById(f.id), PushMember(FactionMember(ev.playerSteamId, RequestJoin, false)));
      r := if out.Pass? then Ok(f) else Err(out.error);
    }

    method MemberLeave(hiveId: ObjectId, sectorId: ObjectId, ev: EventFactionMember) returns (r: Result<Faction>)
      requires Valid()
      modifies this
      ensures Valid() && nextId == old(nextId)
      ensures FactionEngine.Reply(r, docs) == FactionEngine.MemberLeave(old(docs), hiveId, sectorId, ev)
    {
      var got := GetFaction(hiveId, sectorId, ev.factionId);
      if got.Err? {
        return Err(got.error);
      }
      var f := got.value;
      var present := ContainsMember(f.members, ev.playerSteamId);
      if !present {
        return Err(MemberMissing(ev.playerSteamId, f.id));
      }
      var out := Update(ById(f.id), PullMembers(ev.playerSteamId));
      r := if out.Pass? then Ok(f) else Err(out.error);
    }

    method MemberAcceptJoin(hiveId: ObjectId, sectorId: ObjectId, ev: EventFactionMember) returns (r: Result<Faction>)
      requires Valid()
      modifies this
      ensures Valid() && nextId == old(nextId)
      ensures FactionEngine.Reply(r, docs) == FactionEngine.MemberAcceptJoin(old(docs), hiveId, sectorId, ev)
    {
      var got := GetFaction(hiveId, sectorId, ev.factionId);
      if got.Err? {
        return Err(got.error);
      }
      var f := got.value;
      var present := ContainsMember(f.members, ev.playerSteamId);
      if !present {
        return Err(MemberMissing(ev.playerSteamId, f.id));
      }
      var out := Update(ByIdAndMember(f.id, ev.playerSteamId), SetMemberSteamId(ev.playerSteamId, JoinedCode));
      r := if out.Pass? then Ok(f) else Err(out.error);
    }

    method MemberPromoteDemote(hiveId: ObjectId, sectorId: ObjectId, ev: EventFactionMember, promote: bool)
      returns (r: Result<Faction>)
      requires Valid()
      modifies this
      ensures Valid() && nextId == old(nextId)
      ensures FactionEngine.Reply(r, docs) == FactionEngine.MemberPromoteDemote(old(docs), hiveId, sectorId, ev, promote)
    {
      var got := GetFaction(hiveId, sectorId, ev.factionId);
      if got.Err? {
        return Err(got.error);
      }
      var f := got.value;
      var present := ContainsMember(f.members, ev.playerSteamId);
      if !present {
        return Err(MemberMissing(ev.playerSteamId, f.id));
      }
      var out := Update(ByIdAndMember(f.id, ev.playerSteamId), SetMemberLeader(ev.playerSteamId, promote));
      r := if out.Pass? then Ok(f) else Err(out.error);
    }
  }
}
