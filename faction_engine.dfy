/** The operations of src/hive/faction.go as functions of the faction
    collection. Each one issues the same Find and Update calls, with the same
    selectors and modifiers, in the same order as the Go code; the lemmas then
    say in closed form what each does to the collection. The two concurrent
    lookups and the two concurrent branches of updateFactionRelation run
    sequentially, from-side first. */
module FactionEngine {
  import opened Base
  import opened FactionData

  /** What an operation returns and the collection after it. */
  datatype Reply = Reply(result: Result<Faction>, docs: seq<Faction>)

  /** What the four relation operations return: the two resolved factions
      (nil, nil on a failed lookup), the error, and the collection after. */
  datatype RelationReply = RelationReply(factions: Option<(Faction, Faction)>, outcome: Outcome, docs: seq<Faction>)

  /** Return the looked-up faction with the write's error, as the member
      operations do after their Update. */
  function Finish(w: Written, f: Faction): Reply {
    Reply(if w.outcome.Pass? then Ok(f) else Err(w.outcome.error), w.docs)
  }

  /** A member operation's write that reaches the looked-up record docs[i]
      returns that record and leaves docs[i] replaced by g. */
  lemma FinishOwnWrite(docs: seq<Faction>, i: nat, sel: Selector, m: Modifier, g: Faction)
    requires UniqueIds(docs) && i < |docs|
    requires SelectsId(sel, docs[i].id) && Matches(docs[i], sel) && Apply(docs[i], m) == g
    ensures Finish(Write(docs, sel, m), docs[i]) == Reply(Ok(docs[i]), docs[i := g])
  {
    WriteOwnRecord(docs, i, sel, m);
  }

  // ---------------------------------------------------------------------------
  // Creation, alias registration, lookup, edits
  // ---------------------------------------------------------------------------

  /** The record CreateFaction inserts under the generated _id `id`. Founder,
      auto-accept flags, relations and members keep their zero values. */
  function NewFaction(id: ObjectId, hiveId: ObjectId, sectorId: ObjectId, ev: EventFactionCreated): Faction {
    Faction(id, hiveId, ev.tag, ev.name, ev.description, ev.privateInfo, ev.acceptHumans,
            0, false, false, [], [], [FactionSector(sectorId, ev.factionId)])
  }

  /** CreateFaction: insert NewFaction under the generated _id `id`. The
      tags the hive already uses are not consulted, and only the store's own
      failures (not modelled) could make the insert fail. */
  function CreateFaction(docs: seq<Faction>, id: ObjectId, hiveId: ObjectId, sectorId: ObjectId, ev: EventFactionCreated): Written {
    Written(Pass, docs + [NewFaction(id, hiveId, sectorId, ev)])
  }

  /** AddFactionSector: push the (sector, local id) alias onto the first
      faction of the hive carrying the tag. */
  function AddFactionSector(docs: seq<Faction>, hiveId: ObjectId, sectorId: ObjectId, ev: EventFactionCreatedComplete): Written {
    Write(docs, ByTag(hiveId, ev.tag), PushSector(FactionSector(sectorId, ev.factionId)))
  }

  /** GetFaction / getFaction: the first faction of the hive with the alias. */
  function GetFaction(docs: seq<Faction>, hiveId: ObjectId, sectorId: ObjectId, entityId: EntityId): Result<Faction> {
    Find(docs, ByAlias(hiveId, sectorId, entityId))
  }

  function EditFaction(docs: seq<Faction>, hiveId: ObjectId, sectorId: ObjectId, ev: EventFactionEdited): Written {
    Write(docs, ByAlias(hiveId, sectorId, ev.factionId), SetProfile(ev.tag, ev.name, ev.description, ev.privateInfo))
  }

  function ChangeAutoAccept(docs: seq<Faction>, hiveId: ObjectId, sectorId: ObjectId, ev: EventFactionAutoAcceptChangeEvent): Written {
    Write(docs, ByAlias(hiveId, sectorId, ev.factionId), SetAutoAccept(ev.autoAcceptMember, ev.autoAcceptPeace))
  }

  // ---------------------------------------------------------------------------
  // Relations
  // ---------------------------------------------------------------------------

  /** One branch of updateFactionRelation once its scan is done: with a row
      found, a positional $set of the state on the from-faction's row for
      to.id; otherwise a $push of (to.id, state). Both branches select the
      from-faction's _id. */
  function RelationRowWrite(docs: seq<Faction>, found: bool, state: RelationState, from: Faction, to: Faction): Written {
    if found then Write(docs, ByIdAndRelation(from.id, to.id), SetRelationState(to.id, state))
    else Write(docs, ById(from.id), PushRelation(FactionRelation(to.id, state)))
  }

  /** updateFactionRelation on the snapshots `from` and `to`: the first branch
      scans from.relations for to.id, the second (skipped for a peace request)
      scans to.relations for from.id, and both then write to from's record. */
  function UpdateFactionRelation(docs: seq<Faction>, state: RelationState, from: Faction, to: Faction): Written {
    var w1 := RelationRowWrite(docs, HasRelation(from.relations, to.id), state, from, to);
    if state.SendPeaceRequest? then w1
    else
      var w2 := RelationRowWrite(w1.docs, HasRelation(to.relations, from.id), state, from, to);
      Written(w1.outcome.Then(w2.outcome), w2.docs)
  }

  /** Both factions of a peace/war event, looked up through the originating
      sector's aliases; the from-lookup's error wins. */
  function ResolvePair(docs: seq<Faction>, hiveId: ObjectId, sectorId: ObjectId, ev: EventFactionPeaceWar): Result<(Faction, Faction)> {
    match GetFaction(docs, hiveId, sectorId, ev.fromFactionId)
    case Err(e) => Err(e)
    case Ok(from) =>
      match GetFaction(docs, hiveId, sectorId, ev.toFactionId)
      case Err(e) => Err(e)
      case Ok(to) => Ok((from, to))
  }

  /** The shared body of the four relation operations. */
  function RelationChange(docs: seq<Faction>, hiveId: ObjectId, sectorId: ObjectId, ev: EventFactionPeaceWar, state: RelationState): RelationReply {
    match ResolvePair(docs, hiveId, sectorId, ev)
    case Err(e) => RelationReply(None, Fail(e), docs)
    case Ok((from, to)) =>
      var w := UpdateFactionRelation(docs, state, from, to);
      RelationReply(Some((from, to)), w.outcome, w.docs)
  }

  function SendPeaceRequest(docs: seq<Faction>, hiveId: ObjectId, sectorId: ObjectId, ev: EventFactionPeaceWar): RelationReply {
    RelationChange(docs, hiveId, sectorId, ev, RelationState.SendPeaceRequest)
  }

  /** Writes Neutral: the previous relation is not restored. */
  function CancelPeaceRequest(docs: seq<Faction>, hiveId: ObjectId, sectorId: ObjectId, ev: EventFactionPeaceWar): RelationReply {
    RelationChange(docs, hiveId, sectorId, ev, Neutral)
  }

  function AcceptPeace(docs: seq<Faction>, hiveId: ObjectId, sectorId: ObjectId, ev: EventFactionPeaceWar): RelationReply {
    RelationChange(docs, hiveId, sectorId, ev, Peace)
  }

  function DeclareWar(docs: seq<Faction>, hiveId: ObjectId, sectorId: ObjectId, ev: EventFactionPeaceWar): RelationReply {
    RelationChange(docs, hiveId, sectorId, ev, War)
  }

  // ---------------------------------------------------------------------------
  // Membership
  // ---------------------------------------------------------------------------

  function MemberSendJoin(docs: seq<Faction>, hiveId: ObjectId, sectorId: ObjectId, ev: EventFactionMember): Reply {
    match GetFaction(docs, hiveId, sectorId, ev.factionId)
    case Err(e) => Reply(Err(e), docs)
    case Ok(f) =>
      if HasMember(f.members, ev.playerSteamId) then Reply(Err(MemberExists(ev.playerSteamId, f.id)), docs)
      else Finish(Write(docs, ById(f.id), PushMember(FactionMember(ev.playerSteamId, RequestJoin, false))), f)
  }

  /** Leave, kick and cancel-join: $pull every member with the Steam id. */
  function MemberLeave(docs: seq<Faction>, hiveId: ObjectId, sectorId: ObjectId, ev: EventFactionMember): Reply {
    match GetFaction(docs, hiveId, sectorId, ev.factionId)
    case Err(e) => Reply(Err(e), docs)
    case Ok(f) =>
      if !HasMember(f.members, ev.playerSteamId) then Reply(Err(MemberMissing(ev.playerSteamId, f.id)), docs)
      else Finish(Write(docs, ById(f.id), PullMembers(ev.playerSteamId)), f)
  }

  /** The positional write stores FactionMemberJoined into `members.$.steam_id`,
      not into `state`. */
  function MemberAcceptJoin(docs: seq<Faction>, hiveId: ObjectId, sectorId: ObjectId, ev: EventFactionMember): Reply {
    match GetFaction(docs, hiveId, sectorId, ev.factionId)
    case Err(e) => Reply(Err(e), docs)
    case Ok(f) =>
      if !HasMember(f.members, ev.playerSteamId) then Reply(Err(MemberMissing(ev.playerSteamId, f.id)), docs)
      else Finish(Write(docs, ByIdAndMember(f.id, ev.playerSteamId), SetMemberSteamId(ev.playerSteamId, JoinedCode)), f)
  }

  function MemberPromoteDemote(docs: seq<Faction>, hiveId: ObjectId, sectorId: ObjectId, ev: EventFactionMember, promote: bool): Reply {
    match GetFaction(docs, hiveId, sectorId, ev.factionId)
    case Err(e) => Reply(Err(e), docs)
    case Ok(f) =>
      if !HasMember(f.members, ev.playerSteamId) then Reply(Err(MemberMissing(ev.playerSteamId, f.id)), docs)
      else Finish(Write(docs, ByIdAndMember(f.id, ev.playerSteamId), SetMemberLeader(ev.playerSteamId, promote)), f)
  }

  // ===========================================================================
  // Closed forms and properties
  // ===========================================================================

  /** A change to one record that keeps its _id, hive and aliases leaves every
      alias lookup where it was. */
  lemma LookupStable(docs: seq<Faction>, i: nat, g: Faction, sel: Selector)
    requires i < |docs| && sel.ByAlias?
    requires g.hiveId == docs[i].hiveId && g.sectors == docs[i].sectors
    ensures FirstMatch(docs[i := g], sel) == FirstMatch(docs, sel)
  {
    var d := docs[i := g];
    assert forall k :: 0 <= k < |docs| ==> (Matches(d[k], sel) <==> Matches(docs[k], sel));
  }

  /** With no faction of the hive carrying the tag, the faction CreateFaction
      appends is the one a later AddFactionSector with that tag extends: the
      write succeeds and the new record's aliases become exactly the two
      (sector, local id) pairs, in order. */
  lemma {:induction false} CreateThenAddSector(
    docs: seq<Faction>, id: ObjectId, hiveId: ObjectId, sectorId: ObjectId, ev: EventFactionCreated,
    otherSector: ObjectId, done: EventFactionCreatedComplete)
    requires forall k :: 0 <= k < |docs| ==> !Matches(docs[k], ByTag(hiveId, ev.tag))
    requires done.tag == ev.tag
    ensures var c := CreateFaction(docs, id, hiveId, sectorId, ev);
            var w := AddFactionSector(c.docs, hiveId, otherSector, done);
            && c.outcome == Pass
            && w.outcome == Pass
            && w.docs[..|docs|] == docs
            && w.docs[|docs|].sectors == [FactionSector(sectorId, ev.factionId), FactionSector(otherSector, done.factionId)]
  {
    var created := docs + [NewFaction(id, hiveId, sectorId, ev)];
    assert Matches(created[|docs|], ByTag(hiveId, ev.tag));
    assert FirstMatch(created, ByTag(hiveId, ev.tag)) == |docs|;
  }

  /** CreateFaction checks no tag: creating a second faction with a tag the
      hive already uses still appends a record, and the next AddFactionSector
      for that tag extends the older faction, never the new one. */
  lemma {:induction false} CreateIgnoresTagClash(
    docs: seq<Faction>, id: ObjectId, hiveId: ObjectId, sectorId: ObjectId, ev: EventFactionCreated,
    otherSector: ObjectId, done: EventFactionCreatedComplete)
    requires exists k :: 0 <= k < |docs| && Matches(docs[k], ByTag(hiveId, ev.tag))
    requires done.tag == ev.tag
    ensures var c := CreateFaction(docs, id, hiveId, sectorId, ev);
            var created := c.docs;
            var w := AddFactionSector(created, hiveId, otherSector, done);
            && c.outcome == Pass
            && |created| == |docs| + 1
            && w.outcome == Pass
            && w.docs[|docs|] == created[|docs|]
            && FirstMatch(created, ByTag(hiveId, ev.tag)) == FirstMatch(docs, ByTag(hiveId, ev.tag)) < |docs|
  {
    var created := docs + [NewFaction(id, hiveId, sectorId, ev)];
    var i := FirstMatch(docs, ByTag(hiveId, ev.tag));
    assert created[i] == docs[i];
    assert forall k :: 0 <= k < i ==> created[k] == docs[k];
  }

  /** AddFactionSector fails, writing nothing, exactly when no faction of the
      hive carries the tag; otherwise the first such faction gets the alias
      appended after its existing ones (no duplicate check) and nothing else
      changes. */
  lemma AddFactionSectorEffect(docs: seq<Faction>, hiveId: ObjectId, sectorId: ObjectId, ev: EventFactionCreatedComplete)
    ensures var w := AddFactionSector(docs, hiveId, sectorId, ev);
            var i := FirstMatch(docs, ByTag(hiveId, ev.tag));
            if i == |docs| then w == Written(Fail(NotFound), docs)
            else && w.outcome == Pass
                 && docs[i].hiveId == hiveId && docs[i].tag == ev.tag
                 && w.docs == docs[i := docs[i].(sectors := docs[i].sectors + [FactionSector(sectorId, ev.factionId)])]
  {
  }

  /** EditFaction changes only tag, name, description and private info of the
      first faction with the alias, and fails writing nothing without one. */
  lemma EditFactionEffect(docs: seq<Faction>, hiveId: ObjectId, sectorId: ObjectId, ev: EventFactionEdited)
    ensures var w := EditFaction(docs, hiveId, sectorId, ev);
            var i := FirstMatch(docs, ByAlias(hiveId, sectorId, ev.factionId));
            if i == |docs| then w == Written(Fail(NotFound), docs)
            else && w.outcome == Pass
                 && FactionSector(sectorId, ev.factionId) in docs[i].sectors
                 && w.docs == docs[i := docs[i].(tag := ev.tag, name := ev.name, description := ev.description, privateInfo := ev.privateInfo)]
  {
  }

  /** ChangeAutoAccept changes only the two auto-accept flags. */
  lemma ChangeAutoAcceptEffect(docs: seq<Faction>, hiveId: ObjectId, sectorId: ObjectId, ev: EventFactionAutoAcceptChangeEvent)
    ensures var w := ChangeAutoAccept(docs, hiveId, sectorId, ev);
            var i := FirstMatch(docs, ByAlias(hiveId, sectorId, ev.factionId));
            if i == |docs| then w == Written(Fail(NotFound), docs)
            else && w.outcome == Pass
                 && FactionSector(sectorId, ev.factionId) in docs[i].sectors
                 && w.docs == docs[i := docs[i].(autoAcceptMember := ev.autoAcceptMember, autoAcceptPeace := ev.autoAcceptPeace)]
  {
  }

  // ---------------------------------------------------------------------------
  // Membership properties
  // ---------------------------------------------------------------------------

  /** MemberSendJoin fails writing nothing when the alias lookup fails or the
      Steam id is already a member; otherwise it appends exactly one member
      (steam id, RequestJoin, not leader) at the end of the found faction. */
  lemma MemberSendJoinEffect(docs: seq<Faction>, hiveId: ObjectId, sectorId: ObjectId, ev: EventFactionMember)
    requires UniqueIds(docs)
    ensures var i := FirstMatch(docs, ByAlias(hiveId, sectorId, ev.factionId));
            var r := MemberSendJoin(docs, hiveId, sectorId, ev);
            if i == |docs| then r == Reply(Err(NotFound), docs)
            else if HasMember(docs[i].members, ev.playerSteamId) then r == Reply(Err(MemberExists(ev.playerSteamId, docs[i].id)), docs)
            else r == Reply(Ok(docs[i]), docs[i := docs[i].(members := docs[i].members + [FactionMember(ev.playerSteamId, RequestJoin, false)])])
  {
    var i := FirstMatch(docs, ByAlias(hiveId, sectorId, ev.factionId));
    if i < |docs| {
      var f := docs[i];
      assert GetFaction(docs, hiveId, sectorId, ev.factionId) == Ok(f);
      if !HasMember(f.members, ev.playerSteamId) {
        var m := PushMember(FactionMember(ev.playerSteamId, RequestJoin, false));
        ApplyMemberModifiers(f, ev.playerSteamId, m.member, 0, false);
        FinishOwnWrite(docs, i, ById(f.id), m, f.(members := f.members + [m.member]));
      }
    } else {
      assert GetFaction(docs, hiveId, sectorId, ev.factionId) == Err(NotFound);
    }
  }


  /** A second join request by the same player fails and changes nothing. */
  lemma SendJoinTwice(docs: seq<Faction>, hiveId: ObjectId, sectorId: ObjectId, ev: EventFactionMember)
    requires UniqueIds(docs)
    requires MemberSendJoin(docs, hiveId, sectorId, ev).result.Ok?
    ensures var r1 := MemberSendJoin(docs, hiveId, sectorId, ev);
            var r2 := MemberSendJoin(r1.docs, hiveId, sectorId, ev);
            r2.result.Err? && r2.result.error.MemberExists? && r2.docs == r1.docs
  {
    var sel := ByAlias(hiveId, sectorId, ev.factionId);
    var i := FirstMatch(docs, sel);
    MemberSendJoinEffect(docs, hiveId, sectorId, ev);
    var g := docs[i].(members := docs[i].members + [FactionMember(ev.playerSteamId, RequestJoin, false)]);
    LookupStable(docs, i, g, sel);
    var r1 := MemberSendJoin(docs, hiveId, sectorId, ev);
    assert r1.docs[i] == g;
    assert g.members[|g.members| - 1].steamId == ev.playerSteamId;
    assert HasMember(g.members, ev.playerSteamId);
  }

  /** MemberLeave fails writing nothing when the Steam id is not a member;
      otherwise it removes every member with that id and keeps the others. */
  lemma MemberLeaveEffect(docs: seq<Faction>, hiveId: ObjectId, sectorId: ObjectId, ev: EventFactionMember)
    requires UniqueIds(docs)
    ensures var i := FirstMatch(docs, ByAlias(hiveId, sectorId, ev.factionId));
            var r := MemberLeave(docs, hiveId, sectorId, ev);
            if i == |docs| then r == Reply(Err(NotFound), docs)
            else if !HasMember(docs[i].members, ev.playerSteamId) then r == Reply(Err(MemberMissing(ev.playerSteamId, docs[i].id)), docs)
            else r == Reply(Ok(docs[i]), docs[i := docs[i].(members := WithoutMember(docs[i].members, ev.playerSteamId))])
  {
    var i := FirstMatch(docs, ByAlias(hiveId, sectorId, ev.factionId));
    if i < |docs| {
      var f := docs[i];
      assert GetFaction(docs, hiveId, sectorId, ev.factionId) == Ok(f);
      if HasMember(f.members, ev.playerSteamId) {
        var m := PullMembers(ev.playerSteamId);
        ApplyMemberModifiers(f, ev.playerSteamId, FactionMember(0, RequestJoin, false), 0, false);
        FinishOwnWrite(docs, i, ById(f.id), m, f.(members := WithoutMember(f.members, ev.playerSteamId)));
      }
    } else {
      assert GetFaction(docs, hiveId, sectorId, ev.factionId) == Err(NotFound);
    }
  }


  /** MemberAcceptJoin fails writing nothing when the Steam id is not a
      member; otherwise the first member with that id has its Steam id
      replaced by FactionMemberJoined's value and keeps its state. */
  lemma MemberAcceptJoinEffect(docs: seq<Faction>, hiveId: ObjectId, sectorId: ObjectId, ev: EventFactionMember)
    requires UniqueIds(docs)
    ensures var i := FirstMatch(docs, ByAlias(hiveId, sectorId, ev.factionId));
            var r := MemberAcceptJoin(docs, hiveId, sectorId, ev);
            if i == |docs| then r == Reply(Err(NotFound), docs)
            else if !HasMember(docs[i].members, ev.playerSteamId) then r == Reply(Err(MemberMissing(ev.playerSteamId, docs[i].id)), docs)
            else var ms := docs[i].members;
                 var k := MemberIndex(ms, ev.playerSteamId);
                 r == Reply(Ok(docs[i]), docs[i := docs[i].(members := ms[k := FactionMember(JoinedCode, ms[k].state, ms[k].isLeader)])])
  {
    var i := FirstMatch(docs, ByAlias(hiveId, sectorId, ev.factionId));
    if i < |docs| {
      var f := docs[i];
      assert GetFaction(docs, hiveId, sectorId, ev.factionId) == Ok(f);
      if HasMember(f.members, ev.playerSteamId) {
        var ms := f.members;
        var k := MemberIndex(ms, ev.playerSteamId);
        var m := SetMemberSteamId(ev.playerSteamId, JoinedCode);
        ApplyMemberModifiers(f, ev.playerSteamId, FactionMember(0, RequestJoin, false), JoinedCode, false);
        FinishOwnWrite(docs, i, ByIdAndMember(f.id, ev.playerSteamId), m,
                       f.(members := ms[k := FactionMember(JoinedCode, ms[k].state, ms[k].isLeader)]));
      }
    } else {
      assert GetFaction(docs, hiveId, sectorId, ev.factionId) == Err(NotFound);
    }
  }


  /** MemberPromoteDemote fails writing nothing when the Steam id is not a
      member; otherwise it sets IsLeader := promote on the first member with
      that id and changes nothing else. */
  lemma MemberPromoteDemoteEffect(docs: seq<Faction>, hiveId: ObjectId, sectorId: ObjectId, ev: EventFactionMember, promote: bool)
    requires UniqueIds(docs)
    ensures var i := FirstMatch(docs, ByAlias(hiveId, sectorId, ev.factionId));
            var r := MemberPromoteDemote(docs, hiveId, sectorId, ev, promote);
            if i == |docs| then r == Reply(Err(NotFound), docs)
            else if !HasMember(docs[i].members, ev.playerSteamId) then r == Reply(Err(MemberMissing(ev.playerSteamId, docs[i].id)), docs)
            else var ms := docs[i].members;
                 var k := MemberIndex(ms, ev.playerSteamId);
                 r == Reply(Ok(docs[i]), docs[i := docs[i].(members := ms[k := ms[k].(isLeader := promote)])])
  {
    var i := FirstMatch(docs, ByAlias(hiveId, sectorId, ev.factionId));
    if i < |docs| {
      var f := docs[i];
      assert GetFaction(docs, hiveId, sectorId, ev.factionId) == Ok(f);
      if HasMember(f.members, ev.playerSteamId) {
        var ms := f.members;
        var k := MemberIndex(ms, ev.playerSteamId);
        var m := SetMemberLeader(ev.playerSteamId, promote);
        ApplyMemberModifiers(f, ev.playerSteamId, FactionMember(0, RequestJoin, false), 0, promote);
        FinishOwnWrite(docs, i, ByIdAndMember(f.id, ev.playerSteamId), m, f.(members := ms[k := ms[k].(isLeader := promote)]));
      }
    } else {
      assert GetFaction(docs, hiveId, sectorId, ev.factionId) == Err(NotFound);
    }
  }


  /** Because the accept writes into the Steam id, an accepted player whose id
      was listed once is no longer a member by that id: the member keeps its
      RequestJoin/Joined state, and a following leave for the same player
      fails with "not exists". */
  lemma AcceptJoinForgetsPlayer(docs: seq<Faction>, hiveId: ObjectId, sectorId: ObjectId, ev: EventFactionMember)
    requires UniqueIds(docs)
    requires ev.playerSteamId != JoinedCode
    requires MemberAcceptJoin(docs, hiveId, sectorId, ev).result.Ok?
    requires var ms := MemberAcceptJoin(docs, hiveId, sectorId, ev).result.value.members;
             forall a, b :: 0 <= a < b < |ms| ==> ms[a].steamId != ms[b].steamId
    ensures var i := FirstMatch(docs, ByAlias(hiveId, sectorId, ev.factionId));
            var r := MemberAcceptJoin(docs, hiveId, sectorId, ev);
            var k := MemberIndex(docs[i].members, ev.playerSteamId);
            && i < |docs| && k < |docs[i].members|
            && r.docs[i].members[k].state == docs[i].members[k].state
            && !HasMember(r.docs[i].members, ev.playerSteamId)
            && MemberLeave(r.docs, hiveId, sectorId, ev) == Reply(Err(MemberMissing(ev.playerSteamId, docs[i].id)), r.docs)
  {
    var sel := ByAlias(hiveId, sectorId, ev.factionId);
    var i := FirstMatch(docs, sel);
    MemberAcceptJoinEffect(docs, hiveId, sectorId, ev);
    var ms := docs[i].members;
    var k := MemberIndex(ms, ev.playerSteamId);
    var g := docs[i].(members := ms[k := FactionMember(JoinedCode, ms[k].state, ms[k].isLeader)]);
    var r := MemberAcceptJoin(docs, hiveId, sectorId, ev);
    assert r.docs == docs[i := g];
    forall j | 0 <= j < |g.members|
      ensures g.members[j].steamId != ev.playerSteamId
    {
      if j != k {
        assert g.members[j] == ms[j];
        assert ms[k].steamId == ev.playerSteamId;
        if j < k {
          assert ms[j].steamId != ms[k].steamId;
        } else {
          assert ms[k].steamId != ms[j].steamId;
        }
      }
    }
    LookupStable(docs, i, g, sel);
    assert r.docs[i] == g;
    assert GetFaction(r.docs, hiveId, sectorId, ev.factionId) == Ok(g);
  }

  /** $pull keeps the order of the members it keeps: it distributes over
      concatenation, and is the identity when nobody has the id. */
  lemma {:induction false} WithoutMemberAppend(a: seq<FactionMember>, b: seq<FactionMember>, steamId: SteamId)
    ensures WithoutMember(a + b, steamId) == WithoutMember(a, steamId) + WithoutMember(b, steamId)
  {
    if a == [] {
      assert a + b == b;
    } else {
      assert (a + b)[0] == a[0];
      assert (a + b)[1..] == a[1..] + b;
      WithoutMemberAppend(a[1..], b, steamId);
    }
  }

  lemma {:induction false} WithoutAbsentMember(ms: seq<FactionMember>, steamId: SteamId)
    requires !HasMember(ms, steamId)
    ensures WithoutMember(ms, steamId) == ms
  {
    if ms != [] {
      WithoutAbsentMember(ms[1..], steamId);
    }
  }

  /** Every record lists each Steam id at most once among its members. */
  ghost predicate MembersDistinct(docs: seq<Faction>) {
    forall j :: 0 <= j < |docs| ==> DistinctSteamIds(docs[j].members)
  }

  /** $pull only drops members, so distinct Steam ids stay distinct. */
  lemma {:induction false} WithoutMemberKeepsDistinct(ms: seq<FactionMember>, steamId: SteamId)
    requires DistinctSteamIds(ms)
    ensures DistinctSteamIds(WithoutMember(ms, steamId))
  {
    if ms != [] {
      var tail := ms[1..];
      assert forall a, b :: 0 <= a < b < |tail| ==> tail[a] == ms[a + 1] && tail[b] == ms[b + 1];
      WithoutMemberKeepsDistinct(tail, steamId);
      var rest := WithoutMember(tail, steamId);
      if ms[0].steamId != steamId {
        forall j | 0 <= j < |rest|
          ensures rest[j].steamId != ms[0].steamId
        {
          assert rest[j] in tail;
          var t :| 0 <= t < |tail| && tail[t] == rest[j];
          assert ms[t + 1] == rest[j];
        }
        assert WithoutMember(ms, steamId) == [ms[0]] + rest;
      } else {
        assert WithoutMember(ms, steamId) == rest;
      }
    }
  }

  /** A join request appends only a Steam id the faction does not list yet,
      so every faction keeps its Steam ids distinct. */
  lemma SendJoinKeepsDistinct(docs: seq<Faction>, hiveId: ObjectId, sectorId: ObjectId, ev: EventFactionMember)
    requires UniqueIds(docs) && MembersDistinct(docs)
    ensures MembersDistinct(MemberSendJoin(docs, hiveId, sectorId, ev).docs)
  {
    MemberSendJoinEffect(docs, hiveId, sectorId, ev);
    var i := FirstMatch(docs, ByAlias(hiveId, sectorId, ev.factionId));
    if i < |docs| && !HasMember(docs[i].members, ev.playerSteamId) {
      var ms := docs[i].members;
      var grown := ms + [FactionMember(ev.playerSteamId, RequestJoin, false)];
      forall a, b | 0 <= a < b < |grown|
        ensures grown[a].steamId != grown[b].steamId
      {
        assert grown[a] == ms[a];
      }
    }
  }

  /** Leave, kick and cancel-join keep every faction's Steam ids distinct. */
  lemma LeaveKeepsDistinct(docs: seq<Faction>, hiveId: ObjectId, sectorId: ObjectId, ev: EventFactionMember)
    requires UniqueIds(docs) && MembersDistinct(docs)
    ensures MembersDistinct(MemberLeave(docs, hiveId, sectorId, ev).docs)
  {
    MemberLeaveEffect(docs, hiveId, sectorId, ev);
    var i := FirstMatch(docs, ByAlias(hiveId, sectorId, ev.factionId));
    if i < |docs| {
      WithoutMemberKeepsDistinct(docs[i].members, ev.playerSteamId);
    }
  }

  /** Promotion and demotion change no Steam id, so they keep every faction's
      Steam ids distinct. */
  lemma PromoteDemoteKeepsDistinct(docs: seq<Faction>, hiveId: ObjectId, sectorId: ObjectId, ev: EventFactionMember, promote: bool)
    requires UniqueIds(docs) && MembersDistinct(docs)
    ensures MembersDistinct(MemberPromoteDemote(docs, hiveId, sectorId, ev, promote).docs)
  {
    MemberPromoteDemoteEffect(docs, hiveId, sectorId, ev, promote);
    var i := FirstMatch(docs, ByAlias(hiveId, sectorId, ev.factionId));
    if i < |docs| && HasMember(docs[i].members, ev.playerSteamId) {
      var ms := docs[i].members;
      var k := MemberIndex(ms, ev.playerSteamId);
      var ms' := ms[k := ms[k].(isLeader := promote)];
      assert forall j :: 0 <= j < |ms| ==> ms'[j].steamId == ms[j].steamId;
    }
  }

  /** The join request refuses a Steam id the faction already lists, but the
      accept does not keep that promise: it writes FactionMemberJoined into
      the Steam id, so accepting two pending players of one faction, one
      after the other, leaves two members with the same Steam id. */
  lemma TwoAcceptsShareSteamId(docs: seq<Faction>, hiveId: ObjectId, sectorId: ObjectId, ev1: EventFactionMember, ev2: EventFactionMember)
    requires UniqueIds(docs) && ev2.factionId == ev1.factionId
    requires ev1.playerSteamId != ev2.playerSteamId && ev2.playerSteamId != JoinedCode
    requires var i := FirstMatch(docs, ByAlias(hiveId, sectorId, ev1.factionId));
             && i < |docs| && HasMember(docs[i].members, ev1.playerSteamId)
             && HasMember(docs[i].members, ev2.playerSteamId)
    ensures var i := FirstMatch(docs, ByAlias(hiveId, sectorId, ev1.factionId));
            var r1 := MemberAcceptJoin(docs, hiveId, sectorId, ev1);
            var r2 := MemberAcceptJoin(r1.docs, hiveId, sectorId, ev2);
            && r1.result.Ok? && r2.result.Ok? && i < |r2.docs|
            && !DistinctSteamIds(r2.docs[i].members)
  {
    var sel := ByAlias(hiveId, sectorId, ev1.factionId);
    var i := FirstMatch(docs, sel);
    var ms := docs[i].members;
    var k1 := MemberIndex(ms, ev1.playerSteamId);
    var kb := MemberIndex(ms, ev2.playerSteamId);
    var g1 := docs[i].(members := ms[k1 := FactionMember(JoinedCode, ms[k1].state, ms[k1].isLeader)]);
    MemberAcceptJoinEffect(docs, hiveId, sectorId, ev1);
    var r1 := MemberAcceptJoin(docs, hiveId, sectorId, ev1);
    assert r1.docs == docs[i := g1];
    SameIdsKeepUnique(docs, i, g1);
    LookupStable(docs, i, g1, sel);
    assert g1.members[kb].steamId == ev2.playerSteamId;
    var k2 := MemberIndex(g1.members, ev2.playerSteamId);
    assert k2 <= kb;
    MemberAcceptJoinEffect(r1.docs, hiveId, sectorId, ev2);
    var ms2 := g1.members[k2 := FactionMember(JoinedCode, g1.members[k2].state, g1.members[k2].isLeader)];
    var r2 := MemberAcceptJoin(r1.docs, hiveId, sectorId, ev2);
    assert r2.docs[i].members == ms2;
    if k1 < k2 {
      assert ms2[k1].steamId == ms2[k2].steamId;
    } else {
      assert ms2[k2].steamId == ms2[k1].steamId;
    }
  }

  // ---------------------------------------------------------------------------
  // Relation properties
  // ---------------------------------------------------------------------------

  /** Find-or-insert-then-set of one relation row. */
  function Upsert(rels: seq<FactionRelation>, factionId: ObjectId, state: RelationState): seq<FactionRelation> {
    var k := RelationIndex(rels, factionId);
    if k < |rels| then rels[k := rels[k].(relation := state)] else rels + [FactionRelation(factionId, state)]
  }

  /** The state the first row keyed by factionId records, if any. */
  function RelationOf(rels: seq<FactionRelation>, factionId: ObjectId): Option<RelationState> {
    var k := RelationIndex(rels, factionId);
    if k < |rels| then Some(rels[k].relation) else None
  }

  /** After an upsert the first row for the key holds the new state; every
      other row is kept, and a row is added only when none existed. */
  lemma UpsertFirstRow(rels: seq<FactionRelation>, factionId: ObjectId, state: RelationState)
    ensures var u := Upsert(rels, factionId, state);
            && RelationIndex(u, factionId) == RelationIndex(rels, factionId)
            && RelationIndex(u, factionId) < |u|
            && u[RelationIndex(u, factionId)] == FactionRelation(factionId, state)
            && |u| == (if HasRelation(rels, factionId) then |rels| else |rels| + 1)
            && forall k :: 0 <= k < |rels| && k != RelationIndex(rels, factionId) ==> u[k] == rels[k]
  {
    var u := Upsert(rels, factionId, state);
    var k := RelationIndex(rels, factionId);
    assert u[k].factionId == factionId;
    assert forall j :: 0 <= j < k ==> u[j] == rels[j];
  }

  /** Appending a row keeps the first row for its key. */
  lemma RelationOfAppend(rels: seq<FactionRelation>, row: FactionRelation, factionId: ObjectId)
    requires HasRelation(rels, factionId)
    ensures RelationOf(rels + [row], factionId) == RelationOf(rels, factionId)
  {
    var k := RelationIndex(rels, factionId);
    assert (rels + [row])[k] == rels[k];
    assert forall j :: 0 <= j < k ==> (rels + [row])[j] == rels[j];
  }

  /** The from-faction's relation rows after updateFactionRelation, when the
      snapshot `from` is the stored record: the upsert of the first branch,
      then, unless a peace request or unless to's snapshot already has a row
      for from, one more (to.id, state) row pushed onto the same record. */
  function RelationsAfter(state: RelationState, from: Faction, to: Faction): seq<FactionRelation> {
    var upserted := Upsert(from.relations, to.id, state);
    if state.SendPeaceRequest? || HasRelation(to.relations, from.id) then upserted
    else upserted + [FactionRelation(to.id, state)]
  }

  /** The state a relation operation leaves on from's first row for to, and
      the length change of from's rows. */
  lemma RelationsAfterRow(state: RelationState, from: Faction, to: Faction)
    ensures RelationOf(RelationsAfter(state, from, to), to.id) == Some(state)
    ensures |RelationsAfter(state, from, to)| - |from.relations| ==
              (if HasRelation(from.relations, to.id) then 0 else 1)
              + (if state.SendPeaceRequest? || HasRelation(to.relations, from.id) then 0 else 1)
  {
    UpsertFirstRow(from.relations, to.id, state);
    var u := Upsert(from.relations, to.id, state);
    if !(state.SendPeaceRequest? || HasRelation(to.relations, from.id)) {
      RelationOfAppend(u, FactionRelation(to.id, state), to.id);
    }
  }

  /** Every write of updateFactionRelation selects from's _id, so a record
      with any other _id — to's among them — is never modified. */
  lemma UpdateRelationOnlyTouchesFrom(docs: seq<Faction>, state: RelationState, from: Faction, to: Faction)
    ensures var w := UpdateFactionRelation(docs, state, from, to);
            && |w.docs| == |docs|
            && forall j :: 0 <= j < |docs| && docs[j].id != from.id ==> w.docs[j] == docs[j]
  {
    var w1 := RelationRowWrite(docs, HasRelation(from.relations, to.id), state, from, to);
    forall j | 0 <= j < |docs| && docs[j].id != from.id
      ensures w1.docs[j] == docs[j]
    {
      if HasRelation(from.relations, to.id) {
        WriteKeepsOtherIds(docs, ByIdAndRelation(from.id, to.id), SetRelationState(to.id, state), from.id, j);
      } else {
        WriteKeepsOtherIds(docs, ById(from.id), PushRelation(FactionRelation(to.id, state)), from.id, j);
      }
    }
    if !state.SendPeaceRequest? {
      var w2 := RelationRowWrite(w1.docs, HasRelation(to.relations, from.id), state, from, to);
      forall j | 0 <= j < |docs| && docs[j].id != from.id
        ensures w2.docs[j] == docs[j]
      {
        if HasRelation(to.relations, from.id) {
          WriteKeepsOtherIds(w1.docs, ByIdAndRelation(from.id, to.id), SetRelationState(to.id, state), from.id, j);
        } else {
          WriteKeepsOtherIds(w1.docs, ById(from.id), PushRelation(FactionRelation(to.id, state)), from.id, j);
        }
      }
    }
  }

  /** One branch's write on the stored from-faction docs[i]: a found row gets
      the upsert (the first row for to.id is set), otherwise one row is
      pushed; no other record changes. */
  lemma RowWriteOnRecord(docs: seq<Faction>, i: nat, found: bool, state: RelationState, from: Faction, to: Faction)
    requires UniqueIds(docs) && i < |docs| && docs[i].id == from.id
    requires found ==> HasRelation(docs[i].relations, to.id)
    ensures var rels := docs[i].relations;
            RelationRowWrite(docs, found, state, from, to)
            == Written(Pass, docs[i := docs[i].(relations := if found then Upsert(rels, to.id, state) else rels + [FactionRelation(to.id, state)])])
  {
    if found {
      WriteOwnRecord(docs, i, ByIdAndRelation(from.id, to.id), SetRelationState(to.id, state));
    } else {
      WriteOwnRecord(docs, i, ById(from.id), PushRelation(FactionRelation(to.id, state)));
    }
  }

  /** Setting the state of a row twice is setting it once. */
  lemma UpsertTwice(rels: seq<FactionRelation>, factionId: ObjectId, state: RelationState)
    ensures Upsert(Upsert(rels, factionId, state), factionId, state) == Upsert(rels, factionId, state)
  {
    UpsertFirstRow(rels, factionId, state);
  }

  /** Closed form of updateFactionRelation when the snapshot `from` is the
      stored record docs[i]: it succeeds, and only docs[i]'s rows change, to
      RelationsAfter. */
  lemma UpdateRelationEffect(docs: seq<Faction>, i: nat, state: RelationState, from: Faction, to: Faction)
    requires UniqueIds(docs) && i < |docs| && docs[i] == from
    ensures UpdateFactionRelation(docs, state, from, to)
            == Written(Pass, docs[i := from.(relations := RelationsAfter(state, from, to))])
  {
    var u := Upsert(from.relations, to.id, state);
    var row := FactionRelation(to.id, state);
    UpsertFirstRow(from.relations, to.id, state);
    var d1 := docs[i := from.(relations := u)];
    var w1 := RelationRowWrite(docs, HasRelation(from.relations, to.id), state, from, to);
    RowWriteOnRecord(docs, i, HasRelation(from.relations, to.id), state, from, to);
    assert w1 == Written(Pass, d1);
    if !state.SendPeaceRequest? {
      SameIdsKeepUnique(docs, i, from.(relations := u));
      var found2 := HasRelation(to.relations, from.id);
      RowWriteOnRecord(d1, i, found2, state, from, to);
      if found2 {
        UpsertTwice(from.relations, to.id, state);
        assert d1[i := from.(relations := Upsert(u, to.id, state))] == d1;
      } else {
        assert d1[i := from.(relations := u + [row])] == docs[i := from.(relations := u + [row])];
      }
    }
  }

  /** Replacing a record by one with the same _id keeps _ids unique. */
  lemma SameIdsKeepUnique(docs: seq<Faction>, i: nat, g: Faction)
    requires UniqueIds(docs) && i < |docs| && g.id == docs[i].id
    ensures UniqueIds(docs[i := g])
  {
    assert forall k :: 0 <= k < |docs| ==> docs[i := g][k].id == docs[k].id;
  }

  /** The four relation operations: when either alias lookup fails nothing is
      written and the error is not-found; otherwise the from-faction (docs[i])
      ends with its first row for the to-faction reading `state`, and every
      other record — the to-faction's included, when it is another faction —
      is unchanged. */
  lemma RelationChangeEffect(docs: seq<Faction>, hiveId: ObjectId, sectorId: ObjectId, ev: EventFactionPeaceWar, state: RelationState)
    requires UniqueIds(docs)
    ensures var i := FirstMatch(docs, ByAlias(hiveId, sectorId, ev.fromFactionId));
            var j := FirstMatch(docs, ByAlias(hiveId, sectorId, ev.toFactionId));
            var r := RelationChange(docs, hiveId, sectorId, ev, state);
            if i == |docs| || j == |docs| then r == RelationReply(None, Fail(NotFound), docs)
            else && r == RelationReply(Some((docs[i], docs[j])), Pass,
                                       docs[i := docs[i].(relations := RelationsAfter(state, docs[i], docs[j]))])
                 && RelationOf(r.docs[i].relations, docs[j].id) == Some(state)
                 && (i != j ==> r.docs[j] == docs[j])
  {
    var i := FirstMatch(docs, ByAlias(hiveId, sectorId, ev.fromFactionId));
    var j := FirstMatch(docs, ByAlias(hiveId, sectorId, ev.toFactionId));
    if i < |docs| && j < |docs| {
      UpdateRelationEffect(docs, i, state, docs[i], docs[j]);
      RelationsAfterRow(state, docs[i], docs[j]);
    }
  }

  /** A peace request writes only the requester's row: the from-faction's
      rows become the plain upsert (no second row), so the target still sees
      its previous relation. */
  lemma PeaceRequestIsOneSided(docs: seq<Faction>, hiveId: ObjectId, sectorId: ObjectId, ev: EventFactionPeaceWar)
    requires UniqueIds(docs)
    ensures var i := FirstMatch(docs, ByAlias(hiveId, sectorId, ev.fromFactionId));
            var j := FirstMatch(docs, ByAlias(hiveId, sectorId, ev.toFactionId));
            var r := SendPeaceRequest(docs, hiveId, sectorId, ev);
            i < |docs| && j < |docs| ==>
              && r.docs == docs[i := docs[i].(relations := Upsert(docs[i].relations, docs[j].id, RelationState.SendPeaceRequest))]
              && RelationOf(r.docs[i].relations, docs[j].id) == Some(RelationState.SendPeaceRequest)
  {
    RelationChangeEffect(docs, hiveId, sectorId, ev, RelationState.SendPeaceRequest);
  }

  /** Cancelling a request does not restore the earlier relation: after a
      request and its cancellation the requester's row reads Neutral, whatever
      it read before (War included). */
  lemma CancelDoesNotRestore(docs: seq<Faction>, hiveId: ObjectId, sectorId: ObjectId, ev: EventFactionPeaceWar)
    requires UniqueIds(docs)
    requires ResolvePair(docs, hiveId, sectorId, ev).Ok?
    ensures var (from, to) := ResolvePair(docs, hiveId, sectorId, ev).value;
            var i := FirstMatch(docs, ByAlias(hiveId, sectorId, ev.fromFactionId));
            var r1 := SendPeaceRequest(docs, hiveId, sectorId, ev);
            var r2 := CancelPeaceRequest(r1.docs, hiveId, sectorId, ev);
            && r2.outcome == Pass
            && i < |r2.docs|
            && RelationOf(r2.docs[i].relations, to.id) == Some(Neutral)
  {
    var selFrom := ByAlias(hiveId, sectorId, ev.fromFactionId);
    var selTo := ByAlias(hiveId, sectorId, ev.toFactionId);
    var i := FirstMatch(docs, selFrom);
    var j := FirstMatch(docs, selTo);
    RelationChangeEffect(docs, hiveId, sectorId, ev, RelationState.SendPeaceRequest);
    var r1 := SendPeaceRequest(docs, hiveId, sectorId, ev);
    var g := docs[i].(relations := RelationsAfter(RelationState.SendPeaceRequest, docs[i], docs[j]));
    LookupStable(docs, i, g, selFrom);
    LookupStable(docs, i, g, selTo);
    SameIdsKeepUnique(docs, i, g);
    RelationChangeEffect(r1.docs, hiveId, sectorId, ev, Neutral);
    assert r1.docs[j].id == docs[j].id;
  }

  /** A declaration of war is written twice to the declaring faction's record
      when the target has no row for it yet: the upserted row and a second
      (to, War) row; the target's record stays as it was. */
  lemma DeclareWarAgainstUnrelated(docs: seq<Faction>, hiveId: ObjectId, sectorId: ObjectId, ev: EventFactionPeaceWar)
    requires UniqueIds(docs)
    ensures var i := FirstMatch(docs, ByAlias(hiveId, sectorId, ev.fromFactionId));
            var j := FirstMatch(docs, ByAlias(hiveId, sectorId, ev.toFactionId));
            var r := DeclareWar(docs, hiveId, sectorId, ev);
            i < |docs| && j < |docs| && i != j
            && !HasRelation(docs[i].relations, docs[j].id) && !HasRelation(docs[j].relations, docs[i].id) ==>
              && |r.docs| == |docs|
              && r.docs[i].relations == docs[i].relations + [FactionRelation(docs[j].id, War), FactionRelation(docs[j].id, War)]
              && r.docs[j] == docs[j]
  {
    RelationChangeEffect(docs, hiveId, sectorId, ev, War);
  }
}
