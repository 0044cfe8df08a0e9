/** The faction records of src/hive/faction.go, the event payloads the
    operations take, and the three document-store primitives the operations are
    built from: update the first document a selector matches, `$push` onto an
    array, and `$pull` every matching element from an array. */
module FactionData {
  import opened Base

  /** bson.ObjectId: only compared for equality. */
  type ObjectId = nat
  /** The per-sector local identifier of a faction (int64; never computed on). */
  type EntityId = int
  /** A player's Steam id (uint64; never computed on). */
  type SteamId = nat

  /** FactionRelationState, in its iota order 0..3. */
  datatype RelationState = Neutral | SendPeaceRequest | Peace | War

  /** FactionMemberState, in its iota order 0..1. */
  datatype MemberState = RequestJoin | Joined

  /** The integer FactionMemberJoined is stored as (its iota value). */
  const JoinedCode: nat := 1

  /** One alias: the faction's local id inside one sector. */
  datatype FactionSector = FactionSector(sectorId: ObjectId, entityId: EntityId)

  /** One relation row. Its bson tag says `sector_id` while every query and
      write says `faction_id`; rows are keyed by factionId throughout, which
      assumes both names denote the same stored field. */
  datatype FactionRelation = FactionRelation(factionId: ObjectId, relation: RelationState)

  datatype FactionMember = FactionMember(steamId: SteamId, state: MemberState, isLeader: bool)

  datatype Faction = Faction(
    id: ObjectId,
    hiveId: ObjectId,
    tag: string,
    name: string,
    description: string,
    privateInfo: string,
    acceptHumans: bool,
    founderSteamId: SteamId,
    autoAcceptMember: bool,
    autoAcceptPeace: bool,
    relations: seq<FactionRelation>,
    members: seq<FactionMember>,
    sectors: seq<FactionSector>)

  // ---------------------------------------------------------------------------
  // Event payloads consumed by the operations
  // ---------------------------------------------------------------------------

  datatype EventFactionCreated = EventFactionCreated(
    factionId: EntityId,
    tag: string,
    name: string,
    description: string,
    privateInfo: string,
    acceptHumans: bool,
    founderId: EntityId,
    founderSteamId: SteamId,
    founderName: string)

  datatype EventFactionCreatedComplete = EventFactionCreatedComplete(factionId: EntityId, tag: string)

  datatype EventFactionEdited = EventFactionEdited(
    factionId: EntityId, tag: string, name: string, description: string, privateInfo: string)

  datatype EventFactionAutoAcceptChangeEvent = EventFactionAutoAcceptChangeEvent(
    factionId: EntityId, autoAcceptMember: bool, autoAcceptPeace: bool)

  datatype EventFactionPeaceWar = EventFactionPeaceWar(fromFactionId: EntityId, toFactionId: EntityId)

  datatype EventFactionMember = EventFactionMember(factionId: EntityId, playerSteamId: SteamId)

  // ---------------------------------------------------------------------------
  // Searches inside one record
  // ---------------------------------------------------------------------------

  /** Position of the first relation row keyed by factionId, or |rels| if none. */
  function RelationIndex(rels: seq<FactionRelation>, factionId: ObjectId): (i: nat)
    ensures i <= |rels|
    ensures i < |rels| ==> rels[i].factionId == factionId
    ensures forall j :: 0 <= j < i ==> rels[j].factionId != factionId
  {
    if rels == [] then 0
    else if rels[0].factionId == factionId then 0
    else 1 + RelationIndex(rels[1..], factionId)
  }

  predicate HasRelation(rels: seq<FactionRelation>, factionId: ObjectId) {
    RelationIndex(rels, factionId) < |rels|
  }

  /** Position of the first member with steamId, or |ms| if none. */
  function MemberIndex(ms: seq<FactionMember>, steamId: SteamId): (i: nat)
    ensures i <= |ms|
    ensures i < |ms| ==> ms[i].steamId == steamId
    ensures forall j :: 0 <= j < i ==> ms[j].steamId != steamId
  {
    if ms == [] then 0
    else if ms[0].steamId == steamId then 0
    else 1 + MemberIndex(ms[1..], steamId)
  }

  predicate HasMember(ms: seq<FactionMember>, steamId: SteamId) {
    MemberIndex(ms, steamId) < |ms|
  }

  /** No Steam id is listed twice among a faction's members. */
  predicate DistinctSteamIds(ms: seq<FactionMember>) {
    forall a, b :: 0 <= a < b < |ms| ==> ms[a].steamId != ms[b].steamId
  }

  /** `$pull: {members: {steam_id: steamId}}`: every member with that id goes,
      the others stay in their order. */
  function WithoutMember(ms: seq<FactionMember>, steamId: SteamId): (r: seq<FactionMember>)
    ensures forall m :: m in r <==> m in ms && m.steamId != steamId
    ensures |r| <= |ms|
  {
    if ms == [] then []
    else (if ms[0].steamId == steamId then [] else [ms[0]]) + WithoutMember(ms[1..], steamId)
  }

  // ---------------------------------------------------------------------------
  // Store primitives
  // ---------------------------------------------------------------------------

  /** The query documents the operations pass to Find and Update. */
  datatype Selector =
    | ById(id: ObjectId)                                                // {_id}
    | ByTag(hiveId: ObjectId, tag: string)                              // {hive_id, tag}
    | ByAlias(hiveId: ObjectId, sectorId: ObjectId, entityId: EntityId) // {hive_id, sectors: {$elemMatch: {sector_id, entity_id}}}
    | ByIdAndRelation(id: ObjectId, factionId: ObjectId)                // {_id, relations.faction_id}
    | ByIdAndMember(id: ObjectId, steamId: SteamId)                     // {_id, members.steam_id}

  predicate Matches(f: Faction, sel: Selector) {
    match sel
    case ById(id) => f.id == id
    case ByTag(h, t) => f.hiveId == h && f.tag == t
    case ByAlias(h, s, e) => f.hiveId == h && FactionSector(s, e) in f.sectors
    case ByIdAndRelation(id, fid) => f.id == id && HasRelation(f.relations, fid)
    case ByIdAndMember(id, sid) => f.id == id && HasMember(f.members, sid)
  }

  /** The update documents the operations pass to Update. A positional
      `$` operator names the array key of the selector, whose first matching
      element it addresses. */
  datatype Modifier =
    | PushSector(sector: FactionSector)                                    // $push sectors
    | SetProfile(tag: string, name: string, description: string, privateInfo: string)
    | SetAutoAccept(autoAcceptMember: bool, autoAcceptPeace: bool)
    | PushRelation(row: FactionRelation)                                   // $push relations
    | SetRelationState(factionId: ObjectId, state: RelationState)          // $set relations.$.state
    | PushMember(member: FactionMember)                                    // $push members
    | PullMembers(steamId: SteamId)                                        // $pull members
    | SetMemberSteamId(steamId: SteamId, value: SteamId)                   // $set members.$.steam_id
    | SetMemberLeader(steamId: SteamId, isLeader: bool)                    // $set members.$.is_leader

  /** The record after one modifier; no modifier touches _id or hive_id. */
  function Apply(f: Faction, m: Modifier): (g: Faction)
    ensures g.id == f.id && g.hiveId == f.hiveId
  {
    match m
    case PushSector(s) => f.(sectors := f.sectors + [s])
    case SetProfile(t, n, d, p) => f.(tag := t, name := n, description := d, privateInfo := p)
    case SetAutoAccept(am, ap) => f.(autoAcceptMember := am, autoAcceptPeace := ap)
    case PushRelation(row) => f.(relations := f.relations + [row])
    case SetRelationState(fid, st) =>
      var k := RelationIndex(f.relations, fid);
      if k < |f.relations| then f.(relations := f.relations[k := f.relations[k].(relation := st)]) else f
    case PushMember(mem) => f.(members := f.members + [mem])
    case PullMembers(sid) => f.(members := WithoutMember(f.members, sid))
    case SetMemberSteamId(sid, v) =>
      var k := MemberIndex(f.members, sid);
      if k < |f.members| then f.(members := f.members[k := f.members[k].(steamId := v)]) else f
    case SetMemberLeader(sid, l) =>
      var k := MemberIndex(f.members, sid);
      if k < |f.members| then f.(members := f.members[k := f.members[k].(isLeader := l)]) else f
  }

  /** What each member modifier does to a record, stated field-wise. */
  lemma ApplyMemberModifiers(f: Faction, steamId: SteamId, mem: FactionMember, v: SteamId, leader: bool)
    ensures Apply(f, PushMember(mem)) == f.(members := f.members + [mem])
    ensures Apply(f, PullMembers(steamId)) == f.(members := WithoutMember(f.members, steamId))
    ensures var k := MemberIndex(f.members, steamId);
            k < |f.members| ==>
              && Apply(f, SetMemberSteamId(steamId, v)) == f.(members := f.members[k := f.members[k].(steamId := v)])
              && Apply(f, SetMemberLeader(steamId, leader)) == f.(members := f.members[k := f.members[k].(isLeader := leader)])
  {
  }

  /** Position of the first document the selector matches, or |docs| if none. */
  function FirstMatch(docs: seq<Faction>, sel: Selector): (i: nat)
    ensures i <= |docs|
    ensures i < |docs| ==> Matches(docs[i], sel)
    ensures forall j :: 0 <= j < i ==> !Matches(docs[j], sel)
  {
    if docs == [] then 0
    else if Matches(docs[0], sel) then 0
    else 1 + FirstMatch(docs[1..], sel)
  }

  /** Find(selector).One(): the first matching document, or not-found. */
  function Find(docs: seq<Faction>, sel: Selector): Result<Faction> {
    var i := FirstMatch(docs, sel);
    if i < |docs| then Ok(docs[i]) else Err(NotFound)
  }

  /** The outcome of a write and the collection after it. */
  datatype Written = Written(outcome: Outcome, docs: seq<Faction>)

  /** Update(selector, modifier): the first matching document gets the
      modifier; with no match the collection is unchanged and the result is
      not-found. */
  function Write(docs: seq<Faction>, sel: Selector, m: Modifier): Written {
    var i := FirstMatch(docs, sel);
    if i < |docs| then Written(Pass, docs[i := Apply(docs[i], m)]) else Written(Fail(NotFound), docs)
  }

  /** Find succeeds exactly when some document matches, and then returns a
      matching document of the collection. */
  lemma FindMeaning(docs: seq<Faction>, sel: Selector)
    ensures Find(docs, sel).Ok? <==> exists j :: 0 <= j < |docs| && Matches(docs[j], sel)
    ensures Find(docs, sel).Ok? ==> Find(docs, sel).value in docs && Matches(Find(docs, sel).value, sel)
    ensures Find(docs, sel).Err? ==> Find(docs, sel).error == NotFound
  {
  }

  /** Update changes at most one document, the first match, and fails with
      not-found, writing nothing, when no document matches. */
  lemma WriteMeaning(docs: seq<Faction>, sel: Selector, m: Modifier)
    ensures var w := Write(docs, sel, m);
            && |w.docs| == |docs|
            && (w.outcome == Pass <==> exists j :: 0 <= j < |docs| && Matches(docs[j], sel))
            && (w.outcome != Pass ==> w.outcome == Fail(NotFound) && w.docs == docs)
            && forall j :: 0 <= j < |docs| && j != FirstMatch(docs, sel) ==> w.docs[j] == docs[j]
  {
  }

  /** The store keeps _id unique (MongoDB's primary key). */
  ghost predicate UniqueIds(docs: seq<Faction>) {
    forall i, j :: 0 <= i < j < |docs| ==> docs[i].id != docs[j].id
  }

  /** With unique ids, a write whose selector names a document's own _id and
      matches that document reaches exactly that document. */
  lemma WriteOwnRecord(docs: seq<Faction>, i: nat, sel: Selector, m: Modifier)
    requires UniqueIds(docs) && i < |docs|
    requires SelectsId(sel, docs[i].id) && Matches(docs[i], sel)
    ensures Write(docs, sel, m) == Written(Pass, docs[i := Apply(docs[i], m)])
  {
  }

  /** The selector names _id = id among its conditions. */
  predicate SelectsId(sel: Selector, id: ObjectId) {
    (sel.ById? || sel.ByIdAndRelation? || sel.ByIdAndMember?) && sel.id == id
  }

  /** A write selecting by _id leaves every document with another _id as it was. */
  lemma WriteKeepsOtherIds(docs: seq<Faction>, sel: Selector, m: Modifier, id: ObjectId, j: nat)
    requires SelectsId(sel, id)
    requires j < |docs| && docs[j].id != id
    ensures Write(docs, sel, m).docs[j] == docs[j]
  {
  }
}
