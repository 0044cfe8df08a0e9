# Sector event relay: faction engine, event dispatcher, connection hub

A Dafny model of the core of the torchapi hive system, a Go service that
relays events between the game-server sectors of a hive. It has three parts.

- **Faction engine** (`src/hive/faction.go`). Factions are MongoDB documents.
  Each carries a list of aliases: (sector, local entity id) pairs naming the
  same faction in different sectors. The engine creates factions, registers
  aliases, looks factions up by alias, edits them, manages membership
  (join request, leave/kick, accept, promote/demote), and records relations
  between factions (peace request, cancel, peace, war).
- **Event dispatcher** (`src/hive/system.go`, `ProcessSectorEvent`). It
  decodes a sector's `EventSectorChange` envelope, switches on its type, runs
  at most one store operation, and says whether the event is broadcast.
- **Connection hub** (`src/notification/hub.go`). A registry of websocket
  clients, each tagged with a hive and a sector and owning a bounded outbound
  queue. One method models each case of `Hub.Run`'s `select`.

## Layout

- `base.dfy` (`Base`): Option, Result, the core's errors, and `Outcome`
  (Go's `error` result).
- `faction_data.dfy` (`FactionData`):
  - the records and state enums;
  - the event payloads;
  - the store primitives the operations are built from: Find the first
    match; Update the first match (not-found if there is none); `$push`;
    `$pull`; positional `$`.
- `faction_engine.dfy` (`FactionEngine`):
  - every faction operation as a function of the collection, issuing the
    same inserts, queries and updates in the same order as the Go code
    (`CreateFaction` inserts the record `NewFaction` builds);
  - lemmas giving each operation's effect in closed form, and the properties
    that follow.
- `faction_system.dfy` (`FactionSystem`): the `System` class.
  - It holds the collection (`docs`) and the next generated `_id`.
  - Its methods run the Go scan loops with their `found` flags and `break`s.
  - Each method is proved to match its `FactionEngine` function.
  - Its invariant `Valid` says `_id`s are unique.
- `sector_events.dfy` (`SectorEvents`): the dispatcher.
  - `PlanEvent` is the pure type switch.
  - `ProcessSectorEvent` runs it against a `System`.
- `hub.dfy` (`Notification`):
  - the `Client` and `Hub` classes;
  - the newline-flattening and trimming applied to routed messages.

## Behaviour modelled as the code has it

The model follows the code as written. Where a code comment or the rest of
the code suggests otherwise, the model still does what the code does:

- `CreateFaction` does not check whether the hive already uses the tag. A
  second faction with the same tag is stored, and later alias registrations
  for that tag go to the older faction (`CreateIgnoresTagClash`).
- Both branches of `updateFactionRelation` write to the from-faction's
  record; the to-faction's record is never changed
  (`UpdateRelationOnlyTouchesFrom`).
  - When the to-faction has no row for the from-faction, the second branch
    pushes a second (to, state) row onto the from-faction
    (`DeclareWarAgainstUnrelated`).
- `CancelPeaceRequest` writes Neutral and does not restore the earlier
  relation, although the comment at faction.go:250 says it should reset the
  relation to the to-faction's state (`CancelDoesNotRestore`).
- A peace request skips the second branch of `updateFactionRelation`, as the
  comment at faction.go:369 says (`PeaceRequestIsOneSided`).
- `MemberAcceptJoin` writes `FactionMemberJoined` (the integer 1) into the
  member's `steam_id`, not into `state`. The member keeps its state and loses
  its Steam id (`AcceptJoinForgetsPlayer`). The join request refuses a
  Steam id that is already listed, and join, leave and promote/demote keep
  the Steam ids of a faction distinct (`SendJoinKeepsDistinct`,
  `LeaveKeepsDistinct`, `PromoteDemoteKeepsDistinct`). Two accepts in one
  faction break this: both members end with Steam id 1
  (`TwoAcceptsShareSteamId`).
- `Hub.Run` calls the event handler without checking for nil. `NewHub`
  leaves it nil, so an event that arrives before `RegisterEventHandler`
  panics (`Hub.HandleEvent` reports this as `panicked`).
- The dispatcher acts on two event types only, `factionCreated` and
  `factionCreatedComplete`. Every other type is ignored without error.

## Model

| member | source | states |
|---|---|---|
| FactionData.RelationIndex | src/hive/faction.go:325-348 | position of the first relation row keyed by the faction id, as the relation scan finds it: that row has the key and no earlier row does; the length when there is none |
| FactionData.MemberIndex | src/hive/faction.go:518-528 | position of the first member with the Steam id, which the positional `members.$` write addresses; no earlier member has the id |
| FactionData.WithoutMember | src/hive/faction.go:479-490 | `$pull`: a member is kept exactly when it was there and has another Steam id; never longer than before |
| FactionData.FirstMatch | src/hive/faction.go:302-316 | position of the first document the query matches: it matches and no earlier one does |
| FactionData.Find | src/hive/faction.go:298-317 | no ensures; Find().One() on the collection, whose closed form is FindMeaning |
| FactionData.Write | src/hive/faction.go:124-137 | no ensures; Update on the first matching document, whose closed form is WriteMeaning |
| FactionData.Apply | src/hive/faction.go:124-552 | the update documents `$push`, `$set`, `$pull` and `$set` through the positional `$`; no modifier changes `_id` or `hive_id` (the member modifiers field by field in ApplyMemberModifiers) |
| FactionData.FindMeaning | src/hive/faction.go:298-317 | Find().One() succeeds exactly when some document matches, and then returns a matching stored document; otherwise the error is not-found |
| FactionData.WriteMeaning | src/hive/faction.go:124-137 | Update succeeds exactly when some document matches and changes only the first match; with no match it fails with not-found and writes nothing |
| FactionData.WriteOwnRecord | src/hive/faction.go:439-451 | with unique `_id`s, an update that selects a record's own `_id` (and matches it) changes exactly that record |
| FactionData.WriteKeepsOtherIds | src/hive/faction.go:354-365 | an update selecting `_id` leaves every record with another `_id` untouched |
| FactionEngine.CreateFaction | src/hive/faction.go:100-118 | no ensures; Insert of a fresh record that always succeeds, whose properties are CreateThenAddSector, CreateIgnoresTagClash and AtMostOneStoreCall |
| FactionEngine.AddFactionSector | src/hive/faction.go:120-138 | no ensures; its closed form is AddFactionSectorEffect |
| FactionEngine.GetFaction | src/hive/faction.go:298-317 | no ensures; getFaction as Find by alias, whose closed form is FindMeaning (and the GetFaction method of System) |
| FactionEngine.EditFaction | src/hive/faction.go:161-184 | no ensures; its closed form is EditFactionEffect |
| FactionEngine.ChangeAutoAccept | src/hive/faction.go:186-207 | no ensures; its closed form is ChangeAutoAcceptEffect |
| FactionEngine.UpdateFactionRelation | src/hive/faction.go:319-422 | no ensures; its properties are RelationsAfterRow, UpdateRelationOnlyTouchesFrom and UpdateRelationEffect |
| FactionEngine.RelationChange | src/hive/faction.go:209-296 | no ensures; the shared body of the four relation operations, whose closed form is RelationChangeEffect |
| FactionEngine.SendPeaceRequest | src/hive/faction.go:209-229 | no ensures; RelationChange with SendPeaceRequest, see PeaceRequestIsOneSided |
| FactionEngine.CancelPeaceRequest | src/hive/faction.go:231-252 | no ensures; RelationChange with Neutral, see CancelDoesNotRestore |
| FactionEngine.AcceptPeace | src/hive/faction.go:254-274 | no ensures; RelationChange with Peace, see RelationChangeEffect |
| FactionEngine.DeclareWar | src/hive/faction.go:276-296 | no ensures; RelationChange with War, see DeclareWarAgainstUnrelated |
| FactionEngine.MemberSendJoin | src/hive/faction.go:424-457 | no ensures; its closed form is MemberSendJoinEffect |
| FactionEngine.MemberLeave | src/hive/faction.go:459-496 | no ensures; its closed form is MemberLeaveEffect |
| FactionEngine.MemberAcceptJoin | src/hive/faction.go:498-534 | no ensures; its closed form is MemberAcceptJoinEffect |
| FactionEngine.MemberPromoteDemote | src/hive/faction.go:536-572 | no ensures; its closed form is MemberPromoteDemoteEffect |
| FactionEngine.CreateThenAddSector | src/hive/faction.go:104-117 | a created faction has exactly the one alias (sector, local id); if the tag was free in the hive, the next AddFactionSector for it extends that record, giving exactly the two aliases in order |
| FactionEngine.CreateIgnoresTagClash | src/hive/faction.go:100-118 | creating a faction with a tag already used in the hive still stores a new record (no uniqueness check), and AddFactionSector for that tag then goes to the older faction |
| FactionEngine.AddFactionSectorEffect | src/hive/faction.go:124-137 | fails writing nothing exactly when no faction of the hive has the tag; otherwise appends exactly one alias to the first such faction, keeping earlier aliases and their order, and changes nothing else |
| FactionEngine.EditFactionEffect | src/hive/faction.go:165-183 | only tag, name, description and private info of the first faction with the alias change; fails writing nothing when no faction has it |
| FactionEngine.ChangeAutoAcceptEffect | src/hive/faction.go:190-206 | only the two auto-accept flags of the first faction with the alias change; fails writing nothing when no faction has it |
| FactionEngine.MemberSendJoinEffect | src/hive/faction.go:425-451 | fails writing nothing on a failed lookup (not-found) or an existing member (MemberExists); otherwise appends exactly (steam id, RequestJoin, not leader) at the end of the found faction and returns it |
| FactionEngine.SendJoinTwice | src/hive/faction.go:430-434 | a second join request by the same player fails with MemberExists and writes nothing |
| FactionEngine.MemberLeaveEffect | src/hive/faction.go:465-490 | fails writing nothing when the player is no member (MemberMissing); otherwise every member with the Steam id is removed and the others are kept in order |
| FactionEngine.WithoutMemberAppend | src/hive/faction.go:484-488 | `$pull` works element by element: it distributes over concatenation |
| FactionEngine.WithoutAbsentMember | src/hive/faction.go:484-488 | `$pull` of an id nobody has leaves the members as they were |
| FactionEngine.MemberAcceptJoinEffect | src/hive/faction.go:504-528 | fails writing nothing when the player is no member; otherwise the first member with the id gets steam id := FactionMemberJoined and keeps its state and leader flag; nothing else changes |
| FactionEngine.AcceptJoinForgetsPlayer | src/hive/faction.go:518-528 | after an accept, a player listed once is no longer a member by their Steam id, their state is unchanged, and a following leave fails with MemberMissing |
| FactionEngine.WithoutMemberKeepsDistinct | src/hive/faction.go:479-490 | `$pull` of members with distinct Steam ids leaves them distinct |
| FactionEngine.SendJoinKeepsDistinct | src/hive/faction.go:424-457 | a join request keeps every faction's Steam ids distinct: it only appends an id the faction does not list |
| FactionEngine.LeaveKeepsDistinct | src/hive/faction.go:459-496 | leave, kick and cancel-join keep every faction's Steam ids distinct |
| FactionEngine.PromoteDemoteKeepsDistinct | src/hive/faction.go:536-572 | promote and demote keep every faction's Steam ids distinct |
| FactionEngine.TwoAcceptsShareSteamId | src/hive/faction.go:504-528 | accepting two different pending players of one faction in turn succeeds both times and leaves two members with the same Steam id (FactionMemberJoined) |
| FactionEngine.MemberPromoteDemoteEffect | src/hive/faction.go:542-566 | fails writing nothing when the player is no member; otherwise sets the leader flag of the first member with the id to `promote` and changes nothing else |
| FactionEngine.UpsertFirstRow | src/hive/faction.go:325-366 | after the first branch, the first row for the to-faction holds the new state; other rows are kept; a row is added only when none existed |
| FactionEngine.RowWriteOnRecord | src/hive/faction.go:325-366 | one branch's write lands on the from-faction's own record: with a row found, that record's first row for the to-faction takes the state; otherwise the (to, state) row is appended to its rows; every other record is unchanged and the write succeeds |
| FactionEngine.UpsertTwice | src/hive/faction.go:380-398 | writing the same state into the same row twice is writing it once |
| FactionEngine.RelationOfAppend | src/hive/faction.go:406-418 | a row pushed after an existing row for the same faction does not change what the first row says |
| FactionEngine.RelationsAfterRow | src/hive/faction.go:319-422 | after updateFactionRelation the from-faction's first row for the to-faction reads the new state; its rows grow by one per branch that found no row, and the second branch never runs for a peace request |
| FactionEngine.UpdateRelationOnlyTouchesFrom | src/hive/faction.go:368-419 | every write of both branches selects the from-faction's `_id`: every record with another `_id`, the to-faction's included, is unchanged |
| FactionEngine.UpdateRelationEffect | src/hive/faction.go:319-422 | on the stored from-faction, updateFactionRelation succeeds and changes only that record's relation rows |
| FactionEngine.RelationChangeEffect | src/hive/faction.go:209-296 | each relation operation resolves both factions through the originating sector's aliases; if either lookup fails it writes nothing and returns not-found; otherwise the from-faction's row for the to-faction reads the operation's state and the to-faction's record is unchanged |
| FactionEngine.PeaceRequestIsOneSided | src/hive/faction.go:368-372 | a peace request only upserts the requester's row (no second row is written) |
| FactionEngine.CancelDoesNotRestore | src/hive/faction.go:245-251 | after a request and its cancellation the requester's row reads Neutral, whatever it read before |
| FactionEngine.DeclareWarAgainstUnrelated | src/hive/faction.go:319-422 | war between two factions without rows for each other appends two (to, War) rows to the declaring faction and leaves the target's record as it was |
| FactionSystem.ContainsMember | src/hive/faction.go:465-470 | the member scan with its `found` flag: true exactly when some member has the Steam id |
| FactionSystem.System.FindFirst | src/hive/faction.go:302-316 | the linear search of Find().One(): first matching position, or the length |
| FactionSystem.System.Update | src/hive/faction.go:124-137 | Update on the stored collection has the effect and result of the Update primitive, keeps `_id`s unique and generates no `_id` |
| FactionSystem.System.Insert | src/hive/faction.go:104-117 | Insert appends the document under a freshly generated `_id`, keeping `_id`s unique |
| FactionSystem.System.CreateFaction | src/hive/faction.go:100-118 | appends exactly the new faction (copied profile, the single alias, zero founder and flags, no members or relations) and succeeds |
| FactionSystem.System.AddFactionSector | src/hive/faction.go:120-138 | result and new collection are those of AddFactionSector |
| FactionSystem.System.GetFaction | src/hive/faction.go:140-159 | returns a stored faction of the hive holding the alias, or not-found exactly when none holds it |
| FactionSystem.System.EditFaction | src/hive/faction.go:161-184 | result and new collection are those of EditFaction |
| FactionSystem.System.ChangeAutoAccept | src/hive/faction.go:186-207 | result and new collection are those of ChangeAutoAccept |
| FactionSystem.System.RelationBranch | src/hive/faction.go:325-366 | the scan loop of one branch: with a row found, the positional state update (its error returned), otherwise the push |
| FactionSystem.System.UpdateFactionRelation | src/hive/faction.go:319-422 | both branches run from-side first, the first error is returned, and the collection ends as updateFactionRelation describes |
| FactionSystem.System.RelationChange | src/hive/faction.go:209-229 | the shared lookup-then-update body; both factions are returned only when both lookups succeed |
| FactionSystem.System.SendPeaceRequest | src/hive/faction.go:209-229 | writes SendPeaceRequest as RelationChangeEffect describes |
| FactionSystem.System.CancelPeaceRequest | src/hive/faction.go:231-252 | writes Neutral |
| FactionSystem.System.AcceptPeace | src/hive/faction.go:254-274 | writes Peace |
| FactionSystem.System.DeclareWar | src/hive/faction.go:276-296 | writes War |
| FactionSystem.System.MemberSendJoin | src/hive/faction.go:424-457 | result and new collection are those of MemberSendJoinEffect |
| FactionSystem.System.MemberLeave | src/hive/faction.go:459-496 | result and new collection are those of MemberLeaveEffect |
| FactionSystem.System.MemberAcceptJoin | src/hive/faction.go:498-534 | result and new collection are those of MemberAcceptJoinEffect |
| FactionSystem.System.MemberPromoteDemote | src/hive/faction.go:536-572 | result and new collection are those of MemberPromoteDemoteEffect |
| SectorEvents.PlanEvent | src/hive/system.go:38-75 | an error exactly when the envelope, or the payload of one of the two known types, fails to decode. Undecodable envelope: error, no broadcast, no call. `factionCreated`: broadcast even when its payload fails to decode; CreateFaction only on a decoded payload. `factionCreatedComplete`: never broadcast; AddFactionSector only on a decoded payload. Any other type: no error, no broadcast, no call |
| SectorEvents.ProcessSectorEvent | src/hive/system.go:38-75 | returns PlanEvent's broadcast verdict; the collection and error are those of the one planned store call (the decode error when there is none) |
| SectorEvents.Dispatch | src/hive/system.go:45-72 | no ensures; the store call a plan makes, whose properties are ProcessSectorEvent and AtMostOneStoreCall |
| SectorEvents.AtMostOneStoreCall | src/hive/system.go:45-72 | with no call the collection is untouched; a created event appends exactly one record; a completion event keeps the number of records |
| Notification.ReplaceNewlinesMeaning | src/notification/hub.go:80 | every newline byte becomes a space and every other byte is kept; the result has no newline |
| Notification.TrimLeftMeaning | src/notification/hub.go:80 | the result is a suffix of the input, everything dropped is white space, and it does not start with white space |
| Notification.TrimRightMeaning | src/notification/hub.go:80 | the result is a prefix of the input, everything dropped is white space, and it does not end with white space |
| Notification.Flatten | src/notification/hub.go:80 | no ensures; the framing of a routed message (newlines to spaces, then white space trimmed at both ends), whose properties are FlattenIsOneLine and FlattenIdempotent |
| Notification.FlattenIsOneLine | src/notification/hub.go:104 | a routed message has no newline byte and no white space at either end |
| Notification.FlattenIdempotent | src/notification/hub.go:104 | framing a framed message changes nothing |
| Notification.Hub.constructor | src/notification/hub.go:35-43 | NewHub: empty registry, no handler |
| Notification.Hub.RegisterEventHandler | src/notification/hub.go:45-47 | installs the handler and leaves the registry as it was |
| Notification.Hub.Register | src/notification/hub.go:52-53 | the client is added to the registry |
| Notification.Hub.Unregister | src/notification/hub.go:54-58 | a registered client is removed and closed; for an absent client nothing changes, so this path never closes a queue twice |
| Notification.Hub.TrySend | src/notification/hub.go:88-93 | a non-blocking send: queued if the queue has room, otherwise the client is closed and removed; nothing else changes |
| Notification.Hub.Broadcast | src/notification/hub.go:59-67 | every registered client is tried once: those with room get the message appended; each full one is closed and removed |
| Notification.Hub.SendToFirst | src/notification/hub.go:82-95 | at most one client is tried, and one is tried exactly when some registered client is accepted by the target; every other client is untouched |
| Notification.Hub.RouteSectorEvents | src/notification/hub.go:96-113 | each entry (k, v) goes to at most one client, of the originator's hive and of sector k, and to one exactly when such a client is registered; it receives the framed v; all other clients are untouched |
| Notification.Hub.RouteEntry | src/notification/hub.go:98-113 | one pass of the outer loop over sectorEvents (its inner client loop with its `break` is SendToFirst) keeps the routing invariant: the entry for sector k is framed and goes to the first client of that sector, or no registered client had that sector; every client tried earlier keeps its outcome, every other client is untouched |
| Notification.Hub.HandleEvent | src/notification/hub.go:68-115 | with no handler installed the call panics and no client is touched. Otherwise the handler's error does not change routing. With broadcast set, the framed marshalled event goes to at most one client of the hive in another sector and the map is ignored. Otherwise each map entry is routed to its sector. With a nil map nothing changes |

## Left out

- I/O and the database session: session copy/close, connection and server
  errors of Insert and Update. Only the not-found error of Update and
  Find().One() is modelled, so CreateFaction always succeeds.
- Generated `_id`s: the store hands out consecutive numbers from `nextId`.
  ObjectIds are only ever compared for equality.
- Concurrency:
  - The errgroup pairs (the two alias lookups; the two branches of
    updateFactionRelation) run in sequence, from-side first. The first
    error is the one returned. Interleavings are not modelled.
  - Each `select` case of `Hub.Run` is one atomic method. The `register`,
    `unregister`, `broadcast` and `event` channels, their buffers and the
    goroutines feeding them are not modelled.
- JSON:
  - `json.Unmarshal` is a parameter of `ProcessSectorEvent`: one partial
    decoding function per target type.
  - `json.Marshal` of the hub's `event` struct is the constant `{}`, since
    all its fields are unexported. Its error return (hub.go:76-79) cannot
    happen for that struct and is not modelled.
- BSON field names: `FactionRelation.FactionID` is tagged `sector_id`, while
  the queries and pushes use `faction_id`. Relation rows are keyed by the
  faction id throughout, as the scan loops read them. BSON decoding itself
  is not modelled.
- Logging (logrus) is left out.
- The HTTP handlers are left out: GetFactions, DeleteFactions,
  `src/hive/sector.go`, `src/hive/hive.go` and the router in
  `torchapi-hive-system.go`.
- Event payload types that the shown files use but do not declare. Their
  fields are taken from how the operations use them:
  - EventFactionEdited
  - EventFactionAutoAcceptChangeEvent
  - EventFactionPeaceWar
  - EventFactionMember
- The websocket `Client` (its pumps, its `send` channel's buffer size) is
  not part of this model.
  - The queue capacity is a per-client constant.
  - Register requires an open client within capacity, as a freshly created
    client is.
- `newline` and `space` are declared in a file that is not part of this
  model. They are taken to be the single bytes `\n` and ` `.
- Notification.TrimLeftMeaning, Notification.TrimRightMeaning: these trim ASCII white
  space only. `bytes.TrimSpace` also trims multi-byte Unicode spaces (such
  as U+0085 and U+00A0) at the ends.
- Integer widths: entity ids (int64) and Steam ids (uint64) are never
  computed on, so they are unbounded integers.
- Pointers: the Go operations return `*Faction`; the model returns the
  record.
- Notification.Hub.SendToFirst, Notification.Hub.RouteSectorEvents,
  Notification.Hub.HandleEvent: the client each message went to is a ghost
  result. The Go code does not return it.
