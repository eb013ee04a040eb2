# Two-player sessions and trade offers of the Evolve "cities" panel

This project models, in Dafny, the two-player session and trade-offer core of `src/cities.js`.
Two browser clients share one key-value store. A client can host or join a session under a
short code. It can leave the session, and while paired it can offer the other client one resource
in exchange for another. Offers are accepted or rejected. Once accepted, each client applies the
offer to its own resource amounts, at most once per client.

The model is split into modules:

- `Codes` (`codes.dfy`) covers code normalization: trim, then upper-case. It also covers the store
  key derived from a code and the numeric code that hosting generates.
- `Sessions` (`sessions.dfy`) holds the session record and its offers as values. It also holds the
  partner lookup, the incoming and outgoing filters, and the slot rules of hosting and joining.
- `SessionStore` (`store.dfy`) models the shared store as a map from keys to stored values. A
  stored value is a parsed record or `Corrupt`. The module defines `loadSession`, and the class
  `LocalStorage` saves and deletes.
- `Trade` (`trade.dfy`) models `applyTradeOffer` as a pure function. The two results of `modRes`
  are inputs to it. It also models the pass that `syncSession` makes over the accepted offers.
- `Protocol` (`protocol.dfy`) gives pure functions for what `syncSession` derives, for the record
  that each action writes, and for what `disconnect` leaves in the store.
- `Cities` (`cities.dfy`) holds the class `Multiplayer`. Its fields are the client's code,
  join code, cached session, flags and resource amounts. Each action is one method. Each method
  is proved to produce exactly the state that the `Protocol` functions describe.

`modRes` may fail. The class's `ModRes` chooses success or failure nondeterministically, and
each method returns the outcomes it saw as a ghost value. Its contract then fixes the new state
as a function of the old state and those outcomes.

In five places the code does less than a two-player session evidently calls for: one client per slot, no empty record kept, each trade applied once per client, and checks done before a value is read. The model follows the code:

- **generateCode.** It refuses any record whose two slots are both filled, even when the local
  client holds one of them (`src/cities.js:253-256`), where connect lets that client in
  (`src/cities.js:286`).
- **sendOffer.** It checks only that both resource names are non-empty (`src/cities.js:336`).
  It then reads the amount of the given resource without checking that the resource is known
  (`src/cities.js:340`), which throws for an unknown name. Nothing checks the received resource.
- **syncSession.** It saves the record only when some application reported success
  (`src/cities.js:236-244`). A mark left by a partial failure is therefore not saved (third
  finding below).
- **connect.** It can put the same client in both slots (first finding below).
- **disconnect.** A guest leaving after the host keeps an empty record (second finding below).

## Model

| member | source | states |
|---|---|---|
| Codes.TrimStartShape | src/cities.js:28-30 | trimming the start leaves a suffix, every character dropped is white space, and the rest does not start with white space |
| Codes.TrimEndShape | src/cities.js:28-30 | trimming the end leaves a prefix, every character dropped is white space, and the rest does not end with white space |
| Codes.UpperShape | src/cities.js:28-30 | upper-casing keeps the length and maps each character on its own |
| Codes.Normalize | src/cities.js:28-30 | normalizeCode: trim, then upper-case; the lemmas below state what that yields |
| Codes.NormalizeIsNormal | src/cities.js:28-30 | a normalized code has no white space at either end and no lower-case letter |
| Codes.NormalizeOfNormal | src/cities.js:28-30 | a code with no surrounding white space and no lower-case letter is its own normal form |
| Codes.NormalizeIdempotent | src/cities.js:28-30 | normalizing twice is normalizing once |
| Codes.NormalizeIgnoresPadding | src/cities.js:28-30 | white space added around a code does not change its normal form |
| Codes.NormalizeIgnoresCase | src/cities.js:28-30 | two codes that differ only in letter case have the same normal form |
| Codes.NormalizeExample | src/cities.js:28-34 | " ab12 " and "AB12" both normalize to "AB12" |
| Codes.SessionKey | src/cities.js:32-34 | sessionKey: the session prefix followed by the normalized code (Codes.SessionKeyInjective) |
| Codes.SessionKeyInjective | src/cities.js:32-34 | every session key carries the session prefix, and two codes share a key exactly when their normal forms are equal |
| Codes.IsSessionKey | src/cities.js:407 | the storage listener's test that a key belongs to a session; every session key passes it (Codes.SessionKeyInjective) |
| Codes.DecimalString | src/cities.js:250 | the generated code's text is a non-empty string of decimal digits |
| Codes.GeneratedCodeIsNormal | src/cities.js:248-251 | a generated numeric code is non-empty and already normalized |
| Codes.DecimalStringValue | src/cities.js:250 | the generated code reads back as the number it was made from |
| Sessions.ResolvePartner | src/cities.js:72-83 | the partner is the other occupant when the client holds a slot; it is "" without a session or when the client holds neither slot |
| Sessions.Incoming | src/cities.js:363-368 | exactly the offers to the client that are still pending |
| Sessions.Outgoing | src/cities.js:369-374 | exactly the offers from the client, whatever their status |
| Sessions.IncomingDistributes | src/cities.js:363-368 | the incoming filter keeps the order of the offers |
| Sessions.OutgoingDistributes | src/cities.js:369-374 | the outgoing filter keeps the order of the offers |
| Sessions.IncomingOffers | src/cities.js:363-368 | incomingOffers: nothing without a session, otherwise the incoming filter of its offers (Sessions.Incoming) |
| Sessions.OutgoingOffers | src/cities.js:369-374 | outgoingOffers: nothing without a session, otherwise the outgoing filter of its offers (Sessions.Outgoing) |
| Sessions.HostSlots | src/cities.js:265-268 | the slots generateCode writes into an existing record (Sessions.HostSlotsSeatsHost) |
| Sessions.HostSlotsSeatsHost | src/cities.js:265-268 | re-hosting a record makes the client host, clears the guest slot when the client held it, keeps any other guest and keeps code and offers |
| Sessions.JoinSlots | src/cities.js:290-295 | the slots connect writes, as written (Sessions.JoinSlotsSeats, Sessions.JoinSlotsCanSeatTwice) |
| Sessions.JoinSlotsSeats | src/cities.js:286-295 | joining a record that other clients do not fill seats the client, changes at most one slot and leaves a filled host slot; only an empty slot is filled, and only with the client: the host slot when it is empty, otherwise the guest slot when it is empty and the host is another client |
| Sessions.JoinSlotsCanSeatTwice | src/cities.js:290-295 | as written, a guest that joins its own record with an empty host slot ends up in both slots |
| Sessions.JoinSlotsIntendedKeepsDistinct | src/cities.js:290-295 | the corrected join never puts one client in both slots, and it still seats the client when there is room |
| SessionStore.LoadSession | src/cities.js:36-53 | a load finds a record only under the code's key, a found record carries the normalized code, and a missing or corrupt entry loads as absent |
| SessionStore.Encode | src/cities.js:56 | JSON.stringify of a session, with every field written (SessionStore.SaveLoadRoundTrip) |
| SessionStore.LoadDefaultsOffers | src/cities.js:47 | a record without an offers list loads with no offers |
| SessionStore.LoadRejectsStaleCode | src/cities.js:44-46 | a record whose own code differs from the normalized lookup code loads as absent |
| SessionStore.LoadAfterSave | src/cities.js:36-57 | after a save, the same normal code loads the session when its code matches (otherwise nothing), and other codes load what they did before |
| SessionStore.SaveLoadRoundTrip | src/cities.js:36-57 | a session saved under its own normalized code loads back unchanged |
| SessionStore.LoadAfterDelete | src/cities.js:36-61 | after a delete, the code loads as absent and other codes are unaffected |
| SessionStore.LocalStorage.SaveSession | src/cities.js:55-57 | the store gains or replaces exactly the entry under the code's key |
| SessionStore.LocalStorage.DeleteSession | src/cities.js:59-61 | the store loses exactly the entry under the code's key |
| Trade.ModResEffect | src/cities.js:106 | a reported modRes success adds the delta to its resource alone, and a failure changes nothing |
| Trade.Exchange | src/cities.js:101-113 | a completed side of a trade debits one stake and credits the other, and it leaves every other resource alone |
| Trade.Apply | src/cities.js:85-119 | an offer already applied by the client changes nothing and reports false; the offer is marked exactly when both stakes exist, both resources are known and a party holds enough; for a party, success is exactly both modRes calls succeeding, and then its own side moves exactly; a failed debit moves nothing and skips the credit; a failed credit keeps the debit; a client that is not a party is marked with success and no change |
| Trade.TradeIsZeroSum | src/cities.js:101-118 | when both parties apply an offer in full, the two sides' changes cancel for every resource and both are recorded as applied |
| Trade.ApplyAccepted | src/cities.js:231-241 | the pass keeps one entry per offer |
| Trade.ApplyAcceptedShape | src/cities.js:231-241 | the pass keeps the resources known; it changes an offer only by marking an accepted offer the client has not applied; it reports an update only when some offer changed |
| Trade.StepShape | src/cities.js:233-240 | one step appends the offer, either as it was or marked when accepted and not yet applied, and it reports an update only when the offer changed |
| Trade.Step | src/cities.js:233-240 | the forEach callback: an accepted offer goes through applyTradeOffer, any other is kept (Trade.StepShape) |
| Trade.Succeeds | src/cities.js:234-239 | the application of the given accepted offer, against the ledger left by the offers before it, returned true |
| Trade.ApplyAcceptedAt | src/cities.js:233-240 | each offer leaves the pass as its own application, against the ledger left by the offers before it |
| Trade.ApplyAcceptedUpdated | src/cities.js:232-241 | the pass reports an update exactly when some accepted offer's application returned true |
| Trade.ApplyAcceptedSettled | src/cities.js:231-244 | once the client has applied every accepted offer, a pass changes nothing and reports no update |
| Trade.ApplyAcceptedOutcomes | src/cities.js:233-241 | a pass depends only on the modRes outcomes of the offers it visits |
| Trade.ApplyAcceptedStep | src/cities.js:233-241 | one more offer extends the pass by exactly one step |
| Protocol.Resync | src/cities.js:215-246 | a session exists exactly when the code is non-empty and loads; in-session iff the client holds a slot; connected iff in session and both slots are filled; only applied sets change; the resources stay known; the store is rewritten only under the code's key, and only when some offer changed (the exact rule is Protocol.ResyncSaves) |
| Protocol.ResyncSettled | src/cities.js:231-245 | when every accepted offer is already applied, a resync writes nothing and keeps the resources |
| Protocol.ResyncSaves | src/cities.js:231-244 | when some application returned true, the store then loads exactly the session the client holds, marks included; when none did, the store is left as it was, even if offers were marked |
| Protocol.SuccessIsNotRepeated | src/cities.js:231-244 | an offer applied with success is saved with the client marked, so the next resync leaves it as it is and applying it again moves nothing |
| Protocol.ResyncIntended | src/cities.js:231-244 | syncSession as evidently intended: a pass that marked any offer saves the record (Protocol.ResyncIntendedKeepsMarks) |
| Protocol.ResyncIntendedKeepsMarks | src/cities.js:231-244 | after the intended resync the store holds every mark the client holds |
| Protocol.FailedCreditDebitsEveryResync | src/cities.js:231-244 | as written, a trade whose debit succeeds and whose credit fails is not saved as applied, so two resyncs debit the client twice |
| Protocol.ResyncIntendedDebitsOnce | src/cities.js:231-244 | with the intended resync the same trade debits the client once, whatever later modRes calls report |
| Protocol.HostCode | src/cities.js:248-251 | the hosting code is non-empty and normalized, and it is the normalized code field whenever that is non-empty |
| Protocol.Hosted | src/cities.js:257-268 | the record generateCode writes: a fresh one with the client as host, or the old one re-hosted (Protocol.GenerateHosts) |
| Protocol.GenerateHosts | src/cities.js:247-274 | after hosting, the client is in the session as host and not as guest, and it is connected exactly when another client held the guest slot |
| Protocol.ConnectSeats | src/cities.js:275-300 | after a join that was not refused, the client is in the session, and it is connected exactly when both slots are filled |
| Protocol.Leave | src/cities.js:305-321 | what disconnect leaves in the store, as written (Protocol.LoadAfterLeave) |
| Protocol.LoadAfterLeave | src/cities.js:301-322 | after a leave, the client's code loads as follows: without the host when a guest remains; absent after a lone host leaves; without the guest after the guest leaves; unchanged for a non-member |
| Protocol.LeaveVacates | src/cities.js:305-321 | after a leave, the client holds no slot in its session, when the record did not name it in both slots |
| Protocol.LeaveKeepsOthers | src/cities.js:305-321 | a leave does not change any other session |
| Protocol.HostLeavesGuest | src/cities.js:307-312 | a host that leaves behind a guest keeps the record with only the host slot emptied |
| Protocol.LeaveStrandsEmptyRecord | src/cities.js:317-321 | as written, a guest that leaves after the host stores a record with both slots empty |
| Protocol.DoubleSeatThenLeaveKeepsGuest | src/cities.js:290-311 | as written, a guest that joins its own record while the host slot is empty and then leaves is still the record's guest |
| Protocol.LeaveIntendedKeepsNoEmptyRecord | src/cities.js:317-321 | the corrected leave vacates the slot and never turns an occupied record into an empty one |
| Protocol.NewOffer | src/cities.js:349-357 | the offer sendOffer builds: pending, from the client to its partner, applied by nobody |
| Protocol.CanSend | src/cities.js:331-348 | every check sendOffer makes before it appends an offer (Cities.Multiplayer.SendOffer) |
| Protocol.Propose | src/cities.js:358 | appends the offer to the session (Protocol.ProposeLists) |
| Protocol.ProposeLists | src/cities.js:349-374 | a new pending offer is listed last among the sender's outgoing and the partner's incoming offers, and no other client's lists change |
| Protocol.CanAccept | src/cities.js:381-387 | the checks acceptOffer makes: pending, and the client holds what the offer asks of it |
| Protocol.Decide | src/cities.js:388-396 | sets the status of one offer (Protocol.DecideEvolves) |
| Protocol.ProposeEvolves | src/cities.js:358 | a proposal appends the new offer last and keeps every earlier offer as it was |
| Protocol.DecideEvolves | src/cities.js:388-396 | accepting or rejecting a pending offer changes only that offer's status, so accepted and rejected are final |
| Protocol.SweepEvolves | src/cities.js:231-241 | a pass keeps every offer's terms and status and only grows the applied sets |
| Protocol.EvolvesTransitive | src/cities.js:380-399 | the history order on offer lists is transitive, so accepted and rejected stay final over any run of steps |
| Cities.Multiplayer.constructor | src/cities.js:7-26 | a new client has no code, no join code, no session and no flags set |
| Cities.Multiplayer.ModRes | src/cities.js:106 | modRes adds its delta and reports success, or changes nothing and reports failure |
| Cities.Multiplayer.ApplyTradeOffer | src/cities.js:85-119 | the new offer, resource amounts and result are those of Trade.Apply for the outcomes that modRes reported |
| Cities.Multiplayer.ApplyAcceptedOffers | src/cities.js:231-241 | the loop leaves the offers, amounts and updated flag of Trade.ApplyAccepted |
| Cities.Multiplayer.SyncSession | src/cities.js:215-246 | the new session, flags, amounts and store are those of Protocol.Resync, and code and join code are unchanged |
| Cities.Multiplayer.SaveAndSync | src/cities.js:269-272 | the shared tail of the actions (set the code, save, resync): the code is the given one, the join code is kept, and the new state is Protocol.Resync of the store with the session saved |
| Cities.Multiplayer.GenerateCode | src/cities.js:247-274 | refuses without any change when the record is full; otherwise sets the code, clears the join code, saves the hosted record, resynchronizes, and seats the client as host |
| Cities.Multiplayer.Connect | src/cities.js:275-300 | refuses without any change on an empty code, an unknown code, or a record full of others; otherwise saves the joined record, resynchronizes and leaves the client in session |
| Cities.Multiplayer.Disconnect | src/cities.js:301-329 | with no code it does nothing; otherwise the store is Protocol.Leave of the old store, all local session fields are cleared and the resources are kept |
| Cities.Multiplayer.SendOffer | src/cities.js:330-362 | without every precondition nothing changes; otherwise the session with the new pending offer to the partner is saved and resynchronized |
| Cities.Multiplayer.AcceptOffer | src/cities.js:380-391 | a non-pending offer, or one the client cannot cover, changes nothing; otherwise the offer is saved as accepted and resynchronized |
| Cities.Multiplayer.RejectOffer | src/cities.js:392-399 | a non-pending offer changes nothing; otherwise the offer is saved as rejected and resynchronized |

## Left out

- The HTML template, the binding wiring, `statusLabel`, `offerLabel` and `buildResourceList` are left out. They only render.
- Localized texts and `messageQueue` notices are left out. They have no effect on the modelled state.
- The `storage` event listener and the `refresh` hook are not modelled. They are browser event plumbing. Only the key-prefix test is kept, as `Codes.IsSessionKey`.
- Random client ids, `Math.rand` codes and the clock-based offer ids are parameters. The client id is a constructor argument, the generated number is the `random` argument of `GenerateCode`, and the offer id is the `id` argument of `SendOffer`. The trade draft (`m.trade.giveRes`, `giveAmount`, `receiveRes`, `receiveAmount`) is given as the other arguments of `SendOffer`. The form inputs bound to `m.code` and `m.joinCode` are the class's public fields `code` and `joinCode`, which the caller writes directly; no method of the class sets `joinCode` except to clear it.
- JSON parsing and printing are abstracted. A stored value is either a parsed record or `Corrupt`. Records with fields of the wrong type are not modelled.
- `Number(...) || 0` coercion is not modelled. Amounts are integers, with non-numeric input taken as already coerced to 0.
- `modRes` and the host ledger's internals are outside this model, because `functions.js` is not part of it. `modRes` is taken to add its delta or to fail and change nothing. The ledger is a map from known resources to amounts, and "known" means present in the map.
- Codes.Normalize: upper-casing maps only ASCII letters. Full Unicode case mapping is not modelled.
- Races between tabs (last writer wins) are not modelled. The model is single-threaded.
- Cities.Multiplayer.AcceptOffer: the offer is named by its index in the local session rather than by an object reference. A missing offer is excluded by its precondition, so the `!offer` branch is not modelled.
- Cities.Multiplayer.AcceptOffer and Cities.Multiplayer.SendOffer: where the source would throw a TypeError, the model refuses without any change. That happens for a missing `receive` stake or an unknown resource.
- Cities.Multiplayer.Disconnect keeps the as-written behaviour. `Protocol.LeaveIntended` is the corrected version, and the class does not use it.
- Cities.Multiplayer.SyncSession keeps the as-written save rule (`Protocol.Resync`). `Protocol.ResyncIntended` is the corrected version, and the class does not use it.
- Cities.Multiplayer.Connect keeps the as-written slot rule (`Sessions.JoinSlots`). `Sessions.JoinSlotsIntended` is the corrected rule, and the class does not use it.

## Findings

| source | as written | input that shows it | evidently intended | confidence | as-written member | corrected member |
|---|---|---|---|---|---|---|
| src/cities.js:290-295 | `connect` fills an empty host slot with the local client even when that client already holds the guest slot | a record `{host: null, guest: "mp-g"}`, joined by client `mp-g`, ends with host = guest = `mp-g`; if `mp-g` then disconnects it stays as a phantom guest (Protocol.DoubleSeatThenLeaveKeepsGuest) | a client already seated keeps its slot, so host and guest stay different | not executed | Sessions.JoinSlotsCanSeatTwice | Sessions.JoinSlotsIntendedKeepsDistinct |
| src/cities.js:317-321 | a guest that disconnects always saves the record with the guest slot cleared | a record whose host already left (`host: null`), disconnected by its guest, is stored with both slots empty | the last occupant to leave deletes the record, as a lone host does | not executed | Protocol.LeaveStrandsEmptyRecord | Protocol.LeaveIntendedKeepsNoEmptyRecord |
| src/cities.js:236-244 | syncSession saves the record only when some application returned true, so a mark left by a failed credit stays in the client's copy | an accepted offer of 10 wood from a client holding 100 wood, whose debit succeeds and whose credit fails on each resync, leaves the client with 80 wood after two resyncs | the mark is saved after every attempt, so the offer is applied once per client | not executed | Protocol.FailedCreditDebitsEveryResync | Protocol.ResyncIntendedDebitsOnce |
