/**
  The session protocol of one client as pure functions of the store, its resources and its
  fields (src/cities.js:215-399): what syncSession derives, and the record each user action
  writes before it resynchronizes. The Multiplayer class carries these out in place.
 */
module Protocol {

  import opened Wrappers
  import opened Codes
  import opened Sessions
  import opened SessionStore
  import opened Trade

  /** What a client knows after a resynchronization, with the store and ledger it leaves. */
  datatype Local = Local(session: Option<Session>, inSession: bool, connected: bool, ledger: Ledger, items: Items)

  /** The loaded record with only the applied sets of its offers possibly grown. */
  predicate SameButApplied(s: Session, t: Session)
  {
    && s.code == t.code && s.host == t.host && s.guest == t.guest && |s.offers| == |t.offers|
    && forall i :: 0 <= i < |s.offers| ==> s.offers[i].(applied := {}) == t.offers[i].(applied := {})
  }

  /**
    syncSession: reload the record for `code`; the client is in the session when it holds a
    slot, and connected when besides both slots are filled. Accepted offers are applied,
    and the record is written back only when some application reported success.
   */
  function Resync(items: Items, code: string, client: string, ledger: Ledger, outcomes: seq<(bool, bool)>): (v: Local)
    ensures v.connected ==> v.inSession
    ensures v.session.Some? <==> code != "" && LoadSession(items, code).Some?
    ensures v.session.Some? ==>
      && SameButApplied(LoadSession(items, code).value, v.session.value)
      && (v.inSession <==> Occupies(LoadSession(items, code).value, client))
      && (v.connected <==> v.inSession && Full(LoadSession(items, code).value))
    ensures v.session.None? ==> !v.inSession && v.items == items && v.ledger == ledger
    ensures v.ledger.Keys == ledger.Keys
    ensures v.items == items || v.items == items[SessionKey(code) := Encode(v.session.value)]
    ensures v.items != items ==>
      exists i :: 0 <= i < |v.session.value.offers| &&
        v.session.value.offers[i] != LoadSession(items, code).value.offers[i]
  {
    if code == "" then Local(None, false, false, ledger, items)
    else match LoadSession(items, code)
      case None => Local(None, false, false, ledger, items)
      case Some(s) =>
        var inSession := s.host == Some(client) || s.guest == Some(client);
        var connected := inSession && Filled(s.host) && Filled(s.guest);
        ApplyAcceptedShape(s.offers, client, ledger, outcomes);
        var sweep := ApplyAccepted(s.offers, client, ledger, outcomes);
        var t := s.(offers := sweep.offers);
        Local(Some(t), inSession, connected, sweep.ledger,
              if sweep.updated then items[SessionKey(code) := Encode(t)] else items)
  }

  /** When the client has already applied every accepted offer, a resync only reads. */
  lemma ResyncSettled(items: Items, code: string, client: string, ledger: Ledger, outcomes: seq<(bool, bool)>)
    requires code != "" && LoadSession(items, code).Some?
    requires var offers := LoadSession(items, code).value.offers;
      forall i :: 0 <= i < |offers| && offers[i].status == Accepted ==> client in offers[i].applied
    ensures Resync(items, code, client, ledger, outcomes).items == items
    ensures Resync(items, code, client, ledger, outcomes).ledger == ledger
    ensures Resync(items, code, client, ledger, outcomes).session == LoadSession(items, code)
  {
    var s := LoadSession(items, code).value;
    ApplyAcceptedSettled(s.offers, client, ledger, outcomes);
    assert s.(offers := s.offers) == s;
  }

  /**
    A resync writes the swept record back exactly when some application reported success:
    then the store loads what the client now holds, marks included; otherwise the store is
    left as it was, even when a failed modRes marked an offer.
   */
  lemma ResyncSaves(items: Items, code: string, client: string, ledger: Ledger, outcomes: seq<(bool, bool)>)
    requires code != "" && LoadSession(items, code).Some?
    ensures var v := Resync(items, code, client, ledger, outcomes);
            var offers := LoadSession(items, code).value.offers;
            && v.session.Some?
            && ((exists i :: 0 <= i < |offers| && Succeeds(offers, client, ledger, outcomes, i)) ==>
                  LoadSession(v.items, code) == v.session)
            && (!(exists i :: 0 <= i < |offers| && Succeeds(offers, client, ledger, outcomes, i)) ==>
                  v.items == items)
  {
    var s := LoadSession(items, code).value;
    ApplyAcceptedUpdated(s.offers, client, ledger, outcomes);
    var v := Resync(items, code, client, ledger, outcomes);
    if ApplyAccepted(s.offers, client, ledger, outcomes).updated {
      var t := v.session.value;
      assert v.items == items[SessionKey(code) := Encode(t)] && t.code == Normalize(code);
      LoadAfterSave(items, code, t, code);
    }
  }

  /**
    An offer whose application reported success is saved with the client marked, so no later
    resync applies it again: the next one leaves it as it is and its application moves nothing.
   */
  lemma SuccessIsNotRepeated(items: Items, code: string, client: string, ledger: Ledger, outcomes: seq<(bool, bool)>,
                             i: nat, ledger2: Ledger, outcomes2: seq<(bool, bool)>)
    requires code != "" && LoadSession(items, code).Some?
    requires i < |LoadSession(items, code).value.offers|
    requires Succeeds(LoadSession(items, code).value.offers, client, ledger, outcomes, i)
    ensures var v := Resync(items, code, client, ledger, outcomes);
            var saved := LoadSession(v.items, code);
            && saved.Some? && i < |saved.value.offers| && client in saved.value.offers[i].applied
            && Resync(v.items, code, client, ledger2, outcomes2).session.value.offers[i] == saved.value.offers[i]
            && forall l, d, c :: Apply(saved.value.offers[i], client, l, d, c) == Applied(saved.value.offers[i], l, false)
  {
    var offers := LoadSession(items, code).value.offers;
    ResyncSaves(items, code, client, ledger, outcomes);
    ApplyAcceptedAt(offers, client, ledger, outcomes, i);
    var v := Resync(items, code, client, ledger, outcomes);
    var saved := v.session.value.offers;
    assert saved == ApplyAccepted(offers, client, ledger, outcomes).offers;
    assert client in saved[i].applied;
    ApplyAcceptedShape(saved, client, ledger2, outcomes2);
  }

  /** syncSession as evidently intended: a pass that marked any offer saves the record. */
  function ResyncIntended(items: Items, code: string, client: string, ledger: Ledger, outcomes: seq<(bool, bool)>): Local
  {
    var v := Resync(items, code, client, ledger, outcomes);
    if v.session.Some? && v.session != LoadSession(items, code)
    then v.(items := items[SessionKey(code) := Encode(v.session.value)])
    else v
  }

  /** After the intended resync, the store holds every mark the client holds. */
  lemma ResyncIntendedKeepsMarks(items: Items, code: string, client: string, ledger: Ledger, outcomes: seq<(bool, bool)>)
    ensures var v := ResyncIntended(items, code, client, ledger, outcomes);
            v.session.Some? ==> LoadSession(v.items, code) == v.session
  {
    var r := Resync(items, code, client, ledger, outcomes);
    if r.session.Some? {
      var t := r.session.value;
      assert t.code == Normalize(code);
      LoadAfterSave(items, code, t, code);
    }
  }

  /**
    As written, a trade whose debit succeeds and whose credit fails is marked only in the
    client's copy: the store keeps it unmarked, so every resync debits the client again.
   */
  lemma FailedCreditDebitsEveryResync(items: Items, code: string, o: Offer, ledger: Ledger)
    requires code != "" && LoadSession(items, code).Some? && LoadSession(items, code).value.offers == [o]
    requires o.status == Accepted && o.from !in o.applied && o.give.Some? && o.receive.Some?
    requires o.give.value.res in ledger && o.receive.value.res in ledger
    requires o.give.value.amount > 0 && ledger[o.give.value.res] >= 2 * o.give.value.amount
    ensures var v1 := Resync(items, code, o.from, ledger, [(true, false)]);
            var v2 := Resync(v1.items, code, o.from, v1.ledger, [(true, false)]);
            && v1.items == items && v2.items == items
            && o.from in v1.session.value.offers[0].applied
            && v2.ledger[o.give.value.res] == ledger[o.give.value.res] - 2 * o.give.value.amount
  {
    var s := LoadSession(items, code).value;
    var m := Mark(o, o.from);
    var a1 := Apply(o, o.from, ledger, true, false);
    assert a1 == Applied(m, Debit(ledger, o.give.value), false);
    ApplyAcceptedOne(o, o.from, ledger, [(true, false)]);
    assert ApplyAccepted(s.offers, o.from, ledger, [(true, false)]) == Sweep([m], a1.ledger, false);
    var v1 := Resync(items, code, o.from, ledger, [(true, false)]);
    assert v1 == Local(Some(s.(offers := [m])), v1.inSession, v1.connected, a1.ledger, items);
    var a2 := Apply(o, o.from, a1.ledger, true, false);
    assert a2 == Applied(m, Debit(a1.ledger, o.give.value), false);
    ApplyAcceptedOne(o, o.from, a1.ledger, [(true, false)]);
    var v2 := Resync(items, code, o.from, a1.ledger, [(true, false)]);
    assert v2.ledger == a2.ledger && v2.items == items;
  }

  /** With the intended resync, the same trade debits the client once, whatever later modRes calls report. */
  lemma ResyncIntendedDebitsOnce(items: Items, code: string, o: Offer, ledger: Ledger, outcomes2: seq<(bool, bool)>)
    requires code != "" && LoadSession(items, code).Some? && LoadSession(items, code).value.offers == [o]
    requires o.status == Accepted && o.from !in o.applied && o.give.Some? && o.receive.Some?
    requires o.give.value.res in ledger && o.receive.value.res in ledger
    requires o.give.value.amount > 0 && ledger[o.give.value.res] >= o.give.value.amount
    ensures var v1 := ResyncIntended(items, code, o.from, ledger, [(true, false)]);
            var v2 := ResyncIntended(v1.items, code, o.from, v1.ledger, outcomes2);
            && v1.ledger[o.give.value.res] == ledger[o.give.value.res] - o.give.value.amount
            && v2.ledger == v1.ledger
  {
    var s := LoadSession(items, code).value;
    var m := Mark(o, o.from);
    var a1 := Apply(o, o.from, ledger, true, false);
    assert a1 == Applied(m, Debit(ledger, o.give.value), false);
    ApplyAcceptedOne(o, o.from, ledger, [(true, false)]);
    assert ApplyAccepted(s.offers, o.from, ledger, [(true, false)]) == Sweep([m], a1.ledger, false);
    var r1 := Resync(items, code, o.from, ledger, [(true, false)]);
    assert r1.session == Some(s.(offers := [m])) && r1.ledger == a1.ledger;
    assert s.(offers := [m]) != s by { assert s.(offers := [m]).offers[0] != s.offers[0]; }
    var v1 := ResyncIntended(items, code, o.from, ledger, [(true, false)]);
    ResyncIntendedKeepsMarks(items, code, o.from, ledger, [(true, false)]);
    assert LoadSession(v1.items, code) == Some(s.(offers := [m])) && v1.ledger == a1.ledger;
    var x := Outcome(outcomes2, 0);
    var a2 := Apply(m, o.from, a1.ledger, x.0, x.1);
    assert a2 == Applied(m, a1.ledger, false);
    ApplyAcceptedOne(m, o.from, a1.ledger, outcomes2);
  }

  // ----- generateCode -----

  /** The code generateCode uses: the normalized code field, or the generated number when that is empty. */
  function HostCode(code: string, random: nat): (c: string)
    ensures c != "" && Normalize(c) == c
    ensures Normalize(code) != "" ==> c == Normalize(code)
  {
    NormalizeIdempotent(code);
    GeneratedCodeIsNormal(random);
    if Normalize(code) != "" then Normalize(code) else DecimalString(random)
  }

  /** The record generateCode writes when it does not refuse: a fresh one, or the old one re-hosted. */
  function Hosted(prior: Option<Session>, code: string, client: string): Session
  {
    match prior
    case None => Session(code, Some(client), None, [])
    case Some(s) => HostSlots(s, client)
  }

  /**
    A generateCode that is not refused leaves the client in the session as its host, never as
    its guest, and connected exactly when another client holds the guest slot.
   */
  lemma GenerateHosts(items: Items, code: string, random: nat, client: string, ledger: Ledger, outcomes: seq<(bool, bool)>)
    requires client != ""
    requires var prior := LoadSession(items, HostCode(code, random)); !(prior.Some? && Full(prior.value))
    ensures var c := HostCode(code, random);
            var prior := LoadSession(items, c);
            var v := Resync(items[SessionKey(c) := Encode(Hosted(prior, c, client))], c, client, ledger, outcomes);
            && v.inSession && v.session.Some? && v.session.value.code == c
            && v.session.value.host == Some(client) && v.session.value.guest != Some(client)
            && (v.connected <==> prior.Some? && Filled(prior.value.guest) && prior.value.guest != Some(client))
  {
    var c := HostCode(code, random);
    var prior := LoadSession(items, c);
    var h := Hosted(prior, c, client);
    assert h.code == c;
    HostSlotsSeatsHost(if prior.Some? then prior.value else h, client);
    SaveLoadRoundTrip(items, h);
  }

  // ----- connect -----

  /**
    A connect that is not refused leaves the client in the session, connected exactly when
    both slots are then filled.
   */
  lemma ConnectSeats(items: Items, joinCode: string, client: string, ledger: Ledger, outcomes: seq<(bool, bool)>)
    requires client != ""
    requires var c := Normalize(joinCode); var prior := LoadSession(items, c);
      c != "" && prior.Some? && !FullWithOthers(prior.value, client)
    ensures var c := Normalize(joinCode);
            var joined := JoinSlots(LoadSession(items, c).value, client);
            var v := Resync(items[SessionKey(c) := Encode(joined)], c, client, ledger, outcomes);
            && v.inSession && v.session.Some? && v.session.value.code == c
            && (v.connected <==> Full(joined))
  {
    var c := Normalize(joinCode);
    NormalizeIdempotent(joinCode);
    var joined := JoinSlots(LoadSession(items, c).value, client);
    JoinSlotsSeats(LoadSession(items, c).value, client);
    SaveLoadRoundTrip(items, joined);
  }

  // ----- disconnect -----

  /**
    disconnect's effect on the store, as written: a host with a guest present gives up the
    host slot only, a host alone deletes the record, a guest gives up the guest slot, and a
    client in neither slot writes nothing.
   */
  function Leave(items: Items, code: string, client: string): Items
  {
    match LoadSession(items, code)
    case None => items
    case Some(s) =>
      if s.host == Some(client) then
        if Filled(s.guest) then items[SessionKey(code) := Encode(s.(host := None))]
        else items - {SessionKey(code)}
      else if s.guest == Some(client) then items[SessionKey(code) := Encode(s.(guest := None))]
      else items
  }

  /** What the client's own code loads after a leave, as a function of what it loaded before. */
  lemma LoadAfterLeave(items: Items, code: string, client: string)
    requires LoadSession(items, code).Some?
    ensures var s := LoadSession(items, code).value;
      LoadSession(Leave(items, code, client), code) ==
        if s.host == Some(client) then
          if Filled(s.guest) then Some(s.(host := None)) else None
        else if s.guest == Some(client) then Some(s.(guest := None))
        else Some(s)
  {
    var s := LoadSession(items, code).value;
    if s.host == Some(client) && Filled(s.guest) {
      assert Leave(items, code, client) == items[SessionKey(code) := Encode(s.(host := None))];
      LoadAfterSave(items, code, s.(host := None), code);
    } else if s.host == Some(client) {
      assert Leave(items, code, client) == items - {SessionKey(code)};
      LoadAfterDelete(items, code, code);
    } else if s.guest == Some(client) {
      assert Leave(items, code, client) == items[SessionKey(code) := Encode(s.(guest := None))];
      LoadAfterSave(items, code, s.(guest := None), code);
    }
  }

  /** Leaving vacates the client's slot, when it held only one. */
  lemma LeaveVacates(items: Items, code: string, client: string)
    requires LoadSession(items, code).Some? ==> Distinct(LoadSession(items, code).value)
    ensures var after := LoadSession(Leave(items, code, client), code);
            after.None? || !Occupies(after.value, client)
  {
    if LoadSession(items, code).Some? {
      LoadAfterLeave(items, code, client);
    }
  }

  /** Leaving touches no session other than the client's own. */
  lemma LeaveKeepsOthers(items: Items, code: string, client: string, other: string)
    requires Normalize(other) != Normalize(code)
    ensures LoadSession(Leave(items, code, client), other) == LoadSession(items, other)
  {
    match LoadSession(items, code)
    case None =>
    case Some(s) =>
      if s.host == Some(client) && Filled(s.guest) {
        assert Leave(items, code, client) == items[SessionKey(code) := Encode(s.(host := None))];
        LoadAfterSave(items, code, s.(host := None), other);
      } else if s.host == Some(client) {
        assert Leave(items, code, client) == items - {SessionKey(code)};
        LoadAfterDelete(items, code, other);
      } else if s.guest == Some(client) {
        assert Leave(items, code, client) == items[SessionKey(code) := Encode(s.(guest := None))];
        LoadAfterSave(items, code, s.(guest := None), other);
      }
  }

  /** A host that leaves a guest behind keeps the record, with only the host slot emptied. */
  lemma HostLeavesGuest(items: Items, code: string, client: string)
    requires LoadSession(items, code).Some?
    requires LoadSession(items, code).value.host == Some(client) && Filled(LoadSession(items, code).value.guest)
    ensures LoadSession(Leave(items, code, client), code) == Some(LoadSession(items, code).value.(host := None))
  {
    LoadAfterLeave(items, code, client);
  }

  /**
    As written, a guest that leaves a record whose host already left stores a record with
    both slots empty, instead of deleting it.
   */
  lemma LeaveStrandsEmptyRecord(items: Items, code: string, guest: string)
    requires LoadSession(items, code).Some?
    requires LoadSession(items, code).value.host.None? && LoadSession(items, code).value.guest == Some(guest)
    ensures var after := LoadSession(Leave(items, code, guest), code);
            && after == Some(LoadSession(items, code).value.(guest := None))
            && after.value.host.None? && after.value.guest.None?
  {
    LoadAfterLeave(items, code, guest);
  }

  /**
    As written, a guest that joins its own record while the host slot is empty and then
    leaves gives up only the host slot: the record still names it as guest.
   */
  lemma DoubleSeatThenLeaveKeepsGuest(items: Items, code: string, client: string)
    requires client != "" && LoadSession(items, code).Some?
    requires LoadSession(items, code).value.host.None? && LoadSession(items, code).value.guest == Some(client)
    ensures var s := LoadSession(items, code).value;
            var joined := items[SessionKey(code) := Encode(JoinSlots(s, client))];
            LoadSession(Leave(joined, code, client), code) == Some(s)
  {
    var s := LoadSession(items, code).value;
    var j := JoinSlots(s, client);
    assert j == s.(host := Some(client));
    LoadAfterSave(items, code, j, code);
    LoadAfterLeave(items[SessionKey(code) := Encode(j)], code, client);
    assert j.(host := None) == s;
  }

  /** disconnect as evidently intended: the last occupant to leave deletes the record. */
  function LeaveIntended(items: Items, code: string, client: string): Items
  {
    match LoadSession(items, code)
    case None => items
    case Some(s) =>
      if s.host == Some(client) then
        if Filled(s.guest) then items[SessionKey(code) := Encode(s.(host := None))]
        else items - {SessionKey(code)}
      else if s.guest == Some(client) then
        if Filled(s.host) then items[SessionKey(code) := Encode(s.(guest := None))]
        else items - {SessionKey(code)}
      else items
  }

  /** The intended leave never turns an occupied record into an empty one, and still vacates the slot. */
  lemma LeaveIntendedKeepsNoEmptyRecord(items: Items, code: string, client: string)
    requires LoadSession(items, code).Some? ==> Distinct(LoadSession(items, code).value)
    ensures var before := LoadSession(items, code);
            var after := LoadSession(LeaveIntended(items, code, client), code);
            && (after.None? || !Occupies(after.value, client))
            && (before.Some? && (Filled(before.value.host) || Filled(before.value.guest)) ==>
                  after.None? || Filled(after.value.host) || Filled(after.value.guest))
  {
    match LoadSession(items, code)
    case None =>
    case Some(s) =>
      var after := LoadSession(LeaveIntended(items, code, client), code);
      if s.host == Some(client) && Filled(s.guest) {
        assert LeaveIntended(items, code, client) == items[SessionKey(code) := Encode(s.(host := None))];
        LoadAfterSave(items, code, s.(host := None), code);
        assert after == Some(s.(host := None));
      } else if s.guest == Some(client) && Filled(s.host) {
        assert LeaveIntended(items, code, client) == items[SessionKey(code) := Encode(s.(guest := None))];
        LoadAfterSave(items, code, s.(guest := None), code);
        assert after == Some(s.(guest := None));
      } else if s.host == Some(client) || s.guest == Some(client) {
        assert LeaveIntended(items, code, client) == items - {SessionKey(code)};
        LoadAfterDelete(items, code, code);
        assert after.None?;
      } else {
        assert LeaveIntended(items, code, client) == items;
      }
  }

  // ----- offers -----

  /** The offer sendOffer builds: pending, from the client to its partner, applied by nobody. */
  function NewOffer(id: string, client: string, partner: string, giveRes: string, giveAmount: int,
                    receiveRes: string, receiveAmount: int): Offer
  {
    Offer(id, client, partner, Some(Stake(giveRes, giveAmount)), Some(Stake(receiveRes, receiveAmount)), Pending, {})
  }

  /** Every check sendOffer makes before it appends an offer. */
  predicate CanSend(connected: bool, session: Option<Session>, client: string, ledger: Ledger,
                    giveRes: string, giveAmount: int, receiveRes: string, receiveAmount: int)
  {
    && connected && session.Some?
    && giveRes != "" && receiveRes != "" && giveAmount > 0 && receiveAmount > 0
    && giveRes in ledger && ledger[giveRes] >= giveAmount
    && ResolvePartner(session, client) != ""
  }

  function Propose(s: Session, o: Offer): Session
  {
    s.(offers := s.offers + [o])
  }

  /**
    A proposal is listed last among the sender's outgoing offers and last among the
    partner's incoming ones, and leaves every other client's lists as they were.
   */
  lemma ProposeLists(s: Session, o: Offer, client: string)
    requires o.status == Pending
    ensures Outgoing(Propose(s, o).offers, client) ==
      Outgoing(s.offers, client) + (if o.from == client then [o] else [])
    ensures Incoming(Propose(s, o).offers, client) ==
      Incoming(s.offers, client) + (if o.to == client then [o] else [])
  {
    OutgoingDistributes(s.offers, [o], client);
    IncomingDistributes(s.offers, [o], client);
    assert [o][1..] == [];
  }

  /** acceptOffer's check on the offer: pending, and the client holds what the offer asks of it. */
  predicate CanAccept(o: Offer, ledger: Ledger)
  {
    && o.status == Pending && o.receive.Some?
    && o.receive.value.res in ledger && ledger[o.receive.value.res] >= o.receive.value.amount
  }

  /** acceptOffer and rejectOffer: set the status of the `i`th offer. */
  function Decide(s: Session, i: nat, status: Status): Session
    requires i < |s.offers|
  {
    s.(offers := s.offers[i := s.offers[i].(status := status)])
  }

  /** `b` is a later state of offer `a`: same terms, a status that only leaves pending, more applications. */
  predicate Settles(a: Offer, b: Offer)
  {
    && a.id == b.id && a.from == b.from && a.to == b.to && a.give == b.give && a.receive == b.receive
    && (a.status == b.status || a.status == Pending)
    && a.applied <= b.applied
  }

  predicate Evolves(before: seq<Offer>, after: seq<Offer>)
  {
    |before| <= |after| && forall i :: 0 <= i < |before| ==> Settles(before[i], after[i])
  }

  /** A proposal appends: every earlier offer is kept as it was. */
  lemma ProposeEvolves(s: Session, o: Offer)
    ensures Evolves(s.offers, Propose(s, o).offers)
    ensures |Propose(s, o).offers| == |s.offers| + 1 && Propose(s, o).offers[|s.offers|] == o
  {
  }

  /**
    A decision acts only on a pending offer and changes only its status, so accepted and
    rejected are final.
   */
  lemma DecideEvolves(s: Session, i: nat, status: Status)
    requires i < |s.offers| && s.offers[i].status == Pending
    ensures Evolves(s.offers, Decide(s, i, status).offers)
    ensures Decide(s, i, status).offers[i] == s.offers[i].(status := status)
    ensures forall j :: 0 <= j < |s.offers| && j != i ==> Decide(s, i, status).offers[j] == s.offers[j]
  {
  }

  /** A pass of accepted offers keeps every offer's terms and status and only grows the applied sets. */
  lemma SweepEvolves(s: Session, client: string, ledger: Ledger, outcomes: seq<(bool, bool)>)
    ensures Evolves(s.offers, ApplyAccepted(s.offers, client, ledger, outcomes).offers)
    ensures forall j :: 0 <= j < |s.offers| ==>
      ApplyAccepted(s.offers, client, ledger, outcomes).offers[j].status == s.offers[j].status
  {
    ApplyAcceptedShape(s.offers, client, ledger, outcomes);
  }

  lemma EvolvesTransitive(a: seq<Offer>, b: seq<Offer>, c: seq<Offer>)
    requires Evolves(a, b) && Evolves(b, c)
    ensures Evolves(a, c)
  {
    forall i | 0 <= i < |a| ensures Settles(a[i], c[i]) {
      assert Settles(a[i], b[i]) && Settles(b[i], c[i]);
    }
  }
}
