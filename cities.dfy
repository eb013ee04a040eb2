/**
  The multiplayer panel's state and actions for one local client (src/cities.js:7-26,
  85-119, 215-399): the fields of `global.civic.multiplayer` that the protocol uses, the
  client's resource amounts, and the shared store.

  Every action is proved to leave the state that the pure Protocol functions describe;
  the ghost `outcomes` an action returns are the results modRes reported during its
  resynchronization.
 */
module Cities {

  import opened Wrappers
  import opened Codes
  import opened Sessions
  import opened SessionStore
  import opened Trade
  import opened Protocol

  /** A client identifier: "mp-" and random letters in the source, never empty. */
  type ClientId = s: string | s != "" witness "mp-"

  class Multiplayer {
    const clientId: ClientId
    const storage: LocalStorage
    /** The amounts of global.resource, by resource key. */
    var resource: Ledger
    var code: string
    var joinCode: string
    var session: Option<Session>
    var inSession: bool
    var connected: bool

    /** ensureMultiplayerState: a client with no code and no session. */
    constructor (clientId: ClientId, storage: LocalStorage, resource: Ledger)
      ensures this.clientId == clientId && this.storage == storage && this.resource == resource
      ensures code == "" && joinCode == "" && session.None? && !inSession && !connected
    {
      this.clientId := clientId;
      this.storage := storage;
      this.resource := resource;
      code, joinCode := "", "";
      session := None;
      inSession, connected := false, false;
    }

    ghost function Snapshot(): Local
      reads this, storage
    {
      Local(session, inSession, connected, resource, storage.items)
    }

    /** modRes(res, delta, true): adds `delta` and reports success, or changes nothing and reports failure. */
    method ModRes(res: string, delta: int) returns (ok: bool)
      requires res in resource
      modifies this`resource
      ensures resource == ModResEffect(old(resource), res, delta, ok)
    {
      ok :| true;
      if ok {
        resource := resource[res := resource[res] + delta];
      }
    }

    /**
      applyTradeOffer: returns the offer with its new applied set and whether the transfer
      succeeded; `debitOk` and `creditOk` are what the two modRes calls reported.
     */
    method ApplyTradeOffer(offer: Offer) returns (updated: Offer, ok: bool, ghost debitOk: bool, ghost creditOk: bool)
      modifies this`resource
      ensures Applied(updated, resource, ok) == Apply(offer, clientId, old(resource), debitOk, creditOk)
    {
      updated, ok := offer, false;
      debitOk, creditOk := true, true;
      if offer.give.None? || offer.receive.None? {
        return;
      }
      if clientId in offer.applied {
        return;
      }
      var give, receive := offer.give.value, offer.receive.value;
      if give.res !in resource || receive.res !in resource {
        return;
      }
      var success := true;
      if offer.from == clientId {
        if resource[give.res] < give.amount {
          return;
        }
        var debited := ModRes(give.res, -give.amount);
        var credited := false;
        if debited {
          credited := ModRes(receive.res, receive.amount);
        }
        success := debited && credited;
        debitOk, creditOk := debited, credited;
      } else if offer.to == clientId {
        if resource[receive.res] < receive.amount {
          return;
        }
        var debited := ModRes(receive.res, -receive.amount);
        var credited := false;
        if debited {
          credited := ModRes(give.res, give.amount);
        }
        success := debited && credited;
        debitOk, creditOk := debited, credited;
      }
      updated := Mark(offer, clientId);
      ok := success;
    }

    /**
      The loop of syncSession over the loaded offers: every accepted offer goes through
      applyTradeOffer, and `updated` records whether one of them reported success.
     */
    method ApplyAcceptedOffers(offers: seq<Offer>) returns (swept: seq<Offer>, updated: bool, ghost outcomes: seq<(bool, bool)>)
      modifies this`resource
      ensures Sweep(swept, resource, updated) == ApplyAccepted(offers, clientId, old(resource), outcomes)
    {
      swept, updated, outcomes := offers, false, [];
      var i := 0;
      while i < |offers|
        invariant 0 <= i <= |offers| == |swept| && |outcomes| == i
        invariant swept[i..] == offers[i..]
        invariant Sweep(swept[..i], resource, updated) == ApplyAccepted(offers[..i], clientId, old(resource), outcomes)
      {
        ghost var before, prefix, ledger := outcomes, swept[..i], resource;
        ghost var prev := ApplyAccepted(offers[..i], clientId, old(resource), before);
        assert prev.offers == prefix && prev.ledger == ledger && prev.updated == updated;
        var o := swept[i];
        assert o == offers[i] by { assert swept[i..][0] == offers[i..][0]; }
        ghost var x := (true, true);
        if o.status == Accepted {
          var applied, ok;
          ghost var d, c;
          applied, ok, d, c := ApplyTradeOffer(o);
          x := (d, c);
          ghost var a := Apply(o, clientId, ledger, d, c);
          assert applied == a.offer && resource == a.ledger && ok == a.ok;
          swept := swept[i := applied];
          updated := updated || ok;
        }
        outcomes := before + [x];
        assert swept[..i + 1] == prefix + [swept[i]];
        assert Sweep(swept[..i + 1], resource, updated) == Step(prev, o, clientId, x);
        ApplyAcceptedStep(offers, i, clientId, old(resource), before, x);
        i := i + 1;
      }
      assert swept[..i] == swept && offers[..i] == offers;
    }

    /** syncSession: reload the record, derive the flags, apply accepted offers, save if one succeeded. */
    method SyncSession() returns (ghost outcomes: seq<(bool, bool)>)
      modifies this`session, this`inSession, this`connected, this`resource, storage
      ensures code == old(code) && joinCode == old(joinCode)
      ensures Snapshot() == Resync(old(storage.items), code, clientId, old(resource), outcomes)
    {
      outcomes := [];
      if code == "" {
        session, connected, inSession := None, false, false;
        return;
      }
      var loaded := LoadSession(storage.items, code);
      if loaded.None? {
        session, connected, inSession := None, false, false;
        return;
      }
      var s := loaded.value;
      ghost var items0, ledger0, code0, joinCode0 := storage.items, resource, code, joinCode;
      var swept, updated;
      swept, updated, outcomes := ApplyAcceptedOffers(s.offers);
      // Frame facts, stated right after the heap changes while the context is small: the later steps use them.
      assert code == code0 && joinCode == joinCode0 && storage.items == items0;
      ghost var sweep := ApplyAccepted(s.offers, clientId, ledger0, outcomes);
      assert sweep.offers == swept && sweep.ledger == resource && sweep.updated == updated;
      var t := s.(offers := swept);
      session := Some(t);
      inSession := s.host == Some(clientId) || s.guest == Some(clientId);
      connected := inSession && Filled(s.host) && Filled(s.guest);
      if updated {
        storage.SaveSession(code, t);
      }
      assert storage.items == if updated then items0[SessionKey(code) := Encode(t)] else items0;
      assert Resync(items0, code, clientId, ledger0, outcomes) == Local(Some(t), inSession, connected, resource, storage.items);
    }

    /**
      The common end of generateCode, connect, sendOffer, acceptOffer and rejectOffer: `c`
      becomes the client's code, `s` is saved under it, and a resynchronization reads it back.
     */
    method SaveAndSync(c: string, s: Session) returns (ghost outcomes: seq<(bool, bool)>)
      modifies this`code, this`session, this`inSession, this`connected, this`resource, storage
      ensures code == c && joinCode == old(joinCode)
      ensures Snapshot() == Resync(old(storage.items)[SessionKey(c) := Encode(s)], c, clientId, old(resource), outcomes)
    {
      ghost var ledger0, items0, joinCode0 := resource, storage.items, joinCode;
      code := c;
      // Frame facts, stated right after the heap changes while the context is small: the later steps use them.
      assert resource == ledger0 && storage.items == items0 && joinCode == joinCode0;
      storage.SaveSession(c, s);
      assert code == c && resource == ledger0 && joinCode == joinCode0 && storage.items == items0[SessionKey(c) := Encode(s)];
      outcomes := SyncSession();
    }

    /**
      generateCode: host under the normalized code field, or under a generated code when that
      is empty. A session whose two slots are filled is refused, even when this client holds
      one of them. The draft code `random` stands for Math.rand(100000, 999999).
     */
    method GenerateCode(random: nat) returns (ghost outcomes: seq<(bool, bool)>)
      modifies this, storage
      ensures var c := HostCode(old(code), random);
              var prior := LoadSession(old(storage.items), c);
              if prior.Some? && Full(prior.value) then unchanged(this, storage)
              else
                && code == c && joinCode == ""
                && Snapshot() == Resync(old(storage.items)[SessionKey(c) := Encode(Hosted(prior, c, clientId))],
                                        c, clientId, old(resource), outcomes)
                && inSession && session.Some? && session.value.code == c
                && session.value.host == Some(clientId) && session.value.guest != Some(clientId)
                && (connected <==> prior.Some? && Filled(prior.value.guest) && prior.value.guest != Some(clientId))
    {
      outcomes := [];
      var c := Normalize(code);
      if c == "" {
        c := DecimalString(random);
      }
      var prior := LoadSession(storage.items, c);
      if prior.Some? && Full(prior.value) {
        return;
      }
      var s := if prior.None? then Session(c, Some(clientId), None, []) else HostSlots(prior.value, clientId);
      assert s == Hosted(prior, c, clientId);
      ghost var items0, ledger0 := storage.items, resource;
      joinCode := "";
      // Frame facts, stated right after the heap changes while the context is small: the later steps use them.
      assert storage.items == items0 && resource == ledger0;
      outcomes := SaveAndSync(c, s);
      GenerateHosts(items0, old(code), random, clientId, ledger0, outcomes);
    }

    /**
      connect: join the session named by the join code field. An empty or unknown code is
      refused, and so is a session whose two slots other clients hold.
     */
    method Connect() returns (ghost outcomes: seq<(bool, bool)>)
      modifies this, storage
      ensures var c := Normalize(old(joinCode));
              var prior := LoadSession(old(storage.items), c);
              if c == "" || prior.None? || FullWithOthers(prior.value, clientId) then unchanged(this, storage)
              else
                var joined := JoinSlots(prior.value, clientId);
                && code == c && joinCode == old(joinCode)
                && Snapshot() == Resync(old(storage.items)[SessionKey(c) := Encode(joined)], c, clientId, old(resource), outcomes)
                && inSession && session.Some? && session.value.code == c
                && (connected <==> Full(joined))
    {
      outcomes := [];
      var c := Normalize(joinCode);
      if c == "" {
        return;
      }
      var prior := LoadSession(storage.items, c);
      if prior.None? || FullWithOthers(prior.value, clientId) {
        return;
      }
      var s := JoinSlots(prior.value, clientId);
      ghost var items0, ledger0 := storage.items, resource;
      outcomes := SaveAndSync(c, s);
      ConnectSeats(items0, old(joinCode), clientId, ledger0, outcomes);
    }

    /** disconnect: give up this client's slot in the stored session and clear the local fields. */
    method Disconnect()
      modifies this, storage
      ensures old(code) == "" ==> unchanged(this, storage)
      ensures old(code) != "" ==>
        && storage.items == Leave(old(storage.items), old(code), clientId)
        && code == "" && joinCode == "" && session.None? && !inSession && !connected
        && resource == old(resource)
    {
      if code == "" {
        return;
      }
      ghost var items0, ledger0 := storage.items, resource;
      var loaded := LoadSession(storage.items, code);
      if loaded.Some? {
        var s := loaded.value;
        if s.host == Some(clientId) {
          if Filled(s.guest) {
            storage.SaveSession(code, s.(host := None));
            assert storage.items == items0[SessionKey(old(code)) := Encode(s.(host := None))];
          } else {
            storage.DeleteSession(code);
            assert storage.items == items0 - {SessionKey(old(code))};
          }
        } else if s.guest == Some(clientId) {
          storage.SaveSession(code, s.(guest := None));
          assert storage.items == items0[SessionKey(old(code)) := Encode(s.(guest := None))];
        }
      }
      assert storage.items == Leave(items0, old(code), clientId) && resource == ledger0;
      code, joinCode := "", "";
      session := None;
      connected, inSession := false, false;
    }

    /**
      sendOffer: append a pending offer to the partner, save, and resynchronize. The trade
      draft fields are the parameters; `id` stands for the clock- and random-based offer id.
     */
    method SendOffer(giveRes: string, giveAmount: int, receiveRes: string, receiveAmount: int, id: string)
      returns (ghost outcomes: seq<(bool, bool)>)
      modifies this, storage
      ensures !CanSend(old(connected), old(session), clientId, old(resource), giveRes, giveAmount, receiveRes, receiveAmount) ==>
        unchanged(this, storage)
      ensures CanSend(old(connected), old(session), clientId, old(resource), giveRes, giveAmount, receiveRes, receiveAmount) ==>
        var offer := NewOffer(id, clientId, ResolvePartner(old(session), clientId), giveRes, giveAmount, receiveRes, receiveAmount);
        && code == old(code) && joinCode == old(joinCode)
        && Snapshot() == Resync(old(storage.items)[SessionKey(old(code)) := Encode(Propose(old(session).value, offer))],
                                old(code), clientId, old(resource), outcomes)
    {
      outcomes := [];
      if !connected || session.None? {
        return;
      }
      if giveRes == "" || receiveRes == "" || giveAmount <= 0 || receiveAmount <= 0 {
        return;
      }
      if giveRes !in resource || resource[giveRes] < giveAmount {
        return;
      }
      var partner := ResolvePartner(session, clientId);
      if partner == "" {
        return;
      }
      var offer := NewOffer(id, clientId, partner, giveRes, giveAmount, receiveRes, receiveAmount);
      outcomes := SaveAndSync(code, Propose(session.value, offer));
    }

    /**
      acceptOffer on the `i`th offer of the local session: refused unless it is pending and the
      client holds what it asks for; otherwise marked accepted, saved, and resynchronized,
      which applies it on this side.
     */
    method AcceptOffer(i: nat) returns (ghost outcomes: seq<(bool, bool)>)
      requires session.Some? && i < |session.value.offers|
      modifies this, storage
      ensures !CanAccept(old(session).value.offers[i], old(resource)) ==> unchanged(this, storage)
      ensures CanAccept(old(session).value.offers[i], old(resource)) ==>
        && code == old(code) && joinCode == old(joinCode)
        && Snapshot() == Resync(old(storage.items)[SessionKey(old(code)) := Encode(Decide(old(session).value, i, Accepted))],
                                old(code), clientId, old(resource), outcomes)
    {
      outcomes := [];
      var offer := session.value.offers[i];
      if offer.status != Pending {
        return;
      }
      if offer.receive.None? || offer.receive.value.res !in resource || resource[offer.receive.value.res] < offer.receive.value.amount {
        return;
      }
      outcomes := SaveAndSync(code, Decide(session.value, i, Accepted));
    }

    /** rejectOffer on the `i`th offer of the local session: a pending offer becomes rejected. */
    method RejectOffer(i: nat) returns (ghost outcomes: seq<(bool, bool)>)
      requires session.Some? && i < |session.value.offers|
      modifies this, storage
      ensures old(session).value.offers[i].status != Pending ==> unchanged(this, storage)
      ensures old(session).value.offers[i].status == Pending ==>
        && code == old(code) && joinCode == old(joinCode)
        && Snapshot() == Resync(old(storage.items)[SessionKey(old(code)) := Encode(Decide(old(session).value, i, Rejected))],
                                old(code), clientId, old(resource), outcomes)
    {
      outcomes := [];
      if session.value.offers[i].status != Pending {
        return;
      }
      outcomes := SaveAndSync(code, Decide(session.value, i, Rejected));
    }
  }
}
