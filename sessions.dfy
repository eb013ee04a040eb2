/**
  The shared session record and its trade offers (src/cities.js:72-83, 253-268, 286-295,
  349-357, 363-374), as values.

  A slot (`host`, `guest`) is `None` where the record holds `null`. The code tests a slot
  for truth (`session.host && session.guest`), which also fails for an empty string:
  `Filled` is that test.
 */
module Sessions {

  import opened Wrappers

  datatype Status = Pending | Accepted | Rejected

  /** One side of an offer: an amount of one resource. */
  datatype Stake = Stake(res: string, amount: int)

  /**
    `give` is what `from` surrenders, `receive` what `from` gains. Either may be missing
    from a record written elsewhere. `applied` holds the clients that have already
    applied the accepted offer to their own resources.
   */
  datatype Offer = Offer(
    id: string,
    from: string,
    to: string,
    give: Option<Stake>,
    receive: Option<Stake>,
    status: Status,
    applied: set<string>)

  datatype Session = Session(
    code: string,
    host: Option<string>,
    guest: Option<string>,
    offers: seq<Offer>)

  /** The truth of a slot in the source: present and not the empty string. */
  predicate Filled(slot: Option<string>)
  {
    slot.Some? && slot.value != ""
  }

  predicate Occupies(s: Session, client: string)
  {
    s.host == Some(client) || s.guest == Some(client)
  }

  /** Both slots are taken. */
  predicate Full(s: Session)
  {
    Filled(s.host) && Filled(s.guest)
  }

  /** Both slots are taken, and by two clients other than `client`. */
  predicate FullWithOthers(s: Session, client: string)
  {
    Full(s) && s.host != Some(client) && s.guest != Some(client)
  }

  /** No client holds both slots at once. */
  predicate Distinct(s: Session)
  {
    s.host.Some? && s.guest.Some? ==> s.host != s.guest
  }

  /**
    resolvePartner: the other occupant when `client` holds a slot, otherwise "".
    A missing other occupant also gives "".
   */
  function ResolvePartner(session: Option<Session>, client: string): (partner: string)
    ensures partner != "" ==>
      session.Some? &&
      ((session.value.host == Some(client) && session.value.guest == Some(partner)) ||
       (session.value.host != Some(client) && session.value.guest == Some(client) &&
        session.value.host == Some(partner)))
    ensures session.Some? && session.value.host == Some(client) && Filled(session.value.guest) ==>
      partner == session.value.guest.value
    ensures (session.Some? && session.value.host != Some(client) && session.value.guest == Some(client)
             && Filled(session.value.host)) ==> partner == session.value.host.value
    ensures session.None? || !Occupies(session.value, client) ==> partner == ""
  {
    match session
    case None => ""
    case Some(s) =>
      if s.host == Some(client) then (if s.guest.Some? then s.guest.value else "")
      else if s.guest == Some(client) then (if s.host.Some? then s.host.value else "")
      else ""
  }

  predicate IsIncoming(o: Offer, client: string)
  {
    o.to == client && o.status == Pending
  }

  /** The offers in `offers` addressed to `client` and still pending, in their order. */
  function Incoming(offers: seq<Offer>, client: string): (r: seq<Offer>)
    ensures forall o :: o in r <==> o in offers && IsIncoming(o, client)
    ensures |r| <= |offers|
  {
    if offers == [] then []
    else (if IsIncoming(offers[0], client) then [offers[0]] else []) + Incoming(offers[1..], client)
  }

  /** All offers made by `client`, whatever their status, in their order. */
  function Outgoing(offers: seq<Offer>, client: string): (r: seq<Offer>)
    ensures forall o :: o in r <==> o in offers && o.from == client
    ensures |r| <= |offers|
  {
    if offers == [] then []
    else (if offers[0].from == client then [offers[0]] else []) + Outgoing(offers[1..], client)
  }

  /** incomingOffers: nothing without a session. */
  function IncomingOffers(session: Option<Session>, client: string): seq<Offer>
  {
    if session.None? then [] else Incoming(session.value.offers, client)
  }

  /** outgoingOffers: nothing without a session. */
  function OutgoingOffers(session: Option<Session>, client: string): seq<Offer>
  {
    if session.None? then [] else Outgoing(session.value.offers, client)
  }

  /** The filters keep order: filtering a concatenation concatenates the filtered parts. */
  lemma {:induction false} IncomingDistributes(a: seq<Offer>, b: seq<Offer>, client: string)
    ensures Incoming(a + b, client) == Incoming(a, client) + Incoming(b, client)
  {
    if a == [] {
      assert a + b == b;
    } else {
      var head := if IsIncoming(a[0], client) then [a[0]] else [];
      assert (a + b)[0] == a[0];
      assert (a + b)[1..] == a[1..] + b;
      IncomingDistributes(a[1..], b, client);
      calc {
        Incoming(a + b, client);
        head + Incoming(a[1..] + b, client);
        head + (Incoming(a[1..], client) + Incoming(b, client));
        (head + Incoming(a[1..], client)) + Incoming(b, client);
        Incoming(a, client) + Incoming(b, client);
      }
    }
  }

  lemma {:induction false} OutgoingDistributes(a: seq<Offer>, b: seq<Offer>, client: string)
    ensures Outgoing(a + b, client) == Outgoing(a, client) + Outgoing(b, client)
  {
    if a == [] {
      assert a + b == b;
    } else {
      var head := if a[0].from == client then [a[0]] else [];
      assert (a + b)[0] == a[0];
      assert (a + b)[1..] == a[1..] + b;
      OutgoingDistributes(a[1..], b, client);
      calc {
        Outgoing(a + b, client);
        head + Outgoing(a[1..] + b, client);
        head + (Outgoing(a[1..], client) + Outgoing(b, client));
        (head + Outgoing(a[1..], client)) + Outgoing(b, client);
        Outgoing(a, client) + Outgoing(b, client);
      }
    }
  }

  /** generateCode on an existing record: `client` becomes host and gives up the guest slot. */
  function HostSlots(s: Session, client: string): Session
  {
    s.(host := Some(client), guest := if s.guest == Some(client) then None else s.guest)
  }

  /** Hosting seats `client` as host, never as guest too, and keeps every other field. */
  lemma HostSlotsSeatsHost(s: Session, client: string)
    ensures HostSlots(s, client).host == Some(client)
    ensures HostSlots(s, client).guest != Some(client)
    ensures Distinct(HostSlots(s, client))
    ensures HostSlots(s, client).code == s.code && HostSlots(s, client).offers == s.offers
    ensures s.guest != Some(client) ==> HostSlots(s, client).guest == s.guest
    ensures s.guest == Some(client) ==> HostSlots(s, client).guest.None?
  {
  }

  /** connect on a record it did not refuse, as written: the empty host slot first. */
  function JoinSlots(s: Session, client: string): Session
  {
    if !Filled(s.host) then s.(host := Some(client))
    else if !Filled(s.guest) && s.host != Some(client) then s.(guest := Some(client))
    else s
  }

  /** Joining a record that is not full with others seats `client` and changes one slot at most. */
  lemma JoinSlotsSeats(s: Session, client: string)
    requires client != ""
    requires !FullWithOthers(s, client)
    ensures Occupies(JoinSlots(s, client), client)
    ensures JoinSlots(s, client).code == s.code && JoinSlots(s, client).offers == s.offers
    ensures JoinSlots(s, client).host == s.host || JoinSlots(s, client).guest == s.guest
    ensures Filled(JoinSlots(s, client).host)
    // only an empty slot is filled, and only with the client: no occupant is displaced
    ensures JoinSlots(s, client).host != s.host ==> !Filled(s.host) && JoinSlots(s, client).host == Some(client)
    ensures JoinSlots(s, client).guest != s.guest ==>
      !Filled(s.guest) && Filled(s.host) && s.host != Some(client) && JoinSlots(s, client).guest == Some(client)
  {
  }

  /**
    As written, a client that holds the guest slot of a record whose host slot is empty is
    seated as host as well: the record then names it in both slots.
   */
  lemma JoinSlotsCanSeatTwice()
    ensures var s := Session("483920", None, Some("mp-g"), []);
      Distinct(s) && !Distinct(JoinSlots(s, "mp-g"))
  {
  }

  /** connect as evidently intended: a client already seated keeps its slot. */
  function JoinSlotsIntended(s: Session, client: string): Session
  {
    if Occupies(s, client) then s
    else if !Filled(s.host) then s.(host := Some(client))
    else if !Filled(s.guest) then s.(guest := Some(client))
    else s
  }

  /** The intended join keeps the two slots distinct and still seats the client when there is room. */
  lemma JoinSlotsIntendedKeepsDistinct(s: Session, client: string)
    requires client != ""
    requires Distinct(s)
    ensures Distinct(JoinSlotsIntended(s, client))
    ensures !FullWithOthers(s, client) ==> Occupies(JoinSlotsIntended(s, client), client)
  {
  }
}
