/**
  Applying accepted offers to a client's resources (src/cities.js:85-119, 231-241).

  The resource ledger maps each known resource to its amount. modRes, which is not part of
  this model, is taken to add its delta and report success, or to change nothing and report
  failure; which of the two happens is an input here (`debitOk`, `creditOk`).
 */
module Trade {

  import opened Wrappers
  import opened Sessions

  type Ledger = map<string, int>

  /** What modRes(res, delta, true) leaves behind when it reports `ok`. */
  function ModResEffect(ledger: Ledger, res: string, delta: int, ok: bool): (r: Ledger)
    requires res in ledger
    ensures r.Keys == ledger.Keys
    ensures forall k :: k in ledger && k != res ==> r[k] == ledger[k]
    ensures r[res] == if ok then ledger[res] + delta else ledger[res]
  {
    if ok then ledger[res := ledger[res] + delta] else ledger
  }

  /** One side of a completed trade: `out` leaves the ledger, then `into` arrives. */
  function Exchange(ledger: Ledger, out: Stake, into: Stake): (r: Ledger)
    requires out.res in ledger && into.res in ledger
    ensures r.Keys == ledger.Keys
    ensures forall k :: k in ledger ==>
      r[k] == ledger[k] - (if k == out.res then out.amount else 0) + (if k == into.res then into.amount else 0)
  {
    var debited := ledger[out.res := ledger[out.res] - out.amount];
    debited[into.res := debited[into.res] + into.amount]
  }

  /** The debit alone, left behind when the credit that follows it fails. */
  function Debit(ledger: Ledger, out: Stake): Ledger
    requires out.res in ledger
  {
    ledger[out.res := ledger[out.res] - out.amount]
  }

  function Mark(o: Offer, client: string): Offer
  {
    o.(applied := o.applied + {client})
  }

  /** The stake `client` gives up under `o`: `give` for the proposer, `receive` for the counterparty. */
  function OwnOut(o: Offer, client: string): Stake
    requires o.give.Some? && o.receive.Some?
  {
    if o.from == client then o.give.value else o.receive.value
  }

  /** The stake `client` obtains under `o`. */
  function OwnIn(o: Offer, client: string): Stake
    requires o.give.Some? && o.receive.Some?
  {
    if o.from == client then o.receive.value else o.give.value
  }

  predicate Party(o: Offer, client: string)
  {
    client == o.from || client == o.to
  }

  /**
    Everything applyTradeOffer checks before it marks the offer: both stakes present, both
    resources known, and, for a party to the offer, enough of what it gives up.
   */
  predicate Covers(o: Offer, client: string, ledger: Ledger)
  {
    && o.give.Some? && o.receive.Some?
    && o.give.value.res in ledger && o.receive.value.res in ledger
    && (Party(o, client) ==> ledger[OwnOut(o, client).res] >= OwnOut(o, client).amount)
  }

  datatype Applied = Applied(offer: Offer, ledger: Ledger, ok: bool)

  /** applyTradeOffer, with the outcomes of its two modRes calls as inputs. */
  function Apply(o: Offer, client: string, ledger: Ledger, debitOk: bool, creditOk: bool): (a: Applied)
    ensures a.ledger.Keys == ledger.Keys
    // at most once per client
    ensures client in o.applied ==> a == Applied(o, ledger, false)
    // the offer is marked exactly when the checks pass; otherwise nothing changes
    ensures a.offer == Mark(o, client) || a.offer == o
    ensures a.offer != o <==> client !in o.applied && Covers(o, client, ledger)
    ensures a.offer == o ==> a.ledger == ledger && !a.ok
    // a reported success moved exactly the client's own side of the trade
    ensures a.ok ==> a.offer != o
    ensures a.ok && Party(o, client) ==> a.ledger == Exchange(ledger, OwnOut(o, client), OwnIn(o, client))
    ensures a.ok && !Party(o, client) ==> a.ledger == ledger
    // a failed modRes still marks the offer, keeping at most the debit
    ensures a.offer != o && !a.ok ==>
      Party(o, client) && (a.ledger == ledger || a.ledger == Debit(ledger, OwnOut(o, client)))
    // for a party, success is exactly both modRes calls succeeding; a failed debit skips the credit
    ensures a.offer != o && Party(o, client) ==> a.ok == (debitOk && creditOk)
    ensures a.offer != o && Party(o, client) && !debitOk ==> a.ledger == ledger
    ensures a.offer != o && Party(o, client) && debitOk && !creditOk ==> a.ledger == Debit(ledger, OwnOut(o, client))
  {
    if o.give.None? || o.receive.None? then Applied(o, ledger, false)
    else if client in o.applied then Applied(o, ledger, false)
    else
      var give, receive := o.give.value, o.receive.value;
      if give.res !in ledger || receive.res !in ledger then Applied(o, ledger, false)
      else if o.from == client then
        if ledger[give.res] < give.amount then Applied(o, ledger, false)
        else
          var debited := ModResEffect(ledger, give.res, -give.amount, debitOk);
          var credited := if debitOk then ModResEffect(debited, receive.res, receive.amount, creditOk) else debited;
          Applied(Mark(o, client), credited, debitOk && creditOk)
      else if o.to == client then
        if ledger[receive.res] < receive.amount then Applied(o, ledger, false)
        else
          var debited := ModResEffect(ledger, receive.res, -receive.amount, debitOk);
          var credited := if debitOk then ModResEffect(debited, give.res, give.amount, creditOk) else debited;
          Applied(Mark(o, client), credited, debitOk && creditOk)
      else Applied(Mark(o, client), ledger, true)
  }

  /**
    When both parties apply the same accepted offer in full, each resource changes by opposite
    amounts on the two sides, and the record then lists both of them as applied.
   */
  lemma TradeIsZeroSum(o: Offer, fromLedger: Ledger, toLedger: Ledger, d1: bool, c1: bool, d2: bool, c2: bool)
    requires o.from != o.to
    requires Apply(o, o.from, fromLedger, d1, c1).ok
    requires Apply(Apply(o, o.from, fromLedger, d1, c1).offer, o.to, toLedger, d2, c2).ok
    ensures var a1 := Apply(o, o.from, fromLedger, d1, c1);
            var a2 := Apply(a1.offer, o.to, toLedger, d2, c2);
            && a2.offer.applied == o.applied + {o.from, o.to}
            && forall k :: k in fromLedger && k in toLedger ==>
                 (a1.ledger[k] - fromLedger[k]) + (a2.ledger[k] - toLedger[k]) == 0
  {
    var a1 := Apply(o, o.from, fromLedger, d1, c1);
    var o1 := a1.offer;
    var a2 := Apply(o1, o.to, toLedger, d2, c2);
    assert o1 == Mark(o, o.from);
    assert OwnOut(o1, o.to) == o.receive.value && OwnIn(o1, o.to) == o.give.value;
    assert a1.ledger == Exchange(fromLedger, o.give.value, o.receive.value);
    assert a2.ledger == Exchange(toLedger, o.receive.value, o.give.value);
  }

  /** The two outcomes of modRes for the `i`th offer of a pass; absent ones count as successes. */
  function Outcome(outcomes: seq<(bool, bool)>, i: nat): (bool, bool)
  {
    if i < |outcomes| then outcomes[i] else (true, true)
  }

  datatype Sweep = Sweep(offers: seq<Offer>, ledger: Ledger, updated: bool)

  /**
    The pass of syncSession over the loaded offers, oldest first: every accepted offer is
    applied against the ledger as it stands after the ones before it. `updated` is whether
    some application reported success.
   */
  function ApplyAccepted(offers: seq<Offer>, client: string, ledger: Ledger, outcomes: seq<(bool, bool)>): (r: Sweep)
    decreases |offers|
    ensures |r.offers| == |offers|
  {
    if offers == [] then Sweep([], ledger, false)
    else
      var n := |offers| - 1;
      Step(ApplyAccepted(offers[..n], client, ledger, outcomes), offers[n], client, Outcome(outcomes, n))
  }

  /** Extends a pass by one offer: applied if accepted, kept as it is otherwise. */
  function Step(prev: Sweep, o: Offer, client: string, outcome: (bool, bool)): Sweep
  {
    if o.status == Accepted then
      var a := Apply(o, client, prev.ledger, outcome.0, outcome.1);
      Sweep(prev.offers + [a.offer], a.ledger, prev.updated || a.ok)
    else
      Sweep(prev.offers + [o], prev.ledger, prev.updated)
  }

  /**
    A pass keeps the resources known, changes an offer only by marking an accepted one that
    the client had not applied yet, and reports an update only when some offer changed.
   */
  lemma {:induction false} ApplyAcceptedShape(offers: seq<Offer>, client: string, ledger: Ledger, outcomes: seq<(bool, bool)>)
    ensures var r := ApplyAccepted(offers, client, ledger, outcomes);
      && r.ledger.Keys == ledger.Keys
      && (forall i :: 0 <= i < |offers| ==>
            r.offers[i] == offers[i] ||
            (offers[i].status == Accepted && client !in offers[i].applied && r.offers[i] == Mark(offers[i], client)))
      && (r.updated ==> exists i :: 0 <= i < |offers| && r.offers[i] != offers[i])
    decreases |offers|
  {
    if offers != [] {
      var n := |offers| - 1;
      ApplyAcceptedShape(offers[..n], client, ledger, outcomes);
      var prev := ApplyAccepted(offers[..n], client, ledger, outcomes);
      var y := StepShape(prev, offers[n], client, Outcome(outcomes, n));
      var r := ApplyAccepted(offers, client, ledger, outcomes);
      assert r.offers == prev.offers + [y];
      assert forall i :: 0 <= i < n ==> r.offers[i] == prev.offers[i] && offers[..n][i] == offers[i];
      if r.updated && prev.updated {
        var j :| 0 <= j < n && prev.offers[j] != offers[..n][j];
        assert r.offers[j] != offers[j];
      }
    }
  }

  /** One step appends the offer, marked or as it was, and keeps the resources known. */
  lemma StepShape(prev: Sweep, o: Offer, client: string, outcome: (bool, bool)) returns (y: Offer)
    ensures var r := Step(prev, o, client, outcome);
      && r.offers == prev.offers + [y] && r.ledger.Keys == prev.ledger.Keys
      && (y == o || (o.status == Accepted && client !in o.applied && y == Mark(o, client)))
      && (r.updated ==> prev.updated || y != o)
  {
    if o.status == Accepted {
      y := Apply(o, client, prev.ledger, outcome.0, outcome.1).offer;
    } else {
      y := o;
    }
  }

  /**
    The `i`th offer of a pass is accepted and its application reported success, against the
    ledger left by the offers before it.
   */
  predicate Succeeds(offers: seq<Offer>, client: string, ledger: Ledger, outcomes: seq<(bool, bool)>, i: nat)
    requires i < |offers|
  {
    var x := Outcome(outcomes, i);
    offers[i].status == Accepted &&
    Apply(offers[i], client, ApplyAccepted(offers[..i], client, ledger, outcomes).ledger, x.0, x.1).ok
  }

  /** The `i`th offer of a pass is the result of applying it against the ledger left by the offers before it. */
  lemma {:induction false} ApplyAcceptedAt(offers: seq<Offer>, client: string, ledger: Ledger, outcomes: seq<(bool, bool)>, i: nat)
    requires i < |offers|
    ensures var x := Outcome(outcomes, i);
      ApplyAccepted(offers, client, ledger, outcomes).offers[i] ==
        if offers[i].status == Accepted
        then Apply(offers[i], client, ApplyAccepted(offers[..i], client, ledger, outcomes).ledger, x.0, x.1).offer
        else offers[i]
    decreases |offers|
  {
    var n := |offers| - 1;
    var prev := ApplyAccepted(offers[..n], client, ledger, outcomes);
    var y := StepShape(prev, offers[n], client, Outcome(outcomes, n));
    if i < n {
      ApplyAcceptedAt(offers[..n], client, ledger, outcomes, i);
      assert offers[..n][..i] == offers[..i];
      assert (prev.offers + [y])[i] == prev.offers[i];
    }
  }

  /** A pass reports an update exactly when the application of some accepted offer reported success. */
  lemma {:induction false} ApplyAcceptedUpdated(offers: seq<Offer>, client: string, ledger: Ledger, outcomes: seq<(bool, bool)>)
    ensures ApplyAccepted(offers, client, ledger, outcomes).updated <==>
      exists i :: 0 <= i < |offers| && Succeeds(offers, client, ledger, outcomes, i)
    decreases |offers|
  {
    if offers != [] {
      var n := |offers| - 1;
      ApplyAcceptedUpdated(offers[..n], client, ledger, outcomes);
      forall i | 0 <= i < n
        ensures Succeeds(offers[..n], client, ledger, outcomes, i) <==> Succeeds(offers, client, ledger, outcomes, i)
      {
        assert offers[..n][..i] == offers[..i] && offers[..n][i] == offers[i];
      }
      if ApplyAccepted(offers, client, ledger, outcomes).updated {
        if !Succeeds(offers, client, ledger, outcomes, n) {
          var j :| 0 <= j < n && Succeeds(offers[..n], client, ledger, outcomes, j);
          assert Succeeds(offers, client, ledger, outcomes, j);
        }
      } else {
        forall i | 0 <= i < |offers| ensures !Succeeds(offers, client, ledger, outcomes, i) {
          if i < n {
            assert !Succeeds(offers[..n], client, ledger, outcomes, i);
          }
        }
      }
    }
  }

  /** Once the client has applied every accepted offer, a pass changes nothing and saves nothing. */
  lemma {:induction false} ApplyAcceptedSettled(offers: seq<Offer>, client: string, ledger: Ledger, outcomes: seq<(bool, bool)>)
    requires forall i :: 0 <= i < |offers| && offers[i].status == Accepted ==> client in offers[i].applied
    ensures ApplyAccepted(offers, client, ledger, outcomes) == Sweep(offers, ledger, false)
    decreases |offers|
  {
    if offers != [] {
      var n := |offers| - 1;
      ApplyAcceptedSettled(offers[..n], client, ledger, outcomes);
      assert offers[..n] + [offers[n]] == offers;
    }
  }

  /** A pass depends only on the outcomes of the offers it visits. */
  lemma {:induction false} ApplyAcceptedOutcomes(offers: seq<Offer>, client: string, ledger: Ledger, o1: seq<(bool, bool)>, o2: seq<(bool, bool)>)
    requires forall i :: 0 <= i < |offers| ==> Outcome(o1, i) == Outcome(o2, i)
    ensures ApplyAccepted(offers, client, ledger, o1) == ApplyAccepted(offers, client, ledger, o2)
    decreases |offers|
  {
    if offers != [] {
      ApplyAcceptedOutcomes(offers[..|offers| - 1], client, ledger, o1, o2);
    }
  }

  /** A pass over a single offer is one step from the starting ledger. */
  lemma ApplyAcceptedOne(o: Offer, client: string, ledger: Ledger, outcomes: seq<(bool, bool)>)
    ensures ApplyAccepted([o], client, ledger, outcomes) == Step(Sweep([], ledger, false), o, client, Outcome(outcomes, 0))
  {
    assert [o][..0] == [];
  }

  /** One more offer extends the pass by one step, using the outcomes recorded for it. */
  lemma ApplyAcceptedStep(offers: seq<Offer>, i: nat, client: string, ledger: Ledger, before: seq<(bool, bool)>, x: (bool, bool))
    requires i < |offers| && |before| == i
    ensures ApplyAccepted(offers[..i + 1], client, ledger, before + [x]) ==
      Step(ApplyAccepted(offers[..i], client, ledger, before), offers[i], client, x)
  {
    assert offers[..i + 1][..i] == offers[..i];
    ApplyAcceptedOutcomes(offers[..i], client, ledger, before, before + [x]);
  }
}
