/**
 The reader's connection epochs (crates/cdr-runtime/src/pro_runtime.rs): process
 identities and generations accepted from status records must never come back
 once they were superseded.
 */
module ConnectionEpochs {
  import opened Options
  import opened Sequences

  datatype Epoch = Epoch(identity: string, generation: nat)

  datatype Rejection = NotVerified | RetiredIdentity | GenerationRegressed | EpochChanged

  datatype Tracker = Tracker(current: Option<Epoch>, retired: set<string>)

  const NEW: Tracker := Tracker(None, {})

  /** A record's epoch, and whether it passed every check before the tracker is consulted. */
  datatype Offer = Offer(epoch: Epoch, verified: bool)

  function Decide(t: Tracker, offer: Offer): Option<Rejection> {
    if !offer.verified then Some(NotVerified)
    else if offer.epoch.identity in t.retired then Some(RetiredIdentity)
    else if t.current.Some? && t.current.value.identity == offer.epoch.identity
      && offer.epoch.generation < t.current.value.generation
    then Some(GenerationRegressed)
    else None
  }

  function Update(t: Tracker, offer: Offer): Tracker {
    if Decide(t, offer).Some? then t
    else if t.current.Some? && t.current.value.identity != offer.epoch.identity then
      Tracker(Some(offer.epoch), t.retired + {t.current.value.identity})
    else Tracker(Some(offer.epoch), t.retired)
  }

  class EpochTracker {
    var current: Option<Epoch>
    var retired: set<string>
    ghost var offers: seq<Offer>

    /** The tracker holds what the offers made so far leave. */
    ghost predicate Valid()
      reads this
    {
      View() == Run(offers)
    }

    function View(): Tracker
      reads this
    {
      Tracker(current, retired)
    }

    constructor ()
      ensures View() == NEW && Valid() && offers == []
    {
      current, retired := None, {};
      offers := [];
    }

    /**
     The tracker step of `verify_external_mcp_ready`: the offer is accepted exactly
     when it was verified and goes forward from the epochs accepted so far.
     */
    method VerifyReady(offer: Offer) returns (result: Result<Epoch, Rejection>)
      requires Valid()
      modifies this
      ensures Valid() && offers == old(offers) + [offer]
      ensures result.Ok? <==> offer.verified && Forward(Accepted(old(offers)), offer.epoch)
      ensures Accepted(offers) == Accepted(old(offers)) + if result.Ok? then [offer.epoch] else []
      ensures View() == Update(old(View()), offer)
      ensures result == if Decide(old(View()), offer).Some? then Err(Decide(old(View()), offer).value)
        else Ok(offer.epoch)
    {
      hide Forward, Run, Accepted;
      AcceptedExactly(offers, offer);
      OneMoreOffer(offers, offer);
      offers := offers + [offer];
      if !offer.verified {
        return Err(NotVerified);
      }
      if offer.epoch.identity in retired {
        return Err(RetiredIdentity);
      }
      if current.Some? {
        var previous := current.value;
        if previous.identity == offer.epoch.identity {
          if offer.epoch.generation < previous.generation {
            return Err(GenerationRegressed);
          }
        } else {
          retired := retired + {previous.identity};
        }
      }
      current := Some(offer.epoch);
      return Ok(offer.epoch);
    }

    /** `verify_epoch_unchanged` for an externally owned connection. */
    method VerifyUnchanged(expected: Epoch, offer: Offer) returns (result: Result<(), Rejection>)
      requires Valid()
      modifies this
      ensures Valid() && offers == old(offers) + [offer]
      ensures result.Ok? ==> Accepted(offers) == Accepted(old(offers)) + [expected]
      ensures View() == Update(old(View()), offer)
      ensures result.Ok? <==> Decide(old(View()), offer).None? && offer.epoch == expected
      ensures result == Err(EpochChanged) <==> Decide(old(View()), offer).None? && offer.epoch != expected
    {
      var ready := VerifyReady(offer);
      if ready.Err? {
        return Err(ready.error);
      }
      if ready.value != expected {
        return Err(EpochChanged);
      }
      return Ok(());
    }
  }

  // ------------------------------------------------------------------ every sequence of offers

  function Run(offers: seq<Offer>): Tracker {
    if offers == [] then NEW else Update(Run(offers[..|offers| - 1]), offers[|offers| - 1])
  }

  /** The epochs accepted so far, in order. */
  function Accepted(offers: seq<Offer>): seq<Epoch> {
    if offers == [] then []
    else
      var prior, offer := offers[..|offers| - 1], offers[|offers| - 1];
      if Decide(Run(prior), offer).None? then Accepted(prior) + [offer.epoch] else Accepted(prior)
  }

  lemma {:induction false} OneMoreOffer(offers: seq<Offer>, offer: Offer)
    ensures Run(offers + [offer]) == Update(Run(offers), offer)
    ensures Accepted(offers + [offer]) ==
      Accepted(offers) + if Decide(Run(offers), offer).None? then [offer.epoch] else []
  {
    InitAppend(offers, [offer]);
    AppendEmpty(offers);
    AppendEmpty(Accepted(offers));
  }

  /** Identities come in contiguous blocks that never recur, and generations never decrease inside a block. */
  ghost predicate Blocks(epochs: seq<Epoch>) {
    && (forall i, j, k | 0 <= i < j < k < |epochs| && epochs[i].identity == epochs[k].identity ::
          epochs[j].identity == epochs[i].identity)
    && (forall i, j | 0 <= i < j < |epochs| && epochs[i].identity == epochs[j].identity ::
          epochs[i].generation <= epochs[j].generation)
  }

  ghost predicate Tracks(t: Tracker, epochs: seq<Epoch>) {
    && t.current == (if epochs == [] then None else Some(epochs[|epochs| - 1]))
    && forall x: string :: x in t.retired <==>
         exists i :: 0 <= i < |epochs| && epochs[i].identity == x && x != epochs[|epochs| - 1].identity
  }

  lemma {:induction false} BlocksAppend(epochs: seq<Epoch>, e: Epoch)
    requires Blocks(epochs)
    requires forall i | 0 <= i < |epochs| && epochs[i].identity == e.identity ::
      epochs[|epochs| - 1].identity == e.identity && epochs[i].generation <= e.generation
    ensures Blocks(epochs + [e])
  {
    var more, n := epochs + [e], |epochs|;
    forall i, j, k | 0 <= i < j < k < |more| && more[i].identity == more[k].identity
      ensures more[j].identity == more[i].identity
    {
      if k == n && j < n - 1 {
        assert epochs[i].identity == epochs[n - 1].identity;
      }
    }
  }

  lemma {:induction false} TracksAppend(t: Tracker, epochs: seq<Epoch>, offer: Offer)
    requires Tracks(t, epochs) && Decide(t, offer).None?
    ensures Tracks(Update(t, offer), epochs + [offer.epoch])
  {
    var more, n, t' := epochs + [offer.epoch], |epochs|, Update(t, offer);
    forall y: string
      ensures y in t'.retired <==> exists i :: 0 <= i < |more| && more[i].identity == y && y != more[n].identity
    {
      if y in t'.retired {
        if y in t.retired {
          var i :| 0 <= i < n && epochs[i].identity == y && y != epochs[n - 1].identity;
          assert more[i].identity == y;
        } else {
          assert more[n - 1].identity == y;
        }
      }
    }
  }

  lemma {:induction false} AcceptKeepsBlocks(t: Tracker, epochs: seq<Epoch>, offer: Offer)
    requires Tracks(t, epochs) && Blocks(epochs) && Decide(t, offer).None?
    ensures Tracks(Update(t, offer), epochs + [offer.epoch]) && Blocks(epochs + [offer.epoch])
  {
    TracksAppend(t, epochs, offer);
    BlocksAppend(epochs, offer.epoch);
  }

  lemma {:induction false} RunTracks(offers: seq<Offer>)
    ensures Tracks(Run(offers), Accepted(offers)) && Blocks(Accepted(offers))
  {
    if offers == [] {
    } else {
      var prior, offer := offers[..|offers| - 1], offers[|offers| - 1];
      RunTracks(prior);
      if Decide(Run(prior), offer).None? {
        AcceptKeepsBlocks(Run(prior), Accepted(prior), offer);
      }
    }
  }

  /** The offer neither revives an old identity nor turns back its own. */
  ghost predicate Forward(epochs: seq<Epoch>, e: Epoch) {
    forall i | 0 <= i < |epochs| && epochs[i].identity == e.identity ::
      epochs[i].generation <= e.generation && epochs[|epochs| - 1].identity == e.identity
  }

  lemma {:induction false} DecideMeaning(t: Tracker, epochs: seq<Epoch>, offer: Offer)
    requires Tracks(t, epochs) && Blocks(epochs)
    ensures Decide(t, offer).None? <==> offer.verified && Forward(epochs, offer.epoch)
  {
    var n, x := |epochs|, offer.epoch.identity;
    if x in t.retired {
      var i :| 0 <= i < n && epochs[i].identity == x && x != epochs[n - 1].identity;
      assert !Forward(epochs, offer.epoch);
    } else if t.current.Some? && t.current.value.identity == x {
      assert epochs[n - 1].identity == x;
      if Decide(t, offer).None? {
        assert forall i | 0 <= i < n - 1 && epochs[i].identity == x :: epochs[i].generation <= epochs[n - 1].generation;
      }
    }
  }

  /** An offer is accepted exactly when it was verified and neither revives an old identity nor turns back its own. */
  lemma {:induction false} AcceptedExactly(offers: seq<Offer>, offer: Offer)
    ensures Decide(Run(offers), offer).None? <==> offer.verified && Forward(Accepted(offers), offer.epoch)
  {
    RunTracks(offers);
    DecideMeaning(Run(offers), Accepted(offers), offer);
  }

  /** No ABA: an epoch accepted twice was the only one accepted in between. */
  lemma {:induction false} NoAba(offers: seq<Offer>, i: nat, j: nat, k: nat)
    requires i < j < k < |Accepted(offers)| && Accepted(offers)[i] == Accepted(offers)[k]
    ensures Accepted(offers)[j] == Accepted(offers)[i]
  {
    RunTracks(offers);
  }

  lemma {:induction false} AcceptedGrows(offers: seq<Offer>, more: seq<Offer>)
    ensures Accepted(offers) <= Accepted(offers + more)
    decreases |more|
  {
    if more == [] {
      assert offers + more == offers;
    } else {
      var n := |more| - 1;
      AcceptedGrows(offers, more[..n]);
      assert (offers + more)[..|offers + more| - 1] == offers + more[..n];
    }
  }

  /**
   When the epoch held at the start of a turn is still the accepted one at its
   end, every epoch accepted during the turn, whoever asked, was that epoch.
   */
  lemma {:induction false} UnchangedMeansUnchangedThroughout(before: seq<Offer>, during: seq<Offer>, last: Offer,
      j: nat)
    requires Accepted(before) != [] && Decide(Run(before + during), last).None?
    requires last.epoch == Accepted(before)[|Accepted(before)| - 1]
    requires |Accepted(before)| <= j < |Accepted(before + during)|
    ensures Accepted(before + during)[j] == last.epoch
  {
    var all := before + during + [last];
    assert all[..|all| - 1] == before + during;
    AcceptedGrows(before, during);
    NoAba(all, |Accepted(before)| - 1, j, |Accepted(all)| - 1);
  }

  /** The identity was accepted before the latest one replaced it. */
  ghost predicate Superseded(epochs: seq<Epoch>, x: string) {
    exists i :: 0 <= i < |epochs| && epochs[i].identity == x && x != epochs[|epochs| - 1].identity
  }

  /**
   Each refusal by the epochs accepted before: unverified, of an earlier identity,
   or behind the latest generation.
   */
  lemma {:induction false} RefusalsExactly(offers: seq<Offer>, offer: Offer)
    ensures var epochs, n, e := Accepted(offers), |Accepted(offers)|, offer.epoch;
      && (Decide(Run(offers), offer) == Some(NotVerified) <==> !offer.verified)
      && (Decide(Run(offers), offer) == Some(RetiredIdentity) <==> offer.verified && Superseded(epochs, e.identity))
      && (Decide(Run(offers), offer) == Some(GenerationRegressed) <==>
            offer.verified && n > 0 && epochs[n - 1].identity == e.identity && e.generation < epochs[n - 1].generation)
  {
    hide Run, Accepted, Superseded;
    RunTracks(offers);
    RetiredIsSuperseded(Run(offers), Accepted(offers), offer.epoch.identity);
  }

  lemma {:induction false} RetiredIsSuperseded(t: Tracker, epochs: seq<Epoch>, x: string)
    requires Tracks(t, epochs)
    ensures x in t.retired <==> Superseded(epochs, x)
    ensures epochs != [] && epochs[|epochs| - 1].identity == x ==> !Superseded(epochs, x)
  {
  }
}
