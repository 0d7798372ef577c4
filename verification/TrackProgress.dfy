/** What tracking makes of a receipt, told from the receipt and the observations alone. */
module TrackProgress {
  import opened Outcomes
  import opened Texts
  import opened Track

  // ---------- one turn ----------

  predicate AtSource(t: Transfer) { t.state == SourceInitiated || t.state == SourceFinalized }

  predicate InPursuit(t: Transfer) { t.state == Attested || t.state == Failed }

  predicate AtDestination(t: Transfer) { t.state == DestinationInitiated || t.state == DestinationQueued }

  /** The message is known by the end of the turn's first part. */
  function Message(t: Transfer, o: Observation): Option<Vaa> { if AtSource(t) then o.vaa else t.attestation }

  /** By the end of the turn the transfer has been approved. */
  predicate Arrives(t: Transfer, o: Observation) {
    AtDestination(t) || ((AtSource(t) || InPursuit(t)) && o.approved)
  }

  /** What a turn never touches, and the message it leaves. */
  predicate KeepsAccount(t: Transfer, o: Observation, next: Transfer) {
    && next.attestation == Message(t, o)
    && next.originTxs == t.originTxs && next.sendTransceivers == t.sendTransceivers
    && next.destinationTxs == t.destinationTxs
  }

  /** An arrived transfer is queued, final or neither, as the destination tells. */
  predicate SettlesAsTold(t: Transfer, o: Observation, next: Transfer) {
    && next.attested == t.attested && next.error == t.error
    && (next.state == DestinationFinalized <==> o.queued == None && o.executed)
    && (o.queued.Some? ==> next.state == DestinationQueued && next.releaseTime == Some(o.queued.value * 1000))
    && (o.queued == None ==> next.releaseTime == t.releaseTime)
    && (o.queued == None && !o.executed ==> next.state == if AtDestination(t) then t.state else DestinationInitiated)
  }

  lemma ArrivingSettles(t: Transfer, o: Observation, isManual: bool)
    requires Turn(t, o, isManual).outcome.Ok? && Arrives(t, o)
    ensures KeepsAccount(t, o, Turn(t, o, isManual).outcome.value)
    ensures SettlesAsTold(t, o, Turn(t, o, isManual).outcome.value)
  {
    hide CheckFrom, WormholeLast;
  }

  // ---------- the transceivers that are checked ----------

  /**
   * The check of the sorted transceivers gets to the k-th: each before it had attested, or attests now,
   * and the k-th neither has, itself or by its kind, nor does.
   */
  ghost predicate StopsAt(t: Transfer, sorted: seq<Transceiver>, o: Observation, k: nat) {
    && k <= |sorted|
    && (forall j :: 0 <= j < k ==> Clears(t, sorted, o, j))
    && (k < |sorted| ==> !Clears(t, sorted, o, k))
  }

  ghost predicate Clears(t: Transfer, sorted: seq<Transceiver>, o: Observation, j: nat)
    requires j < |sorted|
  {
    Lower(sorted[j].kind) in t.attested || o.attests(j, sorted[j].index) || SeenBefore(sorted, j)
  }

  ghost predicate SeenBefore(sorted: seq<Transceiver>, j: nat)
    requires j < |sorted|
  {
    exists i :: 0 <= i < j && Lower(sorted[i].kind) == Lower(sorted[j].kind)
  }

  /** Something has attested that had not before. */
  ghost predicate NewlyAttests(t: Transfer, sorted: seq<Transceiver>, k: nat)
    requires k <= |sorted|
  {
    exists j :: 0 <= j < k && Lower(sorted[j].kind) !in t.attested
  }

  /** What the relayer of the transceiver that is waited for says, if one is asked. */
  function RelayError(kind: string, o: Observation, isManual: bool): Option<Option<Relay>>
  {
    if kind == "wormhole" then
      if isManual || o.executorStatus == None then None
      else if o.executorStatus.value in ["failed", "underpaid", "unsupported", "aborted"]
      then Some(Some(RelayStatus(o.executorStatus.value)))
      else Some(None)
    else if kind == "axelar" then
      Some(if o.axelarError == None then None else Some(AxelarError(o.axelarError.value)))
    else None
  }

  /** A transfer that is pursued further: a new attestation undoes a failure, then the relayer has its say. */
  ghost predicate PursuedAsTold(t: Transfer, o: Observation, isManual: bool, sorted: seq<Transceiver>, k: nat,
                                next: Transfer)
    requires k <= |sorted|
  {
    && (forall kind :: kind in next.attested <==>
          kind in t.attested || exists j :: 0 <= j < k && Lower(sorted[j].kind) == kind)
    && next.releaseTime == t.releaseTime
    && var failing := t.state == Failed && !NewlyAttests(t, sorted, k);
       var said := if k < |sorted| then RelayError(Lower(sorted[k].kind), o, isManual) else None;
       && (next.state == Failed <==> if said.Some? then said.value.Some? else failing)
       && (next.state == Failed || next.state == Attested)
       && next.error == if said == None then t.error
                        else if said.value.Some? then said.value
                        else if failing then None else t.error
  }

  /** Recording the k-th transceiver's kind clears no other that was not cleared. */
  lemma RecordedStops(t: Transfer, recorded: Transfer, sorted: seq<Transceiver>, o: Observation, k: nat, stop: nat)
    requires k < stop <= |sorted| && o.attests(k, sorted[k].index)
    requires recorded.attested == t.attested + {Lower(sorted[k].kind)} && StopsAt(recorded, sorted, o, stop)
    requires forall i :: 0 <= i < k ==> Lower(sorted[i].kind) in t.attested
    ensures StopsAt(t, sorted, o, stop)
  {
    hide Lower;
    forall j | 0 <= j < stop
      ensures Clears(t, sorted, o, j)
    {
      assert Clears(recorded, sorted, o, j);
      assert j > k && Lower(sorted[j].kind) == Lower(sorted[k].kind) ==> SeenBefore(sorted, j);
    }
  }

  lemma RecordedPursues(t: Transfer, recorded: Transfer, sorted: seq<Transceiver>, o: Observation, isManual: bool,
                        k: nat, stop: nat, next: Transfer)
    requires k < stop <= |sorted| && Lower(sorted[k].kind) !in t.attested && InPursuit(t)
    requires recorded == t.(state := Attested, attested := t.attested + {Lower(sorted[k].kind)})
    requires PursuedAsTold(recorded, o, isManual, sorted, stop, next)
    ensures PursuedAsTold(t, o, isManual, sorted, stop, next)
  {
    hide Lower, RelayError;
    assert NewlyAttests(t, sorted, stop);
  }

  /** What asking the relayer throws. */
  function RelayThrows(kind: string, originTxs: seq<string>, o: Observation, isManual: bool): Option<Failure>
  {
    if kind != "wormhole" && kind != "axelar" then Some(Unsupported(kind))
    else if kind == "wormhole" && isManual then None
    else if originTxs == [] then Some(NoOrigin)
    else if kind == "wormhole" && o.executorStatus == None then Some(NoStatus)
    else None
  }

  lemma {:induction false} CheckTold(t: Transfer, sorted: seq<Transceiver>, k: nat, o: Observation, isManual: bool)
    returns (stop: nat)
    requires InPursuit(t) && k <= |sorted|
    requires forall i :: 0 <= i < k ==> Lower(sorted[i].kind) in t.attested
    ensures k <= stop <= |sorted|
    ensures StopsAt(t, sorted, o, stop)
    ensures var p := CheckFrom(t, sorted, k, o, isManual);
            var thrown :=
              if stop < |sorted| then RelayThrows(Lower(sorted[stop].kind), t.originTxs, o, isManual) else None;
            && (match thrown case Some(e) => p.outcome == Err(e) case None => p.outcome.Ok?)
            && (p.outcome.Ok? ==>
                  && PursuedAsTold(t, o, isManual, sorted, stop, p.outcome.value)
                  && p.outcome.value.attestation == t.attestation && p.outcome.value.originTxs == t.originTxs
                  && p.outcome.value.sendTransceivers == t.sendTransceivers
                  && p.outcome.value.destinationTxs == t.destinationTxs)
    decreases |sorted| - k
  {
    if k == |sorted| {
      stop := k;
    } else {
      var kind := Kind(sorted[k]);
      if kind in t.attested {
        stop := CheckTold(t, sorted, k + 1, o, isManual);
      } else if o.attests(k, sorted[k].index) {
        var recorded := Recorded(t, kind).outcome.value;
        stop := CheckTold(recorded, sorted, k + 1, o, isManual);
        RecordedStops(t, recorded, sorted, o, k, stop);
        if CheckFrom(recorded, sorted, k + 1, o, isManual).outcome.Ok? {
          RecordedPursues(t, recorded, sorted, o, isManual, k, stop,
                          CheckFrom(recorded, sorted, k + 1, o, isManual).outcome.value);
        }
      } else {
        stop := k;
      }
    }
  }

  lemma PursuingCheck(t: Transfer, o: Observation, isManual: bool) returns (stop: nat)
    requires AtSource(t) || InPursuit(t)
    requires AtSource(t) ==> t.originTxs != [] && o.message && o.vaa.Some?
    requires InPursuit(t) ==> t.attestation.Some?
    requires !o.approved
    ensures var sorted := WormholeLast(t.sendTransceivers);
            && stop <= |sorted| && StopsAt(t, sorted, o, stop)
            && var thrown :=
                 if stop < |sorted| then RelayThrows(Lower(sorted[stop].kind), t.originTxs, o, isManual) else None;
            && var p := Turn(t, o, isManual);
            && (match thrown case Some(e) => p.outcome == Err(e) case None => p.outcome.Ok?)
            && (p.outcome.Ok? ==>
                  KeepsAccount(t, o, p.outcome.value)
                  && PursuedAsTold(t, o, isManual, sorted, stop, p.outcome.value))
  {
    var sorted := WormholeLast(t.sendTransceivers);
    var x := if AtSource(t) then t.(state := Attested, attestation := o.vaa) else t;
    stop := CheckTold(x, sorted, 0, o, isManual);
    hide WormholeLast, CheckFrom, RelayThrows, Lower, RelayError;
    StopsSame(t, x, sorted, o, stop);
    if CheckFrom(x, sorted, 0, o, isManual).outcome.Ok? {
      PursuedSame(t, o, isManual, sorted, stop, CheckFrom(x, sorted, 0, o, isManual).outcome.value);
    }
  }

  lemma StopsSame(t: Transfer, x: Transfer, sorted: seq<Transceiver>, o: Observation, stop: nat)
    requires x.attested == t.attested && StopsAt(x, sorted, o, stop)
    ensures StopsAt(t, sorted, o, stop)
  {
    hide Lower;
    forall j | 0 <= j < |sorted|
      ensures Clears(t, sorted, o, j) <==> Clears(x, sorted, o, j)
    {
    }
  }

  lemma PursuedSame(t: Transfer, o: Observation, isManual: bool, sorted: seq<Transceiver>, stop: nat, next: Transfer)
    requires stop <= |sorted|
    requires PursuedAsTold(if AtSource(t) then t.(state := Attested, attestation := o.vaa) else t, o, isManual, sorted,
                           stop, next)
    ensures PursuedAsTold(t, o, isManual, sorted, stop, next)
  {
    hide Lower, RelayError;
    var x := if AtSource(t) then t.(state := Attested, attestation := o.vaa) else t;
    assert NewlyAttests(t, sorted, stop) <==> NewlyAttests(x, sorted, stop);
  }

  /** A transfer that is not approved is pursued as it is told, or the turn throws. */
  lemma PursuingTurn(t: Transfer, o: Observation, isManual: bool) returns (stop: nat)
    requires (AtSource(t) || InPursuit(t)) && !o.approved && Turn(t, o, isManual).outcome.Ok?
    ensures var sorted := WormholeLast(t.sendTransceivers);
            && stop <= |sorted| && StopsAt(t, sorted, o, stop)
            && KeepsAccount(t, o, Turn(t, o, isManual).outcome.value)
            && PursuedAsTold(t, o, isManual, sorted, stop, Turn(t, o, isManual).outcome.value)
  {
    StartThrows(t, o, isManual);
    hide Turn, WormholeLast, PursuedAsTold, StopsAt;
    stop := PursuingCheck(t, o, isManual);
  }

  /** What the turn throws before it checks a transceiver. */
  function StartThrow(t: Transfer, o: Observation): Option<Failure>
  {
    if AtSource(t) then
      if t.originTxs == [] then Some(NoOrigin)
      else if !o.message then Some(NoMessage)
      else if o.vaa == None then Some(NoVaa)
      else None
    else if (InPursuit(t) || AtDestination(t)) && t.attestation == None then Some(NoAttestation)
    else None
  }

  lemma StartThrows(t: Transfer, o: Observation, isManual: bool)
    ensures StartThrow(t, o).Some? ==> Turn(t, o, isManual).outcome == Err(StartThrow(t, o).value)
    ensures StartThrow(t, o) == None && (Arrives(t, o) || !(AtSource(t) || InPursuit(t))) ==>
              Turn(t, o, isManual).outcome.Ok?
  {
    hide CheckFrom, WormholeLast;
  }

  /** A turn throws exactly for what is missing, or for the transceiver it waits for. */
  lemma TurnThrows(t: Transfer, o: Observation, isManual: bool)
    ensures Turn(t, o, isManual).outcome.Err? <==>
              || StartThrow(t, o).Some?
              || ((AtSource(t) || InPursuit(t)) && !o.approved
                  && exists stop :: 0 <= stop < |WormholeLast(t.sendTransceivers)|
                       && StopsAt(t, WormholeLast(t.sendTransceivers), o, stop)
                       && RelayThrows(Lower(WormholeLast(t.sendTransceivers)[stop].kind),
                                      t.originTxs, o, isManual).Some?)
  {
    StartThrows(t, o, isManual);
    hide Turn, WormholeLast, StopsAt, RelayThrows, PursuedAsTold;
    if StartThrow(t, o) == None && (AtSource(t) || InPursuit(t)) && !o.approved {
      var stop := PursuingCheck(t, o, isManual);
      forall other: nat | StopsAt(t, WormholeLast(t.sendTransceivers), o, other)
        ensures other == stop
      {
        OneStop(t, WormholeLast(t.sendTransceivers), o, stop, other);
      }
    }
  }

  lemma OneStop(t: Transfer, sorted: seq<Transceiver>, o: Observation, a: nat, b: nat)
    requires StopsAt(t, sorted, o, a) && StopsAt(t, sorted, o, b)
    ensures a == b
  {
    hide Clears;
  }

  // ---------- the run ----------

  /** The time the first turns have taken. */
  function Time(told: seq<Observation>, i: nat): nat
    requires i <= |told|
  {
    if i == 0 then 0 else told[0].elapsed + Time(told[1..], i - 1)
  }

  ghost predicate ApprovedBy(told: seq<Observation>, i: nat)
    requires i < |told|
  {
    exists j :: 0 <= j <= i && told[j].approved
  }

  /** The turn in which the transfer, arrived by then, is told to be executed and not queued. */
  ghost predicate FinishesAt(t: Transfer, told: seq<Observation>, leftover: int, i: nat) {
    && i < |told| && Time(told, i) < leftover
    && (AtDestination(t) || ((AtSource(t) || InPursuit(t)) && ApprovedBy(told, i)))
    && told[i].queued == None && told[i].executed
  }

  /** What one turn leaves, as far as arriving and finishing go. */
  lemma TurnMoves(t: Transfer, o: Observation, isManual: bool)
    requires Turn(t, o, isManual).outcome.Ok? && t.state != DestinationFinalized
    ensures var next := Turn(t, o, isManual).outcome.value;
            && (next.state == DestinationFinalized <==> Arrives(t, o) && o.queued == None && o.executed)
            && (Arrives(t, o) ==> Arrived(next.state))
            && (!Arrives(t, o) && (AtSource(t) || InPursuit(t)) ==> InPursuit(next))
            && (!Arrives(t, o) && !(AtSource(t) || InPursuit(t)) ==> next == t)
  {
    if Arrives(t, o) {
      ArrivingSettles(t, o, isManual);
    } else if AtSource(t) || InPursuit(t) {
      hide Turn, WormholeLast;
      var stop := PursuingTurn(t, o, isManual);
    }
  }

  lemma LaterFinish(t: Transfer, next: Transfer, told: seq<Observation>, leftover: int, i: nat)
    requires told != [] && t.state != DestinationFinalized && next.state != DestinationFinalized
    requires Arrives(t, told[0]) ==> Arrived(next.state)
    requires !Arrives(t, told[0]) && (AtSource(t) || InPursuit(t)) ==> InPursuit(next)
    requires !Arrives(t, told[0]) && !(AtSource(t) || InPursuit(t)) ==> next == t
    ensures FinishesAt(next, told[1..], leftover - told[0].elapsed, i) <==> FinishesAt(t, told, leftover, i + 1)
  {
    if i < |told| - 1 {
      assert told[1..][i] == told[i + 1];
      assert Time(told, i + 1) == told[0].elapsed + Time(told[1..], i);
      assert ApprovedBy(told, i + 1) <==> told[0].approved || ApprovedBy(told[1..], i) by {
        forall j | 0 <= j <= i
          ensures told[1..][j] == told[j + 1]
        {
        }
      }
    }
  }

  /** What remains to be told finishes where all of it does, one turn later. */
  ghost predicate Shifted(t: Transfer, told: seq<Observation>, leftover: int, next: Transfer, rest: seq<Observation>,
                          left: int)
  {
    && !FinishesAt(t, told, leftover, 0)
    && forall i: nat :: FinishesAt(next, rest, left, i) <==> FinishesAt(t, told, leftover, i + 1)
  }

  ghost predicate FinishesSometime(t: Transfer, told: seq<Observation>, leftover: int) {
    exists i: nat :: FinishesAt(t, told, leftover, i)
  }

  /** The turns after the finishing one play no part. */
  ghost predicate EndsThere(t: Transfer, told: seq<Observation>, leftover: int, isManual: bool) {
    forall i: nat :: FinishesAt(t, told, leftover, i) ==>
      Run(t, told, leftover, isManual) == Run(t, told[..i + 1], leftover, isManual)
  }

  lemma ShiftedFinish(t: Transfer, told: seq<Observation>, leftover: int, next: Transfer, rest: seq<Observation>,
                      left: int)
    requires Shifted(t, told, leftover, next, rest, left)
    ensures FinishesSometime(next, rest, left) <==> FinishesSometime(t, told, leftover)
  {
    hide FinishesAt;
    if i: nat :| FinishesAt(t, told, leftover, i) {
      assert i > 0;
      assert FinishesAt(next, rest, left, i - 1);
    }
    if i: nat :| FinishesAt(next, rest, left, i) {
      assert FinishesAt(t, told, leftover, i + 1);
    }
  }

  lemma ShiftedEnd(t: Transfer, told: seq<Observation>, leftover: int, next: Transfer, isManual: bool)
    requires told != [] && leftover > 0 && t.state != DestinationFinalized
    requires Turn(t, told[0], isManual).outcome == Ok(next)
    requires Shifted(t, told, leftover, next, told[1..], leftover - told[0].elapsed)
    requires EndsThere(next, told[1..], leftover - told[0].elapsed, isManual)
    ensures EndsThere(t, told, leftover, isManual)
  {
    var rest, left := told[1..], leftover - told[0].elapsed;
    forall i: nat | FinishesAt(t, told, leftover, i)
      ensures Run(t, told, leftover, isManual) == Run(t, told[..i + 1], leftover, isManual)
    {
      assert 0 < i < |told|;
      hide Turn, FinishesAt;
      assert FinishesAt(next, rest, left, i - 1);
      RunOneMore(t, told, leftover, next, isManual, i);
    }
  }

  lemma RunOneMore(t: Transfer, told: seq<Observation>, leftover: int, next: Transfer, isManual: bool, i: nat)
    requires 0 < i < |told| && leftover > 0 && t.state != DestinationFinalized
    requires Turn(t, told[0], isManual).outcome == Ok(next)
    requires var left := leftover - told[0].elapsed;
             Run(next, told[1..], left, isManual) == Run(next, told[1..][..i], left, isManual)
    ensures Run(t, told, leftover, isManual) == Run(t, told[..i + 1], leftover, isManual)
  {
    hide Turn;
    var upTo := told[..i + 1];
    assert upTo[0] == told[0] && upTo[1..] == told[1..][..i];
  }

  /** A run ends finalized exactly if some turn in time finishes, and at the first that does. */
  lemma {:induction false} RunFinishes(t: Transfer, told: seq<Observation>, leftover: int, isManual: bool)
    requires t.state != DestinationFinalized && Run(t, told, leftover, isManual).outcome.Ok?
    ensures Run(t, told, leftover, isManual).outcome.value.state == DestinationFinalized <==>
              FinishesSometime(t, told, leftover)
    ensures EndsThere(t, told, leftover, isManual)
    decreases |told|
  {
    hide Turn;
    if leftover > 0 && told != [] {
      var next := Turn(t, told[0], isManual).outcome.value;
      TurnMoves(t, told[0], isManual);
      FirstFinish(t, told, leftover);
      if next.state == DestinationFinalized {
        FinalStops(t, told, leftover, next, isManual);
      } else {
        var rest, left := told[1..], leftover - told[0].elapsed;
        RunFinishes(next, rest, left, isManual);
        forall i: nat
          ensures FinishesAt(next, rest, left, i) <==> FinishesAt(t, told, leftover, i + 1)
        {
          LaterFinish(t, next, told, leftover, i);
        }
        ShiftedFinish(t, told, leftover, next, rest, left);
        ShiftedEnd(t, told, leftover, next, isManual);
      }
    }
  }

  lemma FirstFinish(t: Transfer, told: seq<Observation>, leftover: int)
    requires told != [] && leftover > 0
    ensures FinishesAt(t, told, leftover, 0) <==> Arrives(t, told[0]) && told[0].queued == None && told[0].executed
  {
    assert Time(told, 0) == 0;
    assert ApprovedBy(told, 0) <==> told[0].approved;
  }

  lemma FinalStops(t: Transfer, told: seq<Observation>, leftover: int, next: Transfer, isManual: bool)
    requires told != [] && leftover > 0 && t.state != DestinationFinalized && next.state == DestinationFinalized
    requires Turn(t, told[0], isManual).outcome == Ok(next) && FinishesAt(t, told, leftover, 0)
    ensures Run(t, told, leftover, isManual).outcome == Ok(next)
    ensures FinishesSometime(t, told, leftover) && EndsThere(t, told, leftover, isManual)
  {
    hide Turn;
    forall i: nat | FinishesAt(t, told, leftover, i)
      ensures Run(t, told[..i + 1], leftover, isManual) == Run(t, told, leftover, isManual)
    {
      OneTurn(t, told, leftover, next, isManual, i);
    }
  }

  lemma OneTurn(t: Transfer, told: seq<Observation>, leftover: int, next: Transfer, isManual: bool, i: nat)
    requires i < |told| && leftover > 0 && t.state != DestinationFinalized && next.state == DestinationFinalized
    requires Turn(t, told[0], isManual).outcome == Ok(next)
    ensures Run(t, told[..i + 1], leftover, isManual) == Run(t, told, leftover, isManual)
  {
    hide Turn;
    var upTo := told[..i + 1];
    assert upTo != [] && upTo[0] == told[0];
    var left := leftover - told[0].elapsed;
    assert Run(next, upTo[1..], left, isManual) == Run(next, told[1..], left, isManual);
  }

  /** Tracking lasts an hour unless another time is given; it finalizes exactly what finishes in that time. */
  lemma TrackingFinishes(t: Transfer, told: seq<Observation>, timeout: Option<int>, isManual: bool)
    requires t.state != DestinationFinalized && Run(t, told, Budget(timeout), isManual).outcome.Ok?
    ensures var leftover := if timeout.Some? && timeout.value != 0 then timeout.value else 3600000;
            && (Run(t, told, Budget(timeout), isManual).outcome.value.state == DestinationFinalized <==>
                  FinishesSometime(t, told, leftover))
            && EndsThere(t, told, leftover, isManual)
  {
    RunFinishes(t, told, Budget(timeout), isManual);
  }

  // ---------- completing by hand ----------

  /** Completing does nothing for a transfer already arrived, and is refused exactly for what is missing. */
  lemma CompletingRefuses(t: Transfer, attests: nat -> bool)
    ensures t.state == DestinationInitiated ==> BuildComplete(t, attests) == Ok(None)
    ensures BuildComplete(t, attests) == Err(NotAttested) <==> !InPursuit(t) && t.state != DestinationInitiated
    ensures BuildComplete(t, attests) == Err(NoAttestation) <==> InPursuit(t) && t.attestation == None
    ensures BuildComplete(t, attests) == Err(NoWormhole) <==>
              InPursuit(t) && t.attestation.Some? && forall x :: x in t.sendTransceivers ==> Lower(x.kind) != "wormhole"
    ensures BuildComplete(t, attests).Err? ==>
              BuildComplete(t, attests).error in {NotAttested, NoAttestation, NoWormhole}
  {
    hide Lower;
  }
}
