/** The resend loops behind negotiation, audit and consensus: send the one unchanged message,
    look for the peer's, repeat until it is found or the ceiling passes. */
module Resend {
  import opened Options
  import opened Json
  import opened Reals
  import Crypto
  import Scoring

  // ---------- one side against the clock ----------

  /** How a call to send ends: as a send does, or out of its own deadline, which no resend loop
      catches. */
  datatype Calling = Sent(how: Sending) | OutOfTime(arrived: bool)

  /** One turn of the loop as the outside plays it: the send and how long it took; when the
      peer's message becomes visible to the wait, if it does; how late the wait notices its
      own deadline. */
  datatype Attempt<M> = Attempt(send: Calling, sendTook: real, found: Option<M>, foundAfter: real, late: real)

  predicate Timely<M>(a: Attempt<M>) {
    0.0 <= a.sendTook && 0.0 <= a.foundAfter && 0.0 <= a.late
  }

  datatype Outcome<M> = Returned(message: M) | RanOut | Escaped

  predicate Acknowledged(c: Calling) {
    c == Sent(Acked)
  }

  predicate Arrives(c: Calling) {
    match c
    case Sent(how) => !how.Lost?
    case OutOfTime(arrived) => arrived
  }

  /** The wait of attempt `a` sees the peer's message before `timeout`. */
  predicate Sees<M>(a: Attempt<M>, timeout: real) {
    a.found.Some? && a.foundAfter < timeout
  }

  /** How long the wait after attempt `n` may take, given when its send ended. */
  function Pause(interval: real, ceiling: real, sent: real): real {
    Min(interval, Max(0.0, ceiling - sent))
  }

  /** When attempt `n` starts, if none before it settled the exchange. */
  function StartOf<M>(outside: nat -> Attempt<M>, interval: real, ceiling: real, n: nat): real {
    if n == 0 then 0.0
    else
      var a := outside(n - 1);
      var sent := StartOf(outside, interval, ceiling, n - 1) + a.sendTook;
      sent + (if Acknowledged(a.send) then a.late else 0.0) + Pause(interval, ceiling, sent)
  }

  /** Attempt `n` settles the exchange: its send ran out of time, or it was acknowledged and
      its wait saw the peer's message. */
  predicate Settles<M>(outside: nat -> Attempt<M>, interval: real, ceiling: real, n: nat) {
    var a := outside(n);
    var sent := StartOf(outside, interval, ceiling, n) + a.sendTook;
    a.send.OutOfTime? || (Acknowledged(a.send) && Sees(a, Pause(interval, ceiling, sent)))
  }

  /** The first `n` attempts start before the ceiling and settle nothing. */
  ghost predicate AllUnsettled<M>(outside: nat -> Attempt<M>, interval: real, ceiling: real, n: nat) {
    forall k :: 0 <= k < n ==>
      StartOf(outside, interval, ceiling, k) < ceiling && !Settles(outside, interval, ceiling, k)
  }

  lemma StartAgain<M>(outside: nat -> Attempt<M>, interval: real, ceiling: real, n: nat)
    ensures StartOf(outside, interval, ceiling, 0) == 0.0
    ensures var a := outside(n);
            var sent := StartOf(outside, interval, ceiling, n) + a.sendTook;
            StartOf(outside, interval, ceiling, n + 1)
              == sent + (if Acknowledged(a.send) then a.late else 0.0) + Pause(interval, ceiling, sent)
  {
  }

  lemma PauseBounds(interval: real, ceiling: real, sent: real)
    requires 0.0 < interval
    ensures 0.0 <= Pause(interval, ceiling, sent) <= interval
    ensures Pause(interval, ceiling, sent) == interval || ceiling <= sent + Pause(interval, ceiling, sent)
  {
  }

  // ---------- the loop as steps of one side ----------

  datatype Pc<M> = SendDue | Waiting | Done(message: M) | GaveUp | Raised

  /** What one side does on its own: it sends, finds a message in its slot, waits in vain, or
      sees the ceiling passed. */
  datatype Deed<M> = Sends(how: Calling) | Finds(message: M) | WaitsInVain | Stops

  function DeedStep<M>(pc: Pc<M>, d: Deed<M>): Pc<M> {
    match d
    case Sends(how) =>
      if !pc.SendDue? then pc else if Acknowledged(how) then Waiting else if how.OutOfTime? then Raised else SendDue
    case Finds(m) => if pc.Waiting? then Done(m) else pc
    case WaitsInVain => if pc.Waiting? then SendDue else pc
    case Stops => if pc.SendDue? then GaveUp else pc
  }

  function AfterDeeds<M>(deeds: seq<Deed<M>>): Pc<M> {
    if deeds == [] then SendDue else DeedStep(AfterDeeds(deeds[..|deeds| - 1]), deeds[|deeds| - 1])
  }

  lemma OneMoreDeed<M>(deeds: seq<Deed<M>>, d: Deed<M>)
    ensures AfterDeeds(deeds + [d]) == DeedStep(AfterDeeds(deeds), d)
  {
    assert (deeds + [d])[..|deeds|] == deeds;
  }

  /** The deeds of the first `n` attempts, none of which settles the exchange. */
  function Vain<M>(outside: nat -> Attempt<M>, n: nat): seq<Deed<M>> {
    if n == 0 then []
    else
      Vain(outside, n - 1) + [Sends(outside(n - 1).send)]
      + (if Acknowledged(outside(n - 1).send) then [WaitsInVain] else [])
  }

  lemma {:induction false} VainGetsNowhere<M>(outside: nat -> Attempt<M>, interval: real, ceiling: real, n: nat)
    requires AllUnsettled(outside, interval, ceiling, n)
    ensures AfterDeeds(Vain(outside, n)) == SendDue
  {
    if n != 0 {
      VainGetsNowhere(outside, interval, ceiling, n - 1);
      assert !Settles(outside, interval, ceiling, n - 1);
      var before, how := Vain(outside, n - 1), outside(n - 1).send;
      OneMoreDeed(before, Sends(how));
      OneMoreDeed(before + [Sends(how)], WaitsInVain);
      assert before + [Sends(how)] + [] == before + [Sends(how)];
      hide AfterDeeds, StartOf, Pause, Sees;
    }
  }

  /** All deeds of a loop that ended with `out` after `tries` attempts. */
  function DeedsOf<M>(outside: nat -> Attempt<M>, out: Outcome<M>, tries: nat): seq<Deed<M>>
    requires !out.RanOut? ==> 0 < tries
  {
    match out
    case RanOut => Vain(outside, tries) + [Stops]
    case Escaped => Vain(outside, tries - 1) + [Sends(outside(tries - 1).send)]
    case Returned(m) => Vain(outside, tries - 1) + [Sends(outside(tries - 1).send)] + [Finds(m)]
  }

  function PcOf<M>(out: Outcome<M>): Pc<M> {
    match out
    case RanOut => GaveUp
    case Escaped => Raised
    case Returned(m) => Done(m)
  }

  /** The wait after a send is the full interval while there is room for it, then what is left to
      the ceiling, then nothing. */
  lemma WaitsToTheCeiling(interval: real, ceiling: real, sent: real)
    requires 0.0 < interval
    ensures sent + interval <= ceiling ==> Pause(interval, ceiling, sent) == interval
    ensures ceiling < sent + interval && sent <= ceiling ==> sent + Pause(interval, ceiling, sent) == ceiling
    ensures ceiling < sent ==> Pause(interval, ceiling, sent) == 0.0
  {
  }

  /** The first attempt that settles the exchange decides it; without one before the ceiling
      the exchange is given up. A normal return means that the own send was acknowledged. The
      sends are never more than the ceiling has room for. */
  method SendAndAwait<M>(outside: nat -> Attempt<M>, interval: real, ceiling: real)
    returns (out: Outcome<M>, tries: nat)
    requires 0.0 < interval && forall k :: Timely(outside(k))
    ensures out.RanOut? ==>
              AllUnsettled(outside, interval, ceiling, tries) && ceiling <= StartOf(outside, interval, ceiling, tries)
    ensures !out.RanOut? ==>
              && 0 < tries && AllUnsettled(outside, interval, ceiling, tries - 1)
              && StartOf(outside, interval, ceiling, tries - 1) < ceiling && Settles(outside, interval, ceiling, tries - 1)
              && (out.Escaped? <==> outside(tries - 1).send.OutOfTime?)
    ensures out.Returned? ==> Acknowledged(outside(tries - 1).send) && outside(tries - 1).found == Some(out.message)
    ensures 0 < tries ==> Total(tries - 1, interval) < ceiling
    ensures AfterDeeds(DeedsOf(outside, out, tries)) == PcOf(out)
  {
    hide Steps, Vain, AfterDeeds, Quotient, StartOf, Min, Max;
    StartAgain(outside, interval, ceiling, 0);
    tries := 0;
    var elapsed := 0.0;
    while elapsed < ceiling
      invariant 0.0 <= elapsed == StartOf(outside, interval, ceiling, tries)
      invariant elapsed < ceiling ==> Total(tries, interval) <= elapsed
      invariant 0 < tries ==> Total(tries - 1, interval) < ceiling
      invariant AllUnsettled(outside, interval, ceiling, tries)
      decreases Steps(ceiling - elapsed, interval)
    {
      var a := outside(tries);
      assert Timely(a);
      ghost var before := elapsed;
      StartAgain(outside, interval, ceiling, tries);
      PauseBounds(interval, ceiling, elapsed + a.sendTook);
      tries := tries + 1;
      elapsed := elapsed + a.sendTook;
      VainGetsNowhere(outside, interval, ceiling, tries - 1);
      ghost var sends: seq<Deed<M>> := Vain(outside, tries - 1) + [Sends(a.send)];
      OneMoreDeed(Vain(outside, tries - 1), Sends(a.send));
      if a.send.OutOfTime? {
        return Escaped, tries;
      }
      var pause := Pause(interval, ceiling, elapsed);
      if Acknowledged(a.send) {
        if Sees(a, pause) {
          OneMoreDeed(sends, Finds(a.found.value));
          return Returned(a.found.value), tries;
        }
        elapsed := elapsed + a.late;
      }
      elapsed := elapsed + pause;
      StepsShrink(ceiling - before, ceiling - elapsed, interval);
    }
    VainGetsNowhere(outside, interval, ceiling, tries);
    OneMoreDeed(Vain(outside, tries), Stops);
    out := RanOut;
  }

  /** `n` pauses of the full interval. */
  function Total(n: nat, interval: real): real {
    if n == 0 then 0.0 else Total(n - 1, interval) + interval
  }

  /** How many intervals begin before `left` has passed. */
  function Steps(left: real, interval: real): nat
    requires 0.0 < interval
  {
    if left <= 0.0 then 0 else 1 + Quotient(left, interval)
  }

  function Quotient(left: real, interval: real): nat
    requires 0.0 < interval && 0.0 < left
  {
    NonNegative(left, interval);
    (left / interval).Floor
  }

  lemma NonNegative(left: real, interval: real)
    requires 0.0 < interval && 0.0 < left
    ensures 0.0 <= left / interval
  {
  }

  lemma QuotientDrops(before: real, after: real, interval: real)
    requires 0.0 < interval && after <= before - interval
    ensures after / interval <= before / interval - 1.0
  {
    var q, r := after / interval, before / interval;
    assert q * interval == after && r * interval == before;
    assert (q - r + 1.0) * interval == q * interval - r * interval + interval;
    if r - 1.0 < q {
      PositiveProduct(q - r + 1.0, interval);
    }
  }

  lemma StepsShrink(before: real, after: real, interval: real)
    requires 0.0 < interval && 0.0 < before && (after <= before - interval || after <= 0.0)
    ensures Steps(after, interval) < Steps(before, interval)
  {
    if 0.0 < after {
      QuotientDrops(before, after, interval);
    }
  }

  // ---------- both sides of one exchange ----------

  /** One side of the exchange of one key: its loop, its own message, and its mailbox slot. */
  datatype Side<M> = Side(pc: Pc<M>, mine: M, slot: Option<M>)

  datatype Action = Send(how: Calling) | LookUp | WaitOver | CeilingPassed

  datatype Pair<M> = Pair(left: Side<M>, right: Side<M>)

  datatype Event = Event(onLeft: bool, action: Action)

  /** The acting side and the other one after one step; a step that does not fit changes nothing. */
  function SideStep<M>(side: Side<M>, other: Side<M>, a: Action): (Side<M>, Side<M>) {
    match a
    case Send(how) =>
      if side.pc != SendDue then (side, other)
      else (side.(pc := if Acknowledged(how) then Waiting else if how.OutOfTime? then Raised else SendDue),
            if Arrives(how) then other.(slot := Some(side.mine)) else other)
    case LookUp =>
      if side.pc == Waiting && side.slot.Some? then (side.(pc := Done(side.slot.value)), other) else (side, other)
    case WaitOver =>
      if side.pc == Waiting then (side.(pc := SendDue), other) else (side, other)
    case CeilingPassed =>
      if side.pc == SendDue then (side.(pc := GaveUp), other) else (side, other)
  }

  function PairStep<M>(p: Pair<M>, e: Event): Pair<M> {
    if e.onLeft then
      var (left, right) := SideStep(p.left, p.right, e.action);
      Pair(left, right)
    else
      var (right, left) := SideStep(p.right, p.left, e.action);
      Pair(left, right)
  }

  function RunPair<M>(left: M, right: M, events: seq<Event>): Pair<M> {
    if events == [] then Pair(Side(SendDue, left, None), Side(SendDue, right, None))
    else PairStep(RunPair(left, right, events[..|events| - 1]), events[|events| - 1])
  }

  /** What `side` knows of `other`: its slot holds nothing but the other's one message, and a
      side past its send has its own message in the other's slot. */
  predicate Corresponds<M(==)>(side: Side<M>, other: Side<M>) {
    && (side.slot.Some? ==> side.slot.value == other.mine)
    && (side.pc.Waiting? || side.pc.Done? ==> other.slot == Some(side.mine))
    && (side.pc.Done? ==> side.pc.message == other.mine)
  }

  lemma {:induction false} RunKeepsLinks<M>(left: M, right: M, events: seq<Event>)
    ensures var p := RunPair(left, right, events);
            Corresponds(p.left, p.right) && Corresponds(p.right, p.left) && p.left.mine == left && p.right.mine == right
  {
    if events != [] {
      RunKeepsLinks(left, right, events[..|events| - 1]);
    }
  }

  /** No half-open exchange: a side that finished has the other's message, and its own is in
      the other's slot, so that the other's next look finishes too. */
  lemma FinishedMeansFindable<M>(left: M, right: M, events: seq<Event>)
    ensures var p := RunPair(left, right, events);
            && (p.left.pc.Done? ==> p.left.pc.message == right && p.right.slot == Some(left))
            && (p.right.pc.Done? ==> p.right.pc.message == left && p.left.slot == Some(right))
            && (p.left.pc.Done? && p.right.pc.Waiting? ==> PairStep(p, Event(false, LookUp)).right.pc == Done(left))
            && (p.right.pc.Done? && p.left.pc.Waiting? ==> PairStep(p, Event(true, LookUp)).left.pc == Done(right))
  {
    RunKeepsLinks(left, right, events);
  }

  /** What an event is to the side of the run that `onLeft` names, if it does anything there. */
  function DeedIn<M>(p: Pair<M>, e: Event, onLeft: bool): seq<Deed<M>> {
    var side := if onLeft then p.left else p.right;
    if e.onLeft != onLeft then []
    else
      match e.action
      case Send(how) => [Sends(how)]
      case LookUp => if side.slot.Some? then [Finds(side.slot.value)] else []
      case WaitOver => [WaitsInVain]
      case CeilingPassed => [Stops]
  }

  /** The deeds of one side of a run. */
  function DeedsIn<M>(left: M, right: M, events: seq<Event>, onLeft: bool): seq<Deed<M>> {
    if events == [] then []
    else
      DeedsIn(left, right, events[..|events| - 1], onLeft)
      + DeedIn(RunPair(left, right, events[..|events| - 1]), events[|events| - 1], onLeft)
  }

  /** Each side of a run is its own deeds, and nothing else. */
  lemma {:induction false} SideIsItsDeeds<M>(left: M, right: M, events: seq<Event>)
    ensures RunPair(left, right, events).left.pc == AfterDeeds(DeedsIn(left, right, events, true))
    ensures RunPair(left, right, events).right.pc == AfterDeeds(DeedsIn(left, right, events, false))
  {
    if events != [] {
      SideIsItsDeeds(left, right, events[..|events| - 1]);
      DeedMovesSide(left, right, events, true);
      DeedMovesSide(left, right, events, false);
    }
  }

  lemma EventIsDeed<M>(p: Pair<M>, e: Event, onLeft: bool)
    ensures var deed := DeedIn(p, e, onLeft);
            var side, side' := (if onLeft then p.left else p.right),
                               (if onLeft then PairStep(p, e).left else PairStep(p, e).right);
            (deed == [] && side'.pc == side.pc) || (|deed| == 1 && side'.pc == DeedStep(side.pc, deed[0]))
  {
  }

  lemma DeedMovesSide<M>(left: M, right: M, events: seq<Event>, onLeft: bool)
    requires events != []
    requires var p := RunPair(left, right, events[..|events| - 1]);
             (if onLeft then p.left else p.right).pc == AfterDeeds(DeedsIn(left, right, events[..|events| - 1], onLeft))
    ensures var p := RunPair(left, right, events);
            (if onLeft then p.left else p.right).pc == AfterDeeds(DeedsIn(left, right, events, onLeft))
  {
    var p, e := RunPair(left, right, events[..|events| - 1]), events[|events| - 1];
    var before, deed := DeedsIn(left, right, events[..|events| - 1], onLeft), DeedIn(p, e, onLeft);
    EventIsDeed(p, e, onLeft);
    hide AfterDeeds, PairStep, DeedIn, DeedStep;
    if deed == [] {
      assert before + deed == before;
    } else {
      assert deed == [deed[0]];
      OneMoreDeed(before, deed[0]);
    }
  }

  /** No half-open exchange between two such loops: one that returned has the other's own
      message, and its own lies in the other's slot, whatever became of the other. */
  lemma ReturnedMeansDelivered<M>(left: M, right: M, events: seq<Event>, onLeft: bool,
                                  outside: nat -> Attempt<M>, out: Outcome<M>, tries: nat)
    requires out.Returned? && 0 < tries && AfterDeeds(DeedsOf(outside, out, tries)) == PcOf(out)
    requires DeedsIn(left, right, events, onLeft) == DeedsOf(outside, out, tries)
    ensures var p := RunPair(left, right, events);
            if onLeft then out.message == right && p.right.slot == Some(left)
            else out.message == left && p.left.slot == Some(right)
  {
    hide AfterDeeds, DeedsOf, DeedsIn, RunPair;
    SideIsItsDeeds(left, right, events);
    FinishedMeansFindable(left, right, events);
  }

  predicate StillTrying<M>(s: Side<M>) {
    s.pc.SendDue? || s.pc.Waiting?
  }

  /** A finished side leaves the other able to finish in two steps, whatever happened so far,
      unless the other has already stopped. */
  lemma OtherCanFinish<M>(left: M, right: M, events: seq<Event>)
    requires RunPair(left, right, events).left.pc.Done? && StillTrying(RunPair(left, right, events).right)
    ensures var more := events + [Event(false, Send(Sent(Acked))), Event(false, LookUp)];
            RunPair(left, right, more).right.pc == Done(left) && RunPair(left, right, more).left.pc == Done(right)
  {
    RunKeepsLinks(left, right, events);
    var more := events + [Event(false, Send(Sent(Acked))), Event(false, LookUp)];
    var n := |events|;
    assert more[..n] == events && more[..n + 1][..n] == events && more[..n + 2] == more && more[..n + 2][..n + 1] == more[..n + 1];
    assert RunPair(left, right, more[..n + 1]) == PairStep(RunPair(left, right, events), more[n]);
  }

  // ---------- the greeting ----------

  const TERM_KEYS: seq<string> := [
    "board_size", "smell_grid_size", "decay_per_step", "emit_intensity", "min_center_intensity", "max_steps",
    "barriers_max", "setting", "hint_max_words", "axis_origin_corner", "axis_start_index", "thief_start", "cop_start",
    "num_games"]

  datatype Offer<D> = Offer(terms: Value, nonce: Option<string>, signature: Option<D>, groupId: Option<string>, gameUid: Option<D>)

  datatype Refusal = NotAnObject | MissingOrExtraKey | TermsDiffer | NoNonceOrSignature | BadSignature | NoGroupId | UidDiffers

  predicate Present(s: Option<string>) {
    s.Some? && s.value != ""
  }

  /** Exactly the fourteen terms. */
  ghost predicate ClosedTerms(terms: Value) {
    terms.Obj? && forall key :: HasKey(terms.members, key) <==> key in TERM_KEYS
  }

  function GameUid<D>(hash: string -> D, terms: Value, a: string, b: string): D {
    hash(Scoring.GameUid(Canonical(terms), a, b))
  }

  function BuildOffer<D>(hash: string -> D, terms: Value, group: string, their: string, nonce: string): Offer<D> {
    Offer(terms, Some(nonce), Some(Crypto.CommitOf(hash, terms, nonce)), Some(group), Some(GameUid(hash, terms, group, their)))
  }

  /** The checks in order; `None` accepts. */
  ghost function Refuse<D>(hash: string -> D, offer: Offer<D>, mine: Value, me: string, them: string): Option<Refusal> {
    if !offer.terms.Obj? then Some(NotAnObject)
    else if !ClosedTerms(offer.terms) then Some(MissingOrExtraKey)
    else if Normal(offer.terms) != Normal(mine) then Some(TermsDiffer)
    else if !Present(offer.nonce) || offer.signature.None? then Some(NoNonceOrSignature)
    else if Crypto.CommitOf(hash, offer.terms, offer.nonce.value) != offer.signature.value then Some(BadSignature)
    else if !Present(offer.groupId) then Some(NoGroupId)
    else if offer.gameUid != Some(GameUid(hash, mine, me, them)) then Some(UidDiffers)
    else None
  }

  /** Between two honest groups acceptance is mutual: each accepts the other's greeting exactly
      when both play under the same fourteen terms, whatever order they list them in. */
  lemma AcceptanceIsMutual<D>(hash: string -> D, mine: Value, theirs: Value, me: string, them: string,
                              myNonce: string, theirNonce: string)
    requires WellFormed(mine) && WellFormed(theirs)
    requires me != "" && them != "" && myNonce != "" && theirNonce != ""
    ensures Refuse(hash, BuildOffer(hash, theirs, them, me, theirNonce), mine, me, them).None? <==>
              ClosedTerms(mine) && ClosedTerms(theirs) && Normal(mine) == Normal(theirs)
    ensures Refuse(hash, BuildOffer(hash, mine, me, them, myNonce), theirs, them, me).None? <==>
              ClosedTerms(mine) && ClosedTerms(theirs) && Normal(mine) == Normal(theirs)
  {
    Scoring.IdsAreOrderIndependent(Canonical(mine), me, them);
    Scoring.IdsAreOrderIndependent(Canonical(theirs), me, them);
    if Normal(mine) == Normal(theirs) {
      if ClosedTerms(mine) {
        SameTermsSameKeys(mine, theirs);
      }
      if ClosedTerms(theirs) {
        SameTermsSameKeys(theirs, mine);
      }
    }
  }

  lemma SameTermsSameKeys(a: Value, b: Value)
    requires WellFormed(a) && WellFormed(b) && Normal(a) == Normal(b) && ClosedTerms(a)
    ensures ClosedTerms(b)
  {
    NormalForgetsOrder(a.members, b.members);
    forall key ensures HasKey(b.members, key) <==> HasKey(a.members, key) {
      LookupFinds(a.members, key);
      LookupFinds(b.members, key);
      assert NormalAt(a.members, key) == NormalAt(b.members, key);
    }
  }

  /** What is accepted, from anyone: exactly the greeting an honest group would have built under
      the same closed terms with some nonce, whatever group id it names itself by. */
  lemma AcceptedExactly<D(!new)>(hash: string -> D, offer: Offer<D>, mine: Value, me: string, them: string)
    requires WellFormed(mine) && WellFormed(offer.terms)
    ensures Refuse(hash, offer, mine, me, them).None? <==>
            && ClosedTerms(offer.terms) && Normal(offer.terms) == Normal(mine)
            && exists nonce, group ::
                 nonce != "" && group != "" && offer == BuildOffer(hash, offer.terms, them, me, nonce).(groupId := Some(group))
  {
    Scoring.IdsAreOrderIndependent(Canonical(mine), me, them);
    if Refuse(hash, offer, mine, me, them).None? {
      assert offer == BuildOffer(hash, offer.terms, them, me, offer.nonce.value).(groupId := Some(offer.groupId.value));
    }
  }
}
