/** The end-of-sub-game audit: every record the peer discloses is re-hashed and compared
    with the commit this side saw live for that step. Generic in the payload, the step
    key and the commit, because a peer may seal whatever shape its own kit uses. */
module Audit {
  import opened Options

  /** A disclosed record. Payload or nonce may be missing; `claimed` is the commit the
      record states for itself, which the audit never reads. */
  datatype Record<P, C> = Record(payload: Option<P>, nonce: Option<string>, claimed: C)

  /** How one kit's payloads are read and committed to. */
  datatype Scheme<!P, !K, !C> = Scheme(
    commitOf: (P, string) -> C,
    stepOf: P -> Option<K>,
    isDeclaration: P -> bool)

  /** The live view: payload and nonce sealed for each step when its commit was sent. */
  type Live<P, K> = map<K, (P, string)>

  predicate VerifyRecord<P, K, C(==)>(k: Scheme<P, K, C>, record: Record<P, C>, expected: C) {
    && record.payload.Some?
    && record.nonce.Some?
    && k.commitOf(record.payload.value, record.nonce.value) == expected
  }

  /** The record's own step, absent when it has no payload or no step key. */
  function StepOf<P, K, C>(k: Scheme<P, K, C>, record: Record<P, C>): Option<K> {
    if record.payload.Some? then k.stepOf(record.payload.value) else None
  }

  predicate Matches<P, K(==), C(==)>(k: Scheme<P, K, C>, commits: map<K, C>, record: Record<P, C>) {
    var step := StepOf(k, record);
    step.Some? && step.value in commits && VerifyRecord(k, record, commits[step.value])
  }

  /** Steps of the records that fail, in the order disclosed. */
  function Mismatched<P, K(==), C(==)>(k: Scheme<P, K, C>, commits: map<K, C>, records: seq<Record<P, C>>)
    : seq<Option<K>>
  {
    if records == [] then []
    else
      var last := records[|records| - 1];
      Mismatched(k, commits, records[..|records| - 1]) +
        (if Matches(k, commits, last) then [] else [StepOf(k, last)])
  }

  /** A record whose payload declares metadata instead of a turn. */
  predicate IsTurnRecord<P, K, C>(k: Scheme<P, K, C>, record: Record<P, C>) {
    record.payload.Some? ==> !k.isDeclaration(record.payload.value)
  }

  function TurnRecordsOnly<P, K, C>(k: Scheme<P, K, C>, records: seq<Record<P, C>>): seq<Record<P, C>> {
    if records == [] then []
    else
      var rest := TurnRecordsOnly(k, records[1..]);
      if IsTurnRecord(k, records[0]) then [records[0]] + rest else rest
  }

  /** Dropping declarations loses no turn record, so no fabricated turn escapes the audit. */
  lemma {:induction false} TurnRecordsExactly<P(!new), K, C(!new)>(k: Scheme<P, K, C>, records: seq<Record<P, C>>)
    ensures forall r :: r in TurnRecordsOnly(k, records) <==> r in records && IsTurnRecord(k, r)
  {
    if records != [] {
      TurnRecordsExactly(k, records[1..]);
      assert records == [records[0]] + records[1..];
    }
  }

  /** The audit loop. */
  method VerifyPeerRecords<P, K(==), C(==)>(k: Scheme<P, K, C>, records: seq<Record<P, C>>, commits: map<K, C>)
    returns (verified: bool, tampered: bool, mismatched: seq<Option<K>>)
    ensures mismatched == Mismatched(k, commits, records)
    ensures verified == !tampered
    ensures verified <==> forall r :: r in records ==> Matches(k, commits, r)
  {
    mismatched := [];
    for i := 0 to |records|
      invariant mismatched == Mismatched(k, commits, records[..i])
    {
      assert records[..i + 1][..i] == records[..i];
      if !Matches(k, commits, records[i]) {
        mismatched := mismatched + [StepOf(k, records[i])];
      }
    }
    assert records[..|records|] == records;
    CleanExactly(k, commits, records);
    verified := |mismatched| == 0;
    tampered := |mismatched| != 0;
  }

  lemma {:induction false} CleanExactly<P, K, C>(k: Scheme<P, K, C>, commits: map<K, C>, records: seq<Record<P, C>>)
    ensures Mismatched(k, commits, records) == [] <==> forall r :: r in records ==> Matches(k, commits, r)
  {
    if records != [] {
      var front, last := records[..|records| - 1], records[|records| - 1];
      CleanExactly(k, commits, front);
      assert records == front + [last];
    }
  }

  ghost predicate Binding<P(!new), C(!new)>(commitOf: (P, string) -> C) {
    forall p1, n1, p2, n2 :: commitOf(p1, n1) == commitOf(p2, n2) ==> p1 == p2 && n1 == n2
  }

  /** Under a binding commitment the audit is clean exactly when every disclosed record is,
      payload and nonce, what was sealed live for the step it names: nothing rewritten,
      nothing invented. What a record claims as its own commit has no say. */
  lemma CleanMeansAsSealed<P(!new), K, C(!new)>(k: Scheme<P, K, C>, live: Live<P, K>, commits: map<K, C>,
                                                records: seq<Record<P, C>>)
    requires Binding(k.commitOf)
    requires commits.Keys == live.Keys
    requires forall s :: s in live ==> commits[s] == k.commitOf(live[s].0, live[s].1)
    ensures Mismatched(k, commits, records) == [] <==>
            forall r :: r in records ==>
              && StepOf(k, r).Some? && StepOf(k, r).value in live
              && r.payload == Some(live[StepOf(k, r).value].0)
              && r.nonce == Some(live[StepOf(k, r).value].1)
  {
    CleanExactly(k, commits, records);
    forall r | r in records
      ensures Matches(k, commits, r) <==>
              && StepOf(k, r).Some? && StepOf(k, r).value in live
              && r.payload == Some(live[StepOf(k, r).value].0)
              && r.nonce == Some(live[StepOf(k, r).value].1)
    {
      if Matches(k, commits, r) {
        var s := StepOf(k, r).value;
        assert k.commitOf(r.payload.value, r.nonce.value) == k.commitOf(live[s].0, live[s].1);
      }
    }
  }
}
