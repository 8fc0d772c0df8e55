/** What every interleaving of an honest Thief and an honest Police keeps. */
module SubGameProof {
  import opened Options
  import opened Geometry
  import opened Turns
  import opened TurnLoop
  import Audit

  ghost predicate Covers<X>(m: map<int, X>, n: int) {
    forall i {:trigger i in m} :: i in m <==> 1 <= i <= n
  }

  function Sent(l: Loop): int {
    |l.sealed| - 1
  }

  /** Turns that reached the peer: all sent ones, except perhaps the one whose sending failed. */
  function Arrived(l: Loop, box: Mailbox): int {
    if l.pc.Aborted? && Sent(l) !in box then Sent(l) - 1 else Sent(l)
  }

  predicate Finished(l: Loop) {
    l.pc.Done? && !l.pc.result.Timeout?
  }

  ghost predicate SealedOk(l: Loop) {
    && 1 <= |l.sealed|
    && l.sealed[0].payload.Declaration?
    && (forall i {:trigger l.sealed[i]} :: 1 <= i < |l.sealed| ==>
          && l.sealed[i].payload.Turn?
          && l.sealed[i].payload.step == i
          && l.sealed[i].payload.sender == l.role
          && i in l.myCommits && l.myCommits[i] == Commit(l.sealed[i]))
    && Covers(l.myCommits, Sent(l))
  }

  /** Every message in the box is the one sealed for its step, and the steps have no gap. */
  ghost predicate BoxOk(game: nat, sender: Loop, box: Mailbox) {
    && Covers(box, Arrived(sender, box))
    && forall i {:trigger box[i]} :: 1 <= i <= Arrived(sender, box) && i < |sender.sealed| ==>
         sender.sealed[i].payload.Turn? && i in box && box[i] == MessageOf(game, sender.sealed[i])
  }

  ghost predicate HeardOk(l: Loop, box: Mailbox) {
    && Covers(l.peerCommits, l.heard)
    && forall i {:trigger l.peerCommits[i]} :: 1 <= i <= l.heard ==>
         i in box && i in l.peerCommits && l.peerCommits[i] == box[i].commit
  }

  predicate ThiefPc(max: nat, t: Loop) {
    var s, h := Sent(t), t.heard;
    match t.pc
    case Sending(k) => s == k - 1 == h && 1 <= k <= max && (t.pending.Some? ==> !t.pending.value.caught)
    case Waiting(k) => s == k && h == k - 1 && 1 <= k < max
    case Closing(k) => s == k - 1 == h && 2 <= k <= max && t.pending.Some? && t.pending.value.caught
    case Done(Survival) => s == max && h == (if max == 0 then 0 else max - 1)
    case Done(Capture) => h == s - 1 && 2 <= s <= max
    case Done(Timeout) => h == s - 1 && 1 <= s < max
    case Aborted => h == s - 1 && 1 <= s <= max
  }

  predicate PolicePc(max: nat, p: Loop) {
    var s, h := Sent(p), p.heard;
    match p.pc
    case Sending(k) => s == k - 1 && h == k && 1 <= k <= max
    case Waiting(k) => s == k - 1 == h && 1 <= k
    case Closing(_) => false
    case Done(Timeout) => s == h
    case Done(_) => h == s + 1 && 2 <= h
    case Aborted => s == h && 1 <= s
  }

  /** Only the Thief's last message ends the game, and it ends it the way the Thief did. */
  ghost predicate FlagsOk(max: nat, t: Loop) {
    && 1 <= |t.sealed|
    && (forall i {:trigger t.sealed[i]} :: 1 <= i < |t.sealed| ==>
          && (t.sealed[i].payload.SaysCaught() ==> i == Sent(t) && (t.pc.Aborted? || t.pc == Done(Capture)))
          && (t.sealed[i].payload.SaysSurvived() ==>
                i == Sent(t) == max && !t.sealed[i].payload.SaysCaught() && (t.pc.Aborted? || t.pc == Done(Survival))))
    && (t.pc == Done(Capture) ==> t.sealed[Sent(t)].payload.SaysCaught())
    && (t.pc == Done(Survival) && 1 <= max ==> t.sealed[Sent(t)].payload.SaysSurvived())
  }

  /** The Police finished for the reason its last message gave, and not before. */
  predicate ReadOk(p: Loop, box: Mailbox) {
    2 <= p.heard && p.heard in box ==>
      && (p.pc == Done(Capture) ==> box[p.heard].SaysCaught())
      && (p.pc == Done(Survival) ==> !box[p.heard].SaysCaught() && box[p.heard].win)
      && (!Finished(p) ==> !box[p.heard].SaysCaught() && !box[p.heard].win)
  }

  ghost predicate Inv(max: nat, game: nat, g: SubGame) {
    && g.thief.role == Thief && g.police.role == Police
    && SealedOk(g.thief) && SealedOk(g.police)
    && ThiefPc(max, g.thief) && PolicePc(max, g.police)
    && BoxOk(game, g.thief, g.toPolice) && BoxOk(game, g.police, g.toThief)
    && HeardOk(g.thief, g.toThief) && HeardOk(g.police, g.toPolice)
    && g.police.heard <= Arrived(g.thief, g.toPolice)
    && g.thief.heard <= Arrived(g.police, g.toThief)
    && FlagsOk(max, g.thief)
    && ReadOk(g.police, g.toPolice)
  }

  lemma StartsInv(max: nat, game: nat, to: Sealed, po: Sealed)
    requires IsOpening(Thief, to) && IsOpening(Police, po)
    ensures Inv(max, game, Opened(max, to, po))
  {
  }

  lemma CoversGrows<X>(m: map<int, X>, n: nat, v: X)
    requires Covers(m, n)
    ensures Covers(m[n + 1 := v], n + 1)
  {
  }

  // ---------- posting a turn ----------

  lemma PostKeepsSealed(l: Loop, s: Sealed, next: Pc)
    requires SealedOk(l) && CanPost(l) && l.pc.step == |l.sealed|
    requires s.payload.Turn? && s.payload.step == |l.sealed| && s.payload.sender == l.role
    ensures SealedOk(Posted(l, s, next)) && Sent(Posted(l, s, next)) == Sent(l) + 1
  {
    var l' := Posted(l, s, next);
    CoversGrows(l.myCommits, Sent(l), Commit(s));
    hide Covers;
    forall i | 1 <= i < |l'.sealed|
      ensures l'.sealed[i].payload.Turn? && l'.sealed[i].payload.step == i && l'.sealed[i].payload.sender == l'.role
      ensures i in l'.myCommits && l'.myCommits[i] == Commit(l'.sealed[i])
    {
      assert l'.sealed[i] == if i < |l.sealed| then l.sealed[i] else s;
    }
  }

  lemma PostKeepsBox(game: nat, l: Loop, box: Mailbox, s: Sealed, next: Pc, m: Option<Message>)
    requires BoxOk(game, l, box) && CanPost(l) && 1 <= |l.sealed|
    requires s.payload.Turn? && s.payload.step == |l.sealed|
    requires m == Some(MessageOf(game, s)) || (m == None && next.Aborted?)
    ensures BoxOk(game, Posted(l, s, next), Deliver(box, m))
    ensures Arrived(Posted(l, s, next), Deliver(box, m)) == Arrived(l, box) + (if m.Some? then 1 else 0)
  {
    var l', box' := Posted(l, s, next), Deliver(box, m);
    var n := Sent(l);
    assert Arrived(l, box) == n && Sent(l') == n + 1;
    if m.Some? {
      CoversGrows(box, n, m.value);
      assert n + 1 in box' && Arrived(l', box') == n + 1;
    } else {
      assert n + 1 !in box && Arrived(l', box') == n;
    }
    hide Covers, Arrived;
    forall i | 1 <= i <= Arrived(l', box') && i < |l'.sealed|
      ensures l'.sealed[i].payload.Turn? && i in box' && box'[i] == MessageOf(game, l'.sealed[i])
    {
      if i <= n {
        BoxEntry(game, l, box, i);
        assert l'.sealed[i] == l.sealed[i] && box'[i] == box[i];
      }
    }
  }

  lemma PostKeepsHeard(l: Loop, box: Mailbox, m: Option<Message>)
    requires HeardOk(l, box)
    requires m.Some? ==> l.heard < m.value.step
    ensures HeardOk(l, Deliver(box, m))
  {
    hide Covers;
    var box' := Deliver(box, m);
    forall i | 1 <= i <= l.heard ensures i in box' && i in l.peerCommits && l.peerCommits[i] == box'[i].commit {
      HeardEntry(l, box, i);
    }
  }

  /** What a message says of its sender's past survives whatever it does next without sealing. */
  lemma SealedUnchanged(l: Loop, l': Loop)
    requires SealedOk(l) && l'.sealed == l.sealed && l'.myCommits == l.myCommits && l'.role == l.role
    ensures SealedOk(l')
  {
  }

  lemma BoxUnchanged(game: nat, l: Loop, l': Loop, box: Mailbox)
    requires BoxOk(game, l, box) && l'.sealed == l.sealed && !l.pc.Aborted? && !l'.pc.Aborted?
    ensures BoxOk(game, l', box) && Arrived(l', box) == Arrived(l, box)
  {
    hide Covers;
    forall i | 1 <= i <= Arrived(l', box) && i < |l'.sealed|
      ensures l'.sealed[i].payload.Turn? && i in box && box[i] == MessageOf(game, l'.sealed[i])
    {
      assert l.sealed[i] == l'.sealed[i];
      BoxEntry(game, l, box, i);
    }
  }

  lemma BoxEntry(game: nat, sender: Loop, box: Mailbox, i: int)
    requires BoxOk(game, sender, box) && 1 <= i <= Arrived(sender, box) && i < |sender.sealed|
    ensures sender.sealed[i].payload.Turn? && i in box && box[i] == MessageOf(game, sender.sealed[i])
  {
    assert i in box;
    assert box[i] == box[i];
  }

  lemma HeardEntry(l: Loop, box: Mailbox, i: int)
    requires HeardOk(l, box) && 1 <= i <= l.heard
    ensures i in box && i in l.peerCommits && l.peerCommits[i] == box[i].commit
  {
    assert i in l.peerCommits;
    assert l.peerCommits[i] == l.peerCommits[i];
  }

  lemma HeardUnchanged(l: Loop, l': Loop, box: Mailbox)
    requires HeardOk(l, box) && l'.heard == l.heard && l'.peerCommits == l.peerCommits
    ensures HeardOk(l', box)
  {
    hide Covers;
    forall i | 1 <= i <= l'.heard ensures i in box && i in l'.peerCommits && l'.peerCommits[i] == box[i].commit {
      HeardEntry(l, box, i);
    }
  }

  lemma PostKeepsFlags(max: nat, t: Loop, play: Play, nonce: string, next: Pc)
    requires t.role.Thief? && CanPost(t) && t.pc.step == |t.sealed| && ThiefPc(max, t) && FlagsOk(max, t)
    requires next == PcAfterPost(max, t) || next == Aborted
    ensures var t' := Posted(t, Sealed(TurnPayload(max, t, play), nonce), next);
            FlagsOk(max, t') && ThiefPc(max, t')
  {
    var s := Sealed(TurnPayload(max, t, play), nonce);
    var t' := Posted(t, s, next);
    assert Sent(t') == Sent(t) + 1 && t'.sealed[Sent(t')] == s;
    forall i | 1 <= i < |t'.sealed|
      ensures t'.sealed[i].payload.SaysCaught() ==> i == Sent(t') && (next.Aborted? || next == Done(Capture))
      ensures t'.sealed[i].payload.SaysSurvived() ==>
                i == Sent(t') == max && !t'.sealed[i].payload.SaysCaught() && (next.Aborted? || next == Done(Survival))
    {
      if i < |t.sealed| {
        assert t'.sealed[i] == t.sealed[i];
      }
    }
  }

  lemma PostKeepsRead(p: Loop, box: Mailbox, m: Option<Message>)
    requires ReadOk(p, box) && (m.Some? ==> p.heard < m.value.step)
    ensures ReadOk(p, Deliver(box, m))
  {
  }

  lemma ThiefPostKeepsInv(max: nat, game: nat, g: SubGame, play: Play, nonce: string, next: Pc, m: Option<Message>)
    requires Inv(max, game, g) && CanPost(g.thief)
    requires next == PcAfterPost(max, g.thief) || next == Aborted
    requires var s := Sealed(TurnPayload(max, g.thief, play), nonce);
             m == Some(MessageOf(game, s)) || (m == None && next.Aborted?)
    ensures var s := Sealed(TurnPayload(max, g.thief, play), nonce);
            Inv(max, game, g.(thief := Posted(g.thief, s, next), toPolice := Deliver(g.toPolice, m)))
  {
    var s := Sealed(TurnPayload(max, g.thief, play), nonce);
    var t' := Posted(g.thief, s, next);
    assert g.thief.pc.step == |g.thief.sealed| && s.payload.step == |g.thief.sealed|;
    assert g.police.heard <= Sent(g.thief);
    hide SealedOk, BoxOk, HeardOk, FlagsOk, ReadOk, Covers, Deliver, PolicePc, MessageOf;
    assert m.Some? ==> m.value.step == s.payload.step by { MessageStep(game, s); }
    PostKeepsSealed(g.thief, s, next);
    PostKeepsBox(game, g.thief, g.toPolice, s, next, m);
    PostKeepsHeard(g.police, g.toPolice, m);
    PostKeepsFlags(max, g.thief, play, nonce, next);
    PostKeepsRead(g.police, g.toPolice, m);
    HeardUnchanged(g.thief, t', g.toThief);
  }

  lemma MessageStep(game: nat, s: Sealed)
    requires s.payload.Turn?
    ensures MessageOf(game, s).step == s.payload.step
  {
  }

  lemma PolicePostKeepsInv(max: nat, game: nat, g: SubGame, play: Play, nonce: string, next: Pc, m: Option<Message>)
    requires Inv(max, game, g) && CanPost(g.police)
    requires next == PcAfterPost(max, g.police) || next == Aborted
    requires var s := Sealed(TurnPayload(max, g.police, play), nonce);
             m == Some(MessageOf(game, s)) || (m == None && next.Aborted?)
    ensures var s := Sealed(TurnPayload(max, g.police, play), nonce);
            Inv(max, game, g.(police := Posted(g.police, s, next), toThief := Deliver(g.toThief, m)))
  {
    var s := Sealed(TurnPayload(max, g.police, play), nonce);
    var p' := Posted(g.police, s, next);
    assert g.police.pc.step == |g.police.sealed| && s.payload.step == |g.police.sealed|;
    assert g.thief.heard <= Sent(g.police);
    assert ReadOk(p', g.toPolice);
    hide SealedOk, BoxOk, HeardOk, FlagsOk, ReadOk, Covers, Deliver, ThiefPc, MessageOf;
    assert m.Some? ==> m.value.step == s.payload.step by { MessageStep(game, s); }
    PostKeepsSealed(g.police, s, next);
    PostKeepsBox(game, g.police, g.toThief, s, next, m);
    PostKeepsHeard(g.thief, g.toThief, m);
    HeardUnchanged(g.police, p', g.toPolice);
  }

  // ---------- consuming a turn, or giving up ----------

  lemma TakeKeepsHeard(max: nat, l: Loop, box: Mailbox, caught: bool, position: Cell)
    requires HeardOk(l, box) && l.pc.Waiting? && l.pc.step == l.heard + 1 && l.pc.step in box
    requires box[l.pc.step].step == l.pc.step
    ensures HeardOk(Taken(max, l, box[l.pc.step], caught, position), box)
  {
    var k := l.pc.step;
    var l' := Taken(max, l, box[k], caught, position);
    assert l'.heard == k && l'.peerCommits == l.peerCommits[k := box[k].commit];
    CoversGrows(l.peerCommits, l.heard, box[k].commit);
    hide Covers, Taken;
    forall i | 1 <= i <= k ensures i in box && i in l'.peerCommits && l'.peerCommits[i] == box[i].commit {
      if i < k {
        HeardEntry(l, box, i);
      }
    }
  }

  lemma TakeKeepsFlags(max: nat, t: Loop, m: Message, caught: bool, position: Cell)
    requires t.role.Thief? && t.pc.Waiting? && ThiefPc(max, t) && FlagsOk(max, t)
    ensures FlagsOk(max, Taken(max, t, m, caught, position)) && ThiefPc(max, Taken(max, t, m, caught, position))
  {
  }

  lemma TakeLeavesPast(max: nat, l: Loop, m: Message, caught: bool, position: Cell)
    requires l.pc.Waiting?
    ensures var l' := Taken(max, l, m, caught, position);
            && l'.role == l.role && l'.sealed == l.sealed && l'.myCommits == l.myCommits
            && l'.heard == l.heard + 1 && !l'.pc.Aborted?
  {
  }

  lemma BoxStep(game: nat, sender: Loop, box: Mailbox, k: int)
    requires SealedOk(sender) && BoxOk(game, sender, box) && k in box
    ensures 1 <= k <= Arrived(sender, box) && k < |sender.sealed|
    ensures sender.sealed[k].payload.Turn? && box[k] == MessageOf(game, sender.sealed[k]) && box[k].step == k
  {
  }

  lemma ThiefTakeKeepsInv(max: nat, game: nat, g: SubGame, caught: bool, position: Cell)
    requires Inv(max, game, g) && g.thief.pc.Waiting? && g.thief.pc.step in g.toThief
    ensures Inv(max, game, g.(thief := Taken(max, g.thief, g.toThief[g.thief.pc.step], caught, position)))
  {
    var k := g.thief.pc.step;
    assert k == g.thief.heard + 1;
    hide SealedOk, BoxOk, HeardOk, FlagsOk, ReadOk, Covers, ThiefPc, PolicePc, Taken, MessageOf;
    var t' := Taken(max, g.thief, g.toThief[k], caught, position);
    BoxStep(game, g.police, g.toThief, k);
    TakeLeavesPast(max, g.thief, g.toThief[k], caught, position);
    TakeKeepsHeard(max, g.thief, g.toThief, caught, position);
    TakeKeepsFlags(max, g.thief, g.toThief[k], caught, position);
    SealedUnchanged(g.thief, t');
    BoxUnchanged(game, g.thief, t', g.toPolice);
  }

  lemma TakeKeepsRead(max: nat, p: Loop, box: Mailbox, caught: bool, position: Cell)
    requires p.role.Police? && p.pc.Waiting? && p.pc.step in box && PolicePc(max, p)
    requires box[p.pc.step].win ==> !box[p.pc.step].SaysCaught()
    requires p.pc.step <= max || box[p.pc.step].SaysCaught() || box[p.pc.step].win
    requires p.pc.step == 1 ==> 1 <= max
    ensures var p' := Taken(max, p, box[p.pc.step], caught, position); ReadOk(p', box) && PolicePc(max, p')
  {
  }

  /** What the Police is about to read: a survival claim is no confession, and a turn past the
      last step is one or the other. */
  lemma LastTurnSpeaks(max: nat, game: nat, t: Loop, box: Mailbox, k: int)
    requires t.role.Thief? && SealedOk(t) && BoxOk(game, t, box) && ThiefPc(max, t) && FlagsOk(max, t) && k in box
    ensures box[k].win ==> !box[k].SaysCaught()
    ensures k <= max
  {
    BoxStep(game, t, box, k);
    assert box[k].win <==> t.sealed[k].payload.SaysSurvived();
    assert box[k].SaysCaught() <==> t.sealed[k].payload.SaysCaught();
  }

  lemma PoliceTakeKeepsInv(max: nat, game: nat, g: SubGame, caught: bool, position: Cell)
    requires Inv(max, game, g) && g.police.pc.Waiting? && g.police.pc.step in g.toPolice
    ensures Inv(max, game, g.(police := Taken(max, g.police, g.toPolice[g.police.pc.step], caught, position)))
  {
    var k := g.police.pc.step;
    assert k == g.police.heard + 1;
    LastTurnSpeaks(max, game, g.thief, g.toPolice, k);
    TakeKeepsRead(max, g.police, g.toPolice, caught, position);
    hide SealedOk, BoxOk, HeardOk, FlagsOk, ReadOk, Covers, ThiefPc, PolicePc, Taken, MessageOf;
    var p' := Taken(max, g.police, g.toPolice[k], caught, position);
    BoxStep(game, g.thief, g.toPolice, k);
    TakeLeavesPast(max, g.police, g.toPolice[k], caught, position);
    TakeKeepsHeard(max, g.police, g.toPolice, caught, position);
    SealedUnchanged(g.police, p');
    BoxUnchanged(game, g.police, p', g.toThief);
  }

  lemma ThiefExpireKeepsInv(max: nat, game: nat, g: SubGame)
    requires Inv(max, game, g) && g.thief.pc.Waiting?
    ensures Inv(max, game, g.(thief := g.thief.(pc := Done(Timeout))))
  {
    var t' := g.thief.(pc := Done(Timeout));
    assert FlagsOk(max, t');
    hide SealedOk, BoxOk, HeardOk, FlagsOk, ReadOk, Covers, PolicePc;
    SealedUnchanged(g.thief, t');
    BoxUnchanged(game, g.thief, t', g.toPolice);
    HeardUnchanged(g.thief, t', g.toThief);
  }

  lemma PoliceExpireKeepsInv(max: nat, game: nat, g: SubGame)
    requires Inv(max, game, g) && g.police.pc.Waiting?
    ensures Inv(max, game, g.(police := g.police.(pc := Done(Timeout))))
  {
    var p' := g.police.(pc := Done(Timeout));
    assert ReadOk(p', g.toPolice);
    hide SealedOk, BoxOk, HeardOk, FlagsOk, ReadOk, Covers, ThiefPc;
    SealedUnchanged(g.police, p');
    BoxUnchanged(game, g.police, p', g.toThief);
    HeardUnchanged(g.police, p', g.toPolice);
  }

  lemma ThiefStepKeepsInv(max: nat, game: nat, g: SubGame, c: Choice)
    requires Inv(max, game, g)
    ensures Inv(max, game, SubStep(max, game, g, Event(Thief, c)))
  {
    hide Inv, Posted, Taken, MessageOf;
    var l := g.thief;
    var g' := SubStep(max, game, g, Event(Thief, c));
    match c
    case Post(play, nonce) =>
      if CanPost(l) {
        var s := Sealed(TurnPayload(max, l, play), nonce);
        ThiefPostKeepsInv(max, game, g, play, nonce, PcAfterPost(max, l), Some(MessageOf(game, s)));
      } else { assert g' == g; }
    case PostFails(play, nonce, delivered) =>
      if CanPost(l) {
        var s := Sealed(TurnPayload(max, l, play), nonce);
        ThiefPostKeepsInv(max, game, g, play, nonce, Aborted, if delivered then Some(MessageOf(game, s)) else None);
      } else { assert g' == g; }
    case Take(caught, position) =>
      if l.pc.Waiting? && l.pc.step in g.toThief {
        ThiefTakeKeepsInv(max, game, g, caught, position);
      } else { assert g' == g; }
    case Expire =>
      if l.pc.Waiting? { ThiefExpireKeepsInv(max, game, g); } else { assert g' == g; }
  }

  lemma PoliceStepKeepsInv(max: nat, game: nat, g: SubGame, c: Choice)
    requires Inv(max, game, g)
    ensures Inv(max, game, SubStep(max, game, g, Event(Police, c)))
  {
    hide Inv, Posted, Taken, MessageOf;
    var l := g.police;
    var g' := SubStep(max, game, g, Event(Police, c));
    match c
    case Post(play, nonce) =>
      if CanPost(l) {
        var s := Sealed(TurnPayload(max, l, play), nonce);
        PolicePostKeepsInv(max, game, g, play, nonce, PcAfterPost(max, l), Some(MessageOf(game, s)));
      } else { assert g' == g; }
    case PostFails(play, nonce, delivered) =>
      if CanPost(l) {
        var s := Sealed(TurnPayload(max, l, play), nonce);
        PolicePostKeepsInv(max, game, g, play, nonce, Aborted, if delivered then Some(MessageOf(game, s)) else None);
      } else { assert g' == g; }
    case Take(caught, position) =>
      if l.pc.Waiting? && l.pc.step in g.toPolice {
        PoliceTakeKeepsInv(max, game, g, caught, position);
      } else { assert g' == g; }
    case Expire =>
      if l.pc.Waiting? { PoliceExpireKeepsInv(max, game, g); } else { assert g' == g; }
  }

  /** Every interleaving, timeouts and failed sends included, keeps the invariant. */
  lemma {:induction false} RunKeepsInv(max: nat, game: nat, g: SubGame, events: seq<Event>)
    requires Inv(max, game, g)
    ensures Inv(max, game, Run(max, game, g, events))
  {
    if events != [] {
      RunKeepsInv(max, game, g, events[..|events| - 1]);
      var before, e := Run(max, game, g, events[..|events| - 1]), events[|events| - 1];
      match e.role
      case Thief => ThiefStepKeepsInv(max, game, before, e.choice);
      case Police => PoliceStepKeepsInv(max, game, before, e.choice);
    }
  }
}
