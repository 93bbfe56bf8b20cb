/** What an ICE agent selects and when, over every run (src/ice/ice-agent.ts:440-606). */
module IceSelection {
  import opened Bytes
  import opened IceChecks

  /** Where a selection sends: its transport and the peer's address. */
  function PathOf(a: Agent, s: Selected): Option<(nat, Remote)> {
    match s
    case Synthetic(transport, r) => Some((transport, r))
    case Listed(i) => if i < |a.pairs| then Some((a.pairs[i].local.transport, a.pairs[i].remote)) else None
  }

  // ---- One answer ----

  /** A success for a pending check marks its pair, and no other; a controlling agent that has not selected takes it. */
  lemma SuccessSelects(a: Agent, txid: TransactionId)
    requires Inv(a) && txid in a.pending
    ensures var b, i := HandleSuccess(a, txid), a.pending[txid];
      && |b.pairs| == |a.pairs| && b.pairs[i] == a.pairs[i].(pendingTxid := None, state := SUCCEEDED)
      && (forall j | 0 <= j < |a.pairs| && j != i :: b.pairs[j] == a.pairs[j])
      && (if a.controlling && a.selected.None? then
            b.selected == Some(Listed(i)) && !b.timer && b.pending == map[]
          else
            b.selected == a.selected && b.timer == a.timer && b.pending == a.pending - {txid})
  {}

  /**
   * A nomination of a controlled agent that has not selected: the path it came in on, listed if a pair
   * describes it.
   */
  lemma RequestSelects(a: Agent, transport: nat, r: Remote, draw: nat -> TransactionId)
    requires Inv(a) && !a.controlling && a.selected.None?
    ensures var b := HandleRequest(a, transport, r, true, draw);
      && b.selected.Some? && PathOf(b, b.selected.value) == Some((transport, r)) && !b.timer && b.pending == map[]
      && (b.selected.value.Listed? <==> exists i :: 0 <= i < |b.pairs| && Matches(b.pairs[i], transport, r))
      && (r in b.remotes || !Usable(r))
  {
    hide Inv, AddRemote, Select, FindPair, PathOf, Matches, Usable;
    AddRemoteLeaves(a, r, draw);
    NominationSelects(if r in a.remotes then a else AddRemote(a, r, draw), transport, r);
  }

  lemma NominationSelects(a: Agent, transport: nat, r: Remote)
    requires a.selected.None?
    ensures var found := FindPair(a.pairs, transport, r, 0);
      var b := Select(a, match found case Some(i) => Listed(i) case None => Synthetic(transport, r));
      && b.pairs == a.pairs && b.remotes == a.remotes
      && b.selected.Some? && PathOf(b, b.selected.value) == Some((transport, r)) && !b.timer && b.pending == map[]
      && (b.selected.value.Listed? <==> exists i :: 0 <= i < |a.pairs| && Matches(a.pairs[i], transport, r))
  {}

  /** Learning a candidate selects nothing. */
  lemma AddRemoteLeaves(a: Agent, r: Remote, draw: nat -> TransactionId)
    requires Inv(a)
    ensures var b := AddRemote(a, r, draw);
      && b.selected == a.selected && b.controlling == a.controlling
      && b.remotes == if Usable(r) then a.remotes + [r] else a.remotes
  {
    hide CheckFirst, WithLocals, Usable;
    var b := IceChecks.FormPairs(a.(remotes := a.remotes + [r]));
    CheckLeaves(b.(timer := true), draw, |b.pairs|);
  }

  lemma {:induction false} CheckLeaves(a: Agent, draw: nat -> TransactionId, n: nat)
    requires n <= |a.pairs|
    ensures var b := CheckFirst(a, draw, n);
      && b == a.(pairs := b.pairs, pending := b.pending, checks := b.checks)
      && |b.pairs| == |a.pairs|
  {
    if n > 0 {
      CheckLeaves(a, draw, n - 1);
    }
  }

  // ---- Runs ----

  /** The pair of the first success that answers a check pending at that moment. */
  function FirstSuccess(a: Agent, events: seq<Event>): Option<nat>
    requires Inv(a)
    decreases |events|
  {
    if events == [] then None
    else if events[0].Success? && events[0].txid in a.pending then Some(a.pending[events[0].txid])
    else
      StepKeeps(a, events[0]);
      FirstSuccess(Next(a, events[0]), events[1..])
  }

  /** The path of the first USE-CANDIDATE request. */
  function FirstNomination(events: seq<Event>): Option<(nat, Remote)>
    decreases |events|
  {
    if events == [] then None
    else if events[0].Request? && events[0].useCandidate then Some((events[0].transport, events[0].from))
    else FirstNomination(events[1..])
  }

  /** Only these two events select. */
  lemma StepSelects(a: Agent, e: Event)
    requires Inv(a)
    ensures Next(a, e).controlling == a.controlling
    ensures a.controlling && a.selected.None? ==>
      Next(a, e).selected == if e.Success? && e.txid in a.pending then Some(Listed(a.pending[e.txid])) else None
    ensures !a.controlling && a.selected.None? ==>
      if e.Request? && e.useCandidate then
        && Next(a, e).selected.Some?
        && PathOf(Next(a, e), Next(a, e).selected.value) == Some((e.transport, e.from))
      else Next(a, e).selected.None?
  {
    hide Inv, AddRemote, CheckFirst, Select, FindPair, Usable, Later, PathOf;
    InvPending(a);
    StepKeeps(a, e);
    SameRole(a, Next(a, e));
    match e
    case AddRemoteCandidate(r, draw) => AddRemoteLeaves(a, r, draw);
    case StartCalled(draw) => CheckLeaves(a.(timer := true), draw, |a.pairs|);
    case TimerFires(draw) => CheckLeaves(a, draw, |a.pairs|);
    case Request(t, r, use, draw) =>
      AddRemoteLeaves(a, r, draw);
      if !a.controlling && a.selected.None? && use {
        RequestSelects(a, t, r, draw);
      }
    case Success(txid) =>
      if txid in a.pending {
        SuccessSelects(a, txid);
      }
    case _ =>
  }

  /**
   * Over every run: a controlling agent that has not selected yet selects if and only if a success answers a
   * check pending at that moment, and then the pair of the first such check, for good.
   */
  lemma {:induction false} ControllingSelects(a: Agent, events: seq<Event>)
    requires Inv(a) && a.controlling && a.selected.None?
    ensures Run(a, events).selected ==
      match FirstSuccess(a, events) case None => None case Some(i) => Some(Listed(i))
    decreases |events|
  {
    hide Inv, Next, Later;
    if events != [] {
      InvPending(a);
      StepKeeps(a, events[0]);
      StepSelects(a, events[0]);
      var b := Next(a, events[0]);
      if b.selected.None? {
        ControllingSelects(b, events[1..]);
      } else {
        SelectionStays(b, events[1..]);
      }
    }
  }

  lemma SelectionStays(a: Agent, events: seq<Event>)
    requires Inv(a) && a.selected.Some?
    ensures Run(a, events).selected == a.selected
    ensures PathOf(a, a.selected.value).Some? ==>
      PathOf(Run(a, events), a.selected.value) == PathOf(a, a.selected.value)
  {
    hide Inv, Run;
    ChecksStayBounded(a, events);
  }

  /**
   * Over every run: a controlled agent that has not selected yet selects if and only if a request with
   * USE-CANDIDATE reaches it, and sends from then on to where the first such request came from, on the transport
   * it came in on.
   */
  lemma {:induction false} ControlledSelects(a: Agent, events: seq<Event>)
    requires Inv(a) && !a.controlling && a.selected.None?
    ensures var b, first := Run(a, events), FirstNomination(events);
      && (b.selected.Some? <==> first.Some?)
      && (first.Some? ==> PathOf(b, b.selected.value) == first)
    decreases |events|
  {
    hide Inv, Next, Later, PathOf;
    if events != [] {
      InvPending(a);
      StepKeeps(a, events[0]);
      StepSelects(a, events[0]);
      var b := Next(a, events[0]);
      if b.selected.None? {
        ControlledSelects(b, events[1..]);
      } else {
        SelectionStays(b, events[1..]);
      }
    }
  }

  // ---- From a candidate to its check ----

  /** Ids that are new and all different, as 96 random bits are taken to be. */
  predicate FreshIds(a: Agent, draw: nat -> TransactionId) {
    && (forall i, j | 0 <= i < j < |a.pairs| :: draw(i) != draw(j))
    && (forall i: nat, j: nat | i < |a.pairs| && j < |a.pairs| :: a.pairs[j].pendingTxid != Some(draw(i)))
  }

  /** The first `n` pairs are all under check, but for those that have succeeded. */
  predicate AllChecked(a: Agent, b: Agent, draw: nat -> TransactionId, n: nat)
    requires n <= |a.pairs| == |b.pairs|
  {
    && (forall i: nat | i < n && a.pairs[i].state != SUCCEEDED ::
          draw(i) in b.pending && b.pending[draw(i)] == i && b.pairs[i].pendingTxid == Some(draw(i)))
    && (forall i: nat | i < n && a.pairs[i].state == SUCCEEDED :: b.pairs[i] == a.pairs[i])
    && (forall i: nat | n <= i < |a.pairs| :: b.pairs[i] == a.pairs[i])
  }

  lemma OneMoreChecked(a: Agent, b: Agent, draw: nat -> TransactionId, n: nat)
    requires FreshIds(a, draw) && 0 < n <= |a.pairs| == |b.pairs| && AllChecked(a, b, draw, n - 1)
    requires a.pairs[n - 1].state != SUCCEEDED
    ensures AllChecked(a, SendCheck(b, n - 1, draw(n - 1)), draw, n)
  {
    assert b.pairs[n - 1] == a.pairs[n - 1];
  }

  /** One round checks every pair that has not succeeded, each under its own id. */
  lemma {:induction false} RoundChecksAll(a: Agent, draw: nat -> TransactionId, n: nat)
    requires FreshIds(a, draw) && n <= |a.pairs|
    ensures AllChecked(a, CheckFirst(a, draw, n), draw, n)
  {
    hide SendCheck, FreshIds;
    if n > 0 {
      RoundChecksAll(a, draw, n - 1);
      var b := CheckFirst(a, draw, n - 1);
      assert b.pairs[n - 1] == a.pairs[n - 1];
      if b.pairs[n - 1].state != SUCCEEDED {
        OneMoreChecked(a, b, draw, n);
      }
    }
  }

  /** The first `n` pairs that have not succeeded, in order. */
  function Due(pairs: seq<Pair>, n: nat): seq<nat>
    requires n <= |pairs|
  {
    if n == 0 then [] else Due(pairs, n - 1) + if pairs[n - 1].state == SUCCEEDED then [] else [n - 1]
  }

  /** Whatever ids are drawn, a round sends one check for each pair that has not succeeded, in order. */
  lemma {:induction false} RoundSends(a: Agent, draw: nat -> TransactionId, n: nat)
    requires n <= |a.pairs|
    ensures var b := CheckFirst(a, draw, n);
      b.checks == a.checks + Due(a.pairs, n) && forall i | n <= i < |a.pairs| :: b.pairs[i] == a.pairs[i]
  {
    if n > 0 {
      RoundSends(a, draw, n - 1);
    }
  }

  /**
   * A usable remote candidate at an agent that is idle: it has a pair with every local candidate, and each such
   * pair is checked at once; for a controlling agent that has not selected, the answer to that check selects it.
   */
  lemma CandidateIsChecked(a: Agent, l: Local, r: Remote, draw: nat -> TransactionId) returns (i: nat)
    requires Inv(a) && l in a.locals && Usable(r) && a.hasRemotePwd && !a.timer && !a.closed
    requires FreshIds(IceChecks.FormPairs(a.(remotes := a.remotes + [r])), draw)
    ensures var b := AddRemote(a, r, draw);
      && b.timer && i < |b.pairs| && b.pairs[i].key == KeyOf(l, r)
      && (b.pairs[i].state == SUCCEEDED || (draw(i) in b.pending && b.pending[draw(i)] == i))
      && (a.controlling && a.selected.None? && b.pairs[i].state != SUCCEEDED ==>
            HandleSuccess(b, draw(i)).selected == Some(Listed(i)))
  {
    hide KeyOf, WithLocals, CheckFirst, FreshIds, Later, Usable;
    var b := IceChecks.FormPairs(a.(remotes := a.remotes + [r]));
    PairsComplete(a.pairs, a.locals, a.remotes + [r]);
    assert r in a.remotes + [r];
    i :| 0 <= i < |b.pairs| && b.pairs[i].key == KeyOf(l, r);
    var c := AddRemote(a, r, draw);
    assert c == CheckFirst(b.(timer := true), draw, |b.pairs|);
    SameIds(b, draw);
    RoundChecksAll(b.(timer := true), draw, |b.pairs|);
    CheckLeaves(b.(timer := true), draw, |b.pairs|);
    FormKeeps(a.(remotes := a.remotes + [r]));
    CheckKeeps(b.(timer := true), draw, |b.pairs|);
    KeysStay(b, c, i);
  }

  lemma KeysStay(b: Agent, c: Agent, i: nat)
    requires Later(b.(timer := true), c) && i < |b.pairs|
    ensures c.pairs[i].key == b.pairs[i].key
  {}

  lemma SameIds(a: Agent, draw: nat -> TransactionId)
    requires FreshIds(a, draw)
    ensures FreshIds(a.(timer := true), draw)
  {}

  // ---- Candidates that are ignored ----

  lemma UsableCandidates(name: string)
    requires name != ""
    ensures Usable(Remote("192.0.2.1", 1)) && Usable(Remote("a.localhost", 65535))
    ensures !Usable(Remote("", 9)) && !Usable(Remote(name, 0)) && !Usable(Remote(name + ".local", 9))
  {
    var long := name + ".local";
    assert long[|long| - 6..] == ".local";
    var other := "a.localhost";
    assert other[|other| - 6..] == "alhost";
    assert "alhost"[0] != ".local"[0];
    var address := "192.0.2.1";
    assert address[|address| - 6..][0] == '.' && address[|address| - 6..][1] == '0';
  }

  /** A request from an unknown sender makes it a candidate, paired with every local one, at either role. */
  lemma RequestLearns(a: Agent, l: Local, transport: nat, r: Remote, useCandidate: bool, draw: nat -> TransactionId)
    requires Inv(a) && l in a.locals && Usable(r) && r !in a.remotes
    ensures var b := HandleRequest(a, transport, r, useCandidate, draw);
      b.remotes == a.remotes + [r] && HasKey(b.pairs, KeyOf(l, r))
  {
    hide KeyOf, WithLocals, CheckFirst, Usable, Later, FindPair;
    var b := IceChecks.FormPairs(a.(remotes := a.remotes + [r]));
    PairsComplete(a.pairs, a.locals, a.remotes + [r]);
    assert r in a.remotes + [r];
    var i :| 0 <= i < |b.pairs| && b.pairs[i].key == KeyOf(l, r);
    CheckLeaves(b.(timer := true), draw, |b.pairs|);
    FormKeeps(a.(remotes := a.remotes + [r]));
    CheckKeeps(b.(timer := true), draw, |b.pairs|);
    KeysStay(b, CheckFirst(b.(timer := true), draw, |b.pairs|), i);
    var c := AddRemote(a, r, draw);
    assert c.pairs[i].key == KeyOf(l, r);
  }

  // ---- After the timeout and after a close ----

  /** Once the checks have timed out or the agent has closed, no late answer selects anything. */
  lemma LateAnswersIgnored(a: Agent, txid: TransactionId)
    requires Inv(a) && (a.timer || !a.closed)
    ensures a.timer ==> HandleSuccess(Next(a, CheckTimeout), txid) == a.(timer := false, pending := map[])
    ensures !a.closed ==>
      HandleSuccess(Next(a, CloseCalled), txid) == a.(closed := true, timer := false, pending := map[])
  {}

  predicate Quiet(a: Agent) { a.closed && !a.timer && a.pending == map[] }

  lemma CloseQuiets(a: Agent, draw: nat -> TransactionId)
    requires a.closed ==> Quiet(a)
    ensures Quiet(Close(a)) && Close(a).checks == a.checks
    ensures a.closed ==> Close(a) == a && Tick(a, draw) == a && StartChecks(a, draw) == a
  {}

  /** A closed agent sends no check ever again, whatever it learns or is asked. */
  lemma {:induction false} ClosedSendsNothing(a: Agent, events: seq<Event>)
    requires Inv(a) && Quiet(a)
    ensures Quiet(Run(a, events)) && Run(a, events).checks == a.checks
    decreases |events|
  {
    hide Inv, Next;
    if events != [] {
      StepKeeps(a, events[0]);
      StepIsQuiet(a, events[0]);
      ClosedSendsNothing(Next(a, events[0]), events[1..]);
    }
  }

  lemma StepIsQuiet(a: Agent, e: Event)
    requires Inv(a) && Quiet(a)
    ensures Quiet(Next(a, e)) && Next(a, e).checks == a.checks
  {
    hide Inv, WithLocals, CheckFirst;
  }
}
