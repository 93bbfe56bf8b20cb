/**
 * Candidate pairs and connectivity checks of an ICE agent (src/ice/ice-agent.ts:385-639), as functions on its
 * state.
 */
module IceChecks {
  import opened Bytes

  type TransactionId = Buffer

  datatype Local = Local(typ: string, address: string, port: nat, transport: nat)

  datatype Remote = Remote(address: string, port: nat)

  datatype State = FROZEN | IN_PROGRESS | SUCCEEDED

  datatype Pair = Pair(key: string, local: Local, remote: Remote, state: State, pendingTxid: Option<TransactionId>)

  /** A pair of the list, or one made up for a path that no pair describes. */
  datatype Selected = Listed(index: nat) | Synthetic(transport: nat, remote: Remote)

  /** Pairs are named by their position, which never changes; `checks` is history: the pair of every check sent. */
  datatype Agent = Agent(
    controlling: bool, hasRemotePwd: bool, locals: seq<Local>, remotes: seq<Remote>, pairs: seq<Pair>,
    pending: map<TransactionId, nat>, selected: Option<Selected>, timer: bool, closed: bool, checks: seq<nat>)

  // ---- Forming pairs ----

  function Decimal(n: nat): string {
    if n < 10 then ["0123456789"[n]] else Decimal(n / 10) + ["0123456789"[n % 10]]
  }

  function KeyOf(l: Local, r: Remote): string {
    l.typ + ":" + l.address + ":" + Decimal(l.port) + "->" + r.address + ":" + Decimal(r.port)
  }

  predicate HasKey(pairs: seq<Pair>, key: string) {
    exists i :: 0 <= i < |pairs| && pairs[i].key == key
  }

  function WithPair(pairs: seq<Pair>, l: Local, r: Remote): seq<Pair> {
    if HasKey(pairs, KeyOf(l, r)) then pairs else pairs + [Pair(KeyOf(l, r), l, r, FROZEN, None)]
  }

  function WithRemotes(pairs: seq<Pair>, l: Local, remotes: seq<Remote>): seq<Pair> {
    if remotes == [] then pairs else WithPair(WithRemotes(pairs, l, remotes[..|remotes| - 1]), l,
        remotes[|remotes| - 1])
  }

  function WithLocals(pairs: seq<Pair>, locals: seq<Local>, remotes: seq<Remote>): seq<Pair> {
    if locals == [] then pairs
    else WithRemotes(WithLocals(pairs, locals[..|locals| - 1], remotes), locals[|locals| - 1], remotes)
  }

  function FormPairs(a: Agent): Agent { a.(pairs := WithLocals(a.pairs, a.locals, a.remotes)) }

  // ---- Checks ----

  /** The pair's previous check, if any, is retired. */
  function SendCheck(a: Agent, i: nat, txid: TransactionId): Agent
    requires i < |a.pairs|
  {
    var retired := if a.pairs[i].pendingTxid.Some? then a.pending - {a.pairs[i].pendingTxid.value} else a.pending;
    a.(pairs := a.pairs[i := a.pairs[i].(pendingTxid := Some(txid), state := IN_PROGRESS)],
       pending := retired[txid := i], checks := a.checks + [i])
  }

  /** `draw` gives the random transaction id of each pair's check. */
  function CheckFirst(a: Agent, draw: nat -> TransactionId, n: nat): (b: Agent)
    requires n <= |a.pairs|
    ensures |b.pairs| == |a.pairs|
  {
    if n == 0 then a
    else
      var b := CheckFirst(a, draw, n - 1);
      if b.pairs[n - 1].state == SUCCEEDED then b else SendCheck(b, n - 1, draw(n - 1))
  }

  function Tick(a: Agent, draw: nat -> TransactionId): Agent {
    if a.closed then a else CheckFirst(a, draw, |a.pairs|)
  }

  function StartChecks(a: Agent, draw: nat -> TransactionId): Agent {
    if a.timer || a.closed then a else Tick(a.(timer := true), draw)
  }

  function StopChecks(a: Agent): Agent { a.(timer := false, pending := map[]) }

  /** Candidates without an address or port, and mDNS names, are ignored. */
  predicate Usable(r: Remote) {
    r.address != "" && r.port != 0 && !(|r.address| >= 6 && r.address[|r.address| - 6..] == ".local")
  }

  function AddRemote(a: Agent, r: Remote, draw: nat -> TransactionId): Agent {
    if !Usable(r) then a
    else
      var b := FormPairs(a.(remotes := a.remotes + [r]));
      if !b.timer && b.hasRemotePwd then StartChecks(b, draw) else b
  }

  function Select(a: Agent, s: Selected): Agent {
    if a.selected.Some? then a else StopChecks(a.(selected := Some(s)))
  }

  predicate Matches(p: Pair, transport: nat, r: Remote) {
    p.remote.address == r.address && p.remote.port == r.port && p.local.transport == transport
  }

  /** The first matching pair at or after `i`. */
  function FindPair(pairs: seq<Pair>, transport: nat, r: Remote, i: nat): (found: Option<nat>)
    requires i <= |pairs|
    ensures found.Some? ==> i <= found.value < |pairs| && Matches(pairs[found.value], transport, r)
    ensures found.None? ==> forall j | i <= j < |pairs| :: !Matches(pairs[j], transport, r)
    decreases |pairs| - i
  {
    if i == |pairs| then None else if Matches(pairs[i], transport, r) then Some(i)
        else FindPair(pairs, transport, r, i + 1)
  }

  /** An authenticated binding request: learn the sender, and let the controlling peer nominate. */
  function HandleRequest(a: Agent, transport: nat, r: Remote, useCandidate: bool, draw: nat -> TransactionId): Agent {
    var b := if r in a.remotes then a else AddRemote(a, r, draw);
    if useCandidate && !b.controlling then
      match FindPair(b.pairs, transport, r, 0)
      case Some(i) => Select(b, Listed(i))
      case None => Select(b, Synthetic(transport, r))
    else b
  }

  function HandleSuccess(a: Agent, txid: TransactionId): Agent
    requires txid in a.pending ==> a.pending[txid] < |a.pairs|
  {
    if txid !in a.pending then a
    else
      var i := a.pending[txid];
      var b := a.(pending := a.pending - {txid},
          pairs := a.pairs[i := a.pairs[i].(pendingTxid := None, state := SUCCEEDED)]);
      if b.controlling then Select(b, Listed(i)) else b
  }

  function Close(a: Agent): Agent { if a.closed then a else StopChecks(a.(closed := true)) }

  /** What is left of the local candidates when gathering with the policy 'relay' ends. */
  function RelayOnly(locals: seq<Local>): (kept: seq<Local>)
    ensures forall l :: l in kept <==> l in locals && l.typ == "relay"
  {
    if locals == [] then []
    else RelayOnly(locals[..|locals| - 1]) + if locals[|locals| - 1].typ == "relay" then [locals[|locals| - 1]] else []
  }

  // ---- Runs ----

  datatype Event =
    | AddLocalCandidate(local: Local)
    | KeepRelay
    | SetRemoteCredentials
    | AddRemoteCandidate(remote: Remote, draw: nat -> TransactionId)
    | StartCalled(draw: nat -> TransactionId)
    | TimerFires(draw: nat -> TransactionId)
    | CheckTimeout
    | Request(transport: nat, from: Remote, useCandidate: bool, draw: nat -> TransactionId)
    | Success(txid: TransactionId)
    | CloseCalled

  function Next(a: Agent, e: Event): Agent
    requires forall txid | txid in a.pending :: a.pending[txid] < |a.pairs|
  {
    match e
    case AddLocalCandidate(l) => a.(locals := a.locals + [l])
    case KeepRelay => a.(locals := RelayOnly(a.locals))
    case SetRemoteCredentials => a.(hasRemotePwd := true)
    case AddRemoteCandidate(r, draw) => AddRemote(a, r, draw)
    case StartCalled(draw) => if a.hasRemotePwd && a.remotes != [] then StartChecks(a, draw) else a
    case TimerFires(draw) => if a.timer then Tick(a, draw) else a
    case CheckTimeout => if a.timer then StopChecks(a) else a
    case Request(t, r, use, draw) => HandleRequest(a, t, r, use, draw)
    case Success(txid) => HandleSuccess(a, txid)
    case CloseCalled => Close(a)
  }

  predicate DistinctKeys(pairs: seq<Pair>) {
    forall i, j | 0 <= i < j < |pairs| :: pairs[i].key != pairs[j].key
  }

  /** Every pending transaction is the latest check of an unanswered pair. */
  predicate PendingInv(a: Agent) {
    forall txid | txid in a.pending ::
      a.pending[txid] < |a.pairs| && a.pairs[a.pending[txid]].pendingTxid == Some(txid)
          && a.pairs[a.pending[txid]].state == IN_PROGRESS
  }

  predicate SelectedInv(a: Agent) {
    && (a.selected.Some? && a.selected.value.Listed? ==> a.selected.value.index < |a.pairs|)
    && (a.selected.Some? && a.controlling ==>
          a.selected.value.Listed? && a.pairs[a.selected.value.index].state == SUCCEEDED)
  }

  predicate Inv(a: Agent) { DistinctKeys(a.pairs) && PendingInv(a) && SelectedInv(a) }

  /** What one state promises about every later one. */
  predicate Later(a: Agent, b: Agent) {
    && |a.pairs| <= |b.pairs| && b.controlling == a.controlling
    && (forall i | 0 <= i < |a.pairs| :: b.pairs[i].key == a.pairs[i].key && b.pairs[i].local == a.pairs[i].local)
    && (forall i | 0 <= i < |a.pairs| :: b.pairs[i].remote == a.pairs[i].remote)
    && (forall i | 0 <= i < |a.pairs| && a.pairs[i].state == SUCCEEDED :: b.pairs[i].state == SUCCEEDED)
    && (a.selected.Some? ==> b.selected == a.selected)
    && a.checks <= b.checks
    && (forall k | |a.checks| <= k < |b.checks| :: b.checks[k] < |a.pairs| ==> a.pairs[b.checks[k]].state != SUCCEEDED)
  }

  lemma LaterTrans(a: Agent, b: Agent, c: Agent)
    requires Later(a, b) && Later(b, c)
    ensures Later(a, c)
  {
    forall k | |a.checks| <= k < |c.checks| && c.checks[k] < |a.pairs| ensures a.pairs[c.checks[k]].state != SUCCEEDED {
      if k < |b.checks| {
        assert c.checks[k] == b.checks[k];
      }
    }
  }

  // ---- Pairs ----

  lemma {:induction false} PairsGrow(pairs: seq<Pair>, l: Local, remotes: seq<Remote>)
    requires DistinctKeys(pairs)
    ensures DistinctKeys(WithRemotes(pairs, l, remotes)) && pairs <= WithRemotes(pairs, l, remotes)
    ensures forall r | r in remotes :: HasKey(WithRemotes(pairs, l, remotes), KeyOf(l, r))
  {
    hide KeyOf;
    if remotes != [] {
      var n := |remotes| - 1;
      PairsGrow(pairs, l, remotes[..n]);
      var before := WithRemotes(pairs, l, remotes[..n]);
      WithPairHas(before, l, remotes[n]);
      forall r | r in remotes ensures HasKey(WithRemotes(pairs, l, remotes), KeyOf(l, r)) {
        if r != remotes[n] {
          assert r in remotes[..n];
          KeyKept(before, WithPair(before, l, remotes[n]), KeyOf(l, r));
        }
      }
    }
  }

  lemma WithPairHas(pairs: seq<Pair>, l: Local, r: Remote)
    requires DistinctKeys(pairs)
    ensures var after := WithPair(pairs, l, r); DistinctKeys(after) && pairs <= after && HasKey(after, KeyOf(l, r))
  {
    hide KeyOf;
    var after := WithPair(pairs, l, r);
    if after != pairs {
      assert after[|pairs|].key == KeyOf(l, r);
    }
  }

  lemma KeyKept(pairs: seq<Pair>, more: seq<Pair>, key: string)
    requires pairs <= more && HasKey(pairs, key)
    ensures HasKey(more, key)
  {
    var i :| 0 <= i < |pairs| && pairs[i].key == key;
    assert more[i] == pairs[i];
  }

  /** Forming pairs gives every combination exactly one pair, and leaves the old ones where they were. */
  lemma {:induction false} PairsComplete(pairs: seq<Pair>, locals: seq<Local>, remotes: seq<Remote>)
    requires DistinctKeys(pairs)
    ensures var all := WithLocals(pairs, locals, remotes);
      && DistinctKeys(all) && pairs <= all
      && forall l, r | l in locals && r in remotes :: HasKey(all, KeyOf(l, r))
  {
    hide KeyOf, HasKey, WithRemotes;
    if locals != [] {
      var n := |locals| - 1;
      PairsComplete(pairs, locals[..n], remotes);
      var before := WithLocals(pairs, locals[..n], remotes);
      PairsGrow(before, locals[n], remotes);
      forall l, r | l in locals && r in remotes ensures HasKey(WithLocals(pairs, locals, remotes), KeyOf(l, r)) {
        if l != locals[n] {
          assert l in locals[..n];
          KeyKept(before, WithLocals(pairs, locals, remotes), KeyOf(l, r));
        }
      }
    }
  }

  lemma FormKeeps(a: Agent)
    requires Inv(a)
    ensures Inv(FormPairs(a)) && Later(a, FormPairs(a))
  {
    hide KeyOf, WithLocals;
    PairsComplete(a.pairs, a.locals, a.remotes);
    var b := FormPairs(a);
    assert forall i | 0 <= i < |a.pairs| :: b.pairs[i] == a.pairs[i];
  }

  // ---- Checks ----

  lemma SendKeeps(a: Agent, i: nat, txid: TransactionId)
    requires Inv(a) && i < |a.pairs| && a.pairs[i].state != SUCCEEDED
    ensures Inv(SendCheck(a, i, txid)) && Later(a, SendCheck(a, i, txid))
  {
    var b := SendCheck(a, i, txid);
    forall t | t in b.pending
      ensures b.pending[t] < |b.pairs| && b.pairs[b.pending[t]].pendingTxid == Some(t)
      ensures b.pairs[b.pending[t]].state == IN_PROGRESS
    {
      if t != txid {
        assert t in a.pending && b.pending[t] == a.pending[t];
        assert a.pending[t] != i;
      }
    }
  }

  lemma {:induction false} CheckKeeps(a: Agent, draw: nat -> TransactionId, n: nat)
    requires Inv(a) && n <= |a.pairs|
    ensures Inv(CheckFirst(a, draw, n)) && Later(a, CheckFirst(a, draw, n))
  {
    hide Inv, Later, SendCheck;
    if n == 0 {
      LaterSelf(a);
    } else {
      CheckKeeps(a, draw, n - 1);
      var b := CheckFirst(a, draw, n - 1);
      if b.pairs[n - 1].state != SUCCEEDED {
        SendKeeps(b, n - 1, draw(n - 1));
        LaterTrans(a, b, SendCheck(b, n - 1, draw(n - 1)));
      }
    }
  }

  lemma LaterSelf(a: Agent)
    ensures Later(a, a)
  {}

  lemma StartKeeps(a: Agent, draw: nat -> TransactionId)
    requires Inv(a)
    ensures Inv(StartChecks(a, draw)) && Later(a, StartChecks(a, draw))
  {
    hide CheckFirst;
    var b := a.(timer := true);
    CheckKeeps(b, draw, |b.pairs|);
    LaterTrans(a, b, CheckFirst(b, draw, |b.pairs|));
  }

  lemma AddRemoteKeeps(a: Agent, r: Remote, draw: nat -> TransactionId)
    requires Inv(a)
    ensures Inv(AddRemote(a, r, draw)) && Later(a, AddRemote(a, r, draw))
  {
    hide StartChecks, WithLocals;
    var a1 := a.(remotes := a.remotes + [r]);
    FormKeeps(a1);
    var b := FormPairs(a1);
    LaterTrans(a, a1, b);
    StartKeeps(b, draw);
    LaterTrans(a, b, StartChecks(b, draw));
  }

  lemma SelectKeeps(a: Agent, s: Selected)
    requires Inv(a) && (s.Listed? ==> s.index < |a.pairs|)
    requires a.controlling ==> s.Listed? && a.pairs[s.index].state == SUCCEEDED
    ensures Inv(Select(a, s)) && Later(a, Select(a, s))
  {}

  lemma RequestKeeps(a: Agent, transport: nat, r: Remote, useCandidate: bool, draw: nat -> TransactionId)
    requires Inv(a)
    ensures Inv(HandleRequest(a, transport, r, useCandidate, draw))
    ensures Later(a, HandleRequest(a, transport, r, useCandidate, draw))
  {
    hide AddRemote, Inv, Later, Select;
    var b := if r in a.remotes then a else AddRemote(a, r, draw);
    AddRemoteKeeps(a, r, draw);
    LaterSelf(a);
    if useCandidate && !b.controlling {
      var s := match FindPair(b.pairs, transport, r, 0) case Some(i) => Listed(i) case None => Synthetic(transport, r);
      SelectKeeps(b, s);
      LaterTrans(a, b, Select(b, s));
    }
  }

  lemma MarkKeeps(a: Agent, txid: TransactionId)
    requires Inv(a) && txid in a.pending
    ensures var i := a.pending[txid];
      var b := a.(pending := a.pending - {txid},
          pairs := a.pairs[i := a.pairs[i].(pendingTxid := None, state := SUCCEEDED)]);
      Inv(b) && Later(a, b)
  {
    var i := a.pending[txid];
    var b := a.(pending := a.pending - {txid},
        pairs := a.pairs[i := a.pairs[i].(pendingTxid := None, state := SUCCEEDED)]);
    assert forall t | t in b.pending :: t != txid && t in a.pending;
  }

  lemma SuccessKeeps(a: Agent, txid: TransactionId)
    requires Inv(a)
    ensures Inv(HandleSuccess(a, txid)) && Later(a, HandleSuccess(a, txid))
  {
    hide Select, DistinctKeys;
    if txid in a.pending {
      var i := a.pending[txid];
      var b := a.(pending := a.pending - {txid},
          pairs := a.pairs[i := a.pairs[i].(pendingTxid := None, state := SUCCEEDED)]);
      MarkKeeps(a, txid);
      if b.controlling {
        SelectKeeps(b, Listed(i));
        LaterTrans(a, b, Select(b, Listed(i)));
      }
    }
  }

  lemma StepKeeps(a: Agent, e: Event)
    requires Inv(a)
    ensures Inv(Next(a, e)) && Later(a, Next(a, e))
  {
    hide StartChecks, AddRemote, HandleRequest, HandleSuccess, CheckFirst;
    match e
    case AddRemoteCandidate(r, draw) => AddRemoteKeeps(a, r, draw);
    case StartCalled(draw) => StartKeeps(a, draw);
    case TimerFires(draw) => CheckKeeps(a, draw, |a.pairs|);
    case Request(t, r, use, draw) => RequestKeeps(a, t, r, use, draw);
    case Success(txid) => SuccessKeeps(a, txid);
    case _ =>
  }

  function Run(a: Agent, events: seq<Event>): Agent
    requires Inv(a)
    decreases |events|
  {
    if events == [] then a
    else
      StepKeeps(a, events[0]);
      Run(Next(a, events[0]), events[1..])
  }

  // ---- Main results ----

  /** No transaction outlives its pair's next check, so there are never more of them than pairs. */
  lemma PendingNeverExceedsPairs(a: Agent)
    requires PendingInv(a)
    ensures |a.pending| <= |a.pairs|
  {
    FewKeys(a.pending, |a.pairs|);
  }

  lemma {:induction false} FewKeys(m: map<TransactionId, nat>, n: nat)
    requires forall t | t in m :: m[t] < n
    requires forall s, t | s in m && t in m && m[s] == m[t] :: s == t
    ensures |m| <= n
    decreases n
  {
    if t :| t in m && m[t] == n - 1 {
      var rest := m - {t};
      assert rest.Keys == m.Keys - {t};
      assert |rest| == |m| - 1;
      FewKeys(rest, n - 1);
    } else if n > 0 {
      FewKeys(m, n - 1);
    } else {
      assert m.Keys == {};
      assert |m| == |m.Keys|;
    }
  }

  /**
   * Over every run, restarts included and whatever ids are drawn: keys are distinct; each pending
   * transaction belongs to the pair that last sent it, so there are at most as many as pairs; pairs never
   * leave their place; a pair that has succeeded stays so and is never checked again; and a selection,
   * once made, never changes.
   */
  lemma {:induction false} ChecksStayBounded(a: Agent, events: seq<Event>)
    requires Inv(a)
    ensures Inv(Run(a, events)) && Later(a, Run(a, events)) && |Run(a, events).pending| <= |Run(a, events).pairs|
    decreases |events|
  {
    hide Inv, Later, Next, PendingInv;
    InvPending(a);
    if events == [] {
      LaterSelf(a);
      PendingNeverExceedsPairs(a);
    } else {
      StepKeeps(a, events[0]);
      ChecksStayBounded(Next(a, events[0]), events[1..]);
      LaterTrans(a, Next(a, events[0]), Run(a, events));
    }
  }

  // ---- The policy 'relay' ----

  predicate Relayed(locals: seq<Local>) { forall l | l in locals :: l.typ == "relay" }

  /** Pairs from position `n` on use relay candidates only. */
  predicate RelayedFrom(pairs: seq<Pair>, n: nat) {
    forall i | n <= i < |pairs| :: pairs[i].local.typ == "relay"
  }

  lemma {:induction false} RemotesRelayed(pairs: seq<Pair>, l: Local, remotes: seq<Remote>, n: nat)
    requires RelayedFrom(pairs, n) && l.typ == "relay"
    ensures RelayedFrom(WithRemotes(pairs, l, remotes), n)
  {
    hide KeyOf, HasKey;
    if remotes != [] {
      RemotesRelayed(pairs, l, remotes[..|remotes| - 1], n);
    }
  }

  lemma {:induction false} LocalsRelayed(pairs: seq<Pair>, locals: seq<Local>, remotes: seq<Remote>, n: nat)
    requires RelayedFrom(pairs, n) && Relayed(locals)
    ensures RelayedFrom(WithLocals(pairs, locals, remotes), n)
  {
    hide WithRemotes;
    if locals != [] {
      LocalsRelayed(pairs, locals[..|locals| - 1], remotes, n);
      RemotesRelayed(WithLocals(pairs, locals[..|locals| - 1], remotes), locals[|locals| - 1], remotes, n);
    }
  }

  lemma {:induction false} CheckRelayed(a: Agent, draw: nat -> TransactionId, m: nat, n: nat)
    requires RelayedFrom(a.pairs, n) && m <= |a.pairs|
    ensures RelayedFrom(CheckFirst(a, draw, m).pairs, n) && CheckFirst(a, draw, m).locals == a.locals
  {
    if m > 0 {
      CheckRelayed(a, draw, m - 1, n);
    }
  }

  lemma AddRemoteRelayed(a: Agent, r: Remote, draw: nat -> TransactionId, n: nat)
    requires RelayedFrom(a.pairs, n) && Relayed(a.locals)
    ensures RelayedFrom(AddRemote(a, r, draw).pairs, n) && AddRemote(a, r, draw).locals == a.locals
  {
    hide WithLocals, CheckFirst;
    var b := FormPairs(a.(remotes := a.remotes + [r]));
    LocalsRelayed(a.pairs, a.locals, a.remotes + [r], n);
    CheckRelayed(b.(timer := true), draw, |b.pairs|, n);
  }

  /** A local candidate added later is a relay candidate too. */
  predicate AddsRelay(e: Event) { e.AddLocalCandidate? ==> e.local.typ == "relay" }

  lemma StepRelayed(a: Agent, e: Event, n: nat)
    requires Inv(a) && RelayedFrom(a.pairs, n) && Relayed(a.locals) && AddsRelay(e)
    ensures RelayedFrom(Next(a, e).pairs, n) && Relayed(Next(a, e).locals)
  {
    hide AddRemote, CheckFirst;
    match e
    case AddRemoteCandidate(r, draw) => AddRemoteRelayed(a, r, draw, n);
    case StartCalled(draw) => CheckRelayed(a.(timer := true), draw, |a.pairs|, n);
    case TimerFires(draw) => CheckRelayed(a, draw, |a.pairs|, n);
    case Request(t, r, use, draw) => AddRemoteRelayed(a, r, draw, n);
    case _ =>
  }

  lemma {:induction false} RunRelayed(a: Agent, events: seq<Event>, n: nat)
    requires Inv(a) && RelayedFrom(a.pairs, n) && Relayed(a.locals) && forall e | e in events :: AddsRelay(e)
    ensures RelayedFrom(Run(a, events).pairs, n)
    decreases |events|
  {
    hide Inv, Relayed, RelayedFrom, Next, AddsRelay;
    if events != [] {
      InvPending(a);
      StepRelayed(a, events[0], n);
      StepKeeps(a, events[0]);
      RunRelayed(Next(a, events[0]), events[1..], n);
    }
  }

  /**
   * With the policy 'relay', whatever happens once the other local candidates are dropped: a pair of another
   * type is used exactly if one had already been formed by then, since dropping a candidate keeps its pairs.
   */
  lemma OnlyRelayPairsIff(a: Agent, events: seq<Event>)
    requires Inv(a) && forall e | e in events :: AddsRelay(e)
    ensures Inv(Next(a, KeepRelay))
    ensures RelayedFrom(Run(Next(a, KeepRelay), events).pairs, 0) <==> RelayedFrom(a.pairs, 0)
  {
    hide Inv, Later, PendingInv, Run, AddsRelay, RelayOnly;
    InvPending(a);
    StepKeeps(a, KeepRelay);
    var b := Next(a, KeepRelay);
    ChecksStayBounded(b, events);
    DropsOthers(a);
    if RelayedFrom(a.pairs, 0) {
      RunRelayed(b, events, 0);
    }
    if RelayedFrom(Run(b, events).pairs, 0) {
      LocalsStay(b, Run(b, events));
    }
  }

  lemma DropsOthers(a: Agent)
    ensures Relayed(RelayOnly(a.locals))
  {}

  lemma LocalsStay(a: Agent, b: Agent)
    requires Later(a, b) && RelayedFrom(b.pairs, 0)
    ensures RelayedFrom(a.pairs, 0)
  {}

  // ---- The selected transport ----

  /** Where the agent will send: a listed pair's transport, or that of a path no pair describes. */
  function SelectedTransport(a: Agent): Option<nat> {
    match a.selected
    case None => None
    case Some(Synthetic(transport, _)) => Some(transport)
    case Some(Listed(i)) => if i < |a.pairs| then Some(a.pairs[i].local.transport) else None
  }

  predicate LocalsAreOn(locals: seq<Local>, transports: set<nat>) {
    forall l | l in locals :: l.transport in transports
  }

  predicate PairsAreOn(pairs: seq<Pair>, transports: set<nat>) {
    forall i | 0 <= i < |pairs| :: pairs[i].local.transport in transports
  }

  /** All candidates and pairs are on these transports. */
  predicate OnlyOn(a: Agent, transports: set<nat>) {
    LocalsAreOn(a.locals, transports) && PairsAreOn(a.pairs, transports)
  }

  predicate AddsOn(e: Event, transports: set<nat>) { e.AddLocalCandidate? ==> e.local.transport in transports }

  /** The peer nominates, on a transport of no candidate, an agent that follows and has not selected yet. */
  predicate NominatedElsewhere(a: Agent, e: Event, transports: set<nat>) {
    e.Request? && e.useCandidate && e.transport !in transports && !a.controlling && a.selected == None
  }

  predicate EverElsewhere(a: Agent, events: seq<Event>, transports: set<nat>)
    requires Inv(a)
    decreases |events|
  {
    events != [] &&
    (NominatedElsewhere(a, events[0], transports)
     || (StepKeeps(a, events[0]);
         EverElsewhere(Next(a, events[0]), events[1..], transports)))
  }

  lemma {:induction false} RemotesOn(pairs: seq<Pair>, l: Local, remotes: seq<Remote>, transports: set<nat>)
    requires l.transport in transports && PairsAreOn(pairs, transports)
    ensures PairsAreOn(WithRemotes(pairs, l, remotes), transports)
  {
    hide KeyOf, HasKey;
    if remotes != [] {
      RemotesOn(pairs, l, remotes[..|remotes| - 1], transports);
    }
  }

  lemma {:induction false} LocalsOn(pairs: seq<Pair>, locals: seq<Local>, remotes: seq<Remote>, transports: set<nat>)
    requires LocalsAreOn(locals, transports) && PairsAreOn(pairs, transports)
    ensures PairsAreOn(WithLocals(pairs, locals, remotes), transports)
  {
    hide WithRemotes;
    if locals != [] {
      var n := |locals| - 1;
      LocalsOn(pairs, locals[..n], remotes, transports);
      RemotesOn(WithLocals(pairs, locals[..n], remotes), locals[n], remotes, transports);
    }
  }

  lemma {:induction false} CheckOn(a: Agent, draw: nat -> TransactionId, m: nat, transports: set<nat>)
    requires OnlyOn(a, transports) && m <= |a.pairs|
    ensures var b := CheckFirst(a, draw, m); OnlyOn(b, transports) && b.selected == a.selected
  {
    if m > 0 {
      CheckOn(a, draw, m - 1, transports);
    }
  }

  lemma AddRemoteOn(a: Agent, r: Remote, draw: nat -> TransactionId, transports: set<nat>)
    requires OnlyOn(a, transports)
    ensures var b := AddRemote(a, r, draw); OnlyOn(b, transports) && b.selected == a.selected
  {
    hide WithLocals, CheckFirst;
    LocalsOn(a.pairs, a.locals, a.remotes + [r], transports);
    var b := FormPairs(a.(remotes := a.remotes + [r]));
    CheckOn(b.(timer := true), draw, |b.pairs|, transports);
  }

  /** The selection stays on these transports exactly if nothing was nominated elsewhere. */
  predicate SelectedOn(a: Agent, transports: set<nat>) {
    SelectedTransport(a) == None || SelectedTransport(a).value in transports
  }

  /** A nomination selects the transport it came in on. */
  lemma NominateOn(a: Agent, transport: nat, r: Remote, transports: set<nat>)
    requires OnlyOn(a, transports)
    ensures var found := FindPair(a.pairs, transport, r, 0);
      var b := Select(a, match found case Some(i) => Listed(i) case None => Synthetic(transport, r));
      && OnlyOn(b, transports)
      && (SelectedOn(b, transports) <==> SelectedOn(a, transports) && (a.selected.Some? || transport in transports))
  {}

  /** What more pairs leave alone. */
  lemma SameSelection(a: Agent, b: Agent, transports: set<nat>)
    requires SelectedInv(a) && Later(a, b) && b.selected == a.selected
    ensures SelectedOn(b, transports) <==> SelectedOn(a, transports)
  {}

  lemma RequestOn(a: Agent, e: Event, transports: set<nat>)
    requires Inv(a) && OnlyOn(a, transports) && e.Request?
    ensures OnlyOn(Next(a, e), transports)
    ensures SelectedOn(Next(a, e), transports) <==> SelectedOn(a, transports) && !NominatedElsewhere(a, e, transports)
  {
    hide AddRemote, DistinctKeys, PendingInv, OnlyOn, SelectedOn, Later, Select;
    AddRemoteOn(a, e.from, e.draw, transports);
    AddRemoteKeeps(a, e.from, e.draw);
    LaterSelf(a);
    var b := if e.from in a.remotes then a else AddRemote(a, e.from, e.draw);
    SameSelection(a, b, transports);
    SameRole(a, b);
    NominateOn(b, e.transport, e.from, transports);
  }

  lemma SameRole(a: Agent, b: Agent)
    requires Later(a, b)
    ensures b.controlling == a.controlling
  {}

  lemma SuccessOn(a: Agent, txid: TransactionId, transports: set<nat>)
    requires Inv(a) && OnlyOn(a, transports)
    ensures OnlyOn(HandleSuccess(a, txid), transports)
    ensures SelectedOn(HandleSuccess(a, txid), transports) <==> SelectedOn(a, transports)
  {
    hide DistinctKeys;
  }

  /** Only the two answers select. */
  lemma OtherOn(a: Agent, e: Event, transports: set<nat>)
    requires Inv(a) && OnlyOn(a, transports) && AddsOn(e, transports) && !e.Request? && !e.Success?
    ensures OnlyOn(Next(a, e), transports) && SelectedOn(Next(a, e), transports) == SelectedOn(a, transports)
  {
    hide AddRemote, CheckFirst, DistinctKeys, PendingInv;
    match e
    case AddRemoteCandidate(r, draw) =>
      AddRemoteOn(a, r, draw, transports);
      AddRemoteKeeps(a, r, draw);
    case StartCalled(draw) => CheckOn(a.(timer := true), draw, |a.pairs|, transports);
    case TimerFires(draw) => CheckOn(a, draw, |a.pairs|, transports);
    case _ =>
  }

  lemma StepOn(a: Agent, e: Event, transports: set<nat>)
    requires Inv(a) && OnlyOn(a, transports) && AddsOn(e, transports)
    ensures Later(a, Next(a, e)) && OnlyOn(Next(a, e), transports)
    ensures SelectedOn(Next(a, e), transports) <==> SelectedOn(a, transports) && !NominatedElsewhere(a, e, transports)
  {
    hide Inv, OnlyOn, SelectedOn, AddsOn, HandleRequest, AddRemote, HandleSuccess, StartChecks, Tick;
    StepKeeps(a, e);
    if e.Request? {
      RequestOn(a, e, transports);
    } else if e.Success? {
      InvPending(a);
      SuccessOn(a, e.txid, transports);
    } else {
      OtherOn(a, e, transports);
    }
  }

  /**
   * Over every run of an agent all of whose candidates and pairs are on some transports, as after the policy
   * 'relay' has dropped the others: what it selects is on one of them if and only if no USE-CANDIDATE request
   * reached it on another while it was controlled and had not selected.
   */
  lemma {:induction false} SelectedOnIff(a: Agent, events: seq<Event>, transports: set<nat>)
    requires Inv(a) && OnlyOn(a, transports) && forall e | e in events :: AddsOn(e, transports)
    ensures SelectedOn(Run(a, events), transports) <==>
      SelectedOn(a, transports) && !EverElsewhere(a, events, transports)
    decreases |events|
  {
    hide Inv, OnlyOn, SelectedOn, Next, AddsOn, NominatedElsewhere;
    if events != [] {
      InvPending(a);
      StepOn(a, events[0], transports);
      StepKeeps(a, events[0]);
      SelectedOnIff(Next(a, events[0]), events[1..], transports);
    }
  }

  /** One remote candidate heard of before gathering ends is enough. */
  lemma HostPairSurvives(host: Local, r: Remote, draw: nat -> TransactionId)
    requires host.typ == "host" && Usable(r)
    ensures var a := Agent(true, false, [host], [], [], map[], None, false, false, []);
      var b := Next(Next(a, AddRemoteCandidate(r, draw)), KeepRelay);
      b.locals == [] && |b.pairs| == 1 && b.pairs[0].local == host
  {
    hide KeyOf;
    assert [host][..0] == [] && [r][..0] == [] && [] + [r] == [r];
    assert WithRemotes([], host, [r]) == WithPair(WithRemotes([], host, []), host, r);
    assert WithLocals([], [host], [r]) == WithRemotes(WithLocals([], [], [r]), host, [r]);
    assert RelayOnly([host]) == RelayOnly([]) == [];
  }

  lemma InvPending(a: Agent)
    requires Inv(a)
    ensures PendingInv(a) && forall txid | txid in a.pending :: a.pending[txid] < |a.pairs|
  {}

  lemma FreshAgent(controlling: bool)
    ensures Inv(Agent(controlling, false, [], [], [], map[], None, false, false, []))
  {}
}

/** The agent object and the methods that update it. */
module IceAgentObject {
  import opened Bytes
  import opened IceChecks

  class IceAgent {
    const controlling: bool
    var remotePwd: bool
    var localCandidates: seq<Local>
    var remoteCandidates: seq<Remote>
    var pairs: seq<Pair>
    var pendingChecks: map<TransactionId, nat>
    var selected: Option<Selected>
    var checkTimer: bool
    var closed: bool
    ghost var checks: seq<nat>

    ghost function View(): Agent
      reads this
    {
      Agent(controlling, remotePwd, localCandidates, remoteCandidates, pairs, pendingChecks, selected, checkTimer,
          closed, checks)
    }

    ghost predicate Valid()
      reads this
    {
      Inv(View())
    }

    constructor (controlling: bool)
      ensures Valid() && View() == Agent(controlling, false, [], [], [], map[], None, false, false, [])
    {
      this.controlling := controlling;
      remotePwd, localCandidates, remoteCandidates, pairs, pendingChecks := false, [], [], [], map[];
      selected, checkTimer, closed, checks := None, false, false, [];
    }

    /** The end of `gather` with the policy 'relay'. */
    method KeepRelayCandidates()
      requires Valid()
      modifies this`localCandidates
      ensures Valid() && View() == Next(old(View()), KeepRelay)
      ensures forall l :: l in localCandidates <==> l in old(localCandidates) && l.typ == "relay"
    {
      localCandidates := RelayOnly(localCandidates);
    }

    method FormPairs()
      requires Valid()
      modifies this`pairs
      ensures Valid() && View() == IceChecks.FormPairs(old(View()))
    {
      hide KeyOf, WithPair, Inv;
      FormKeeps(View());
      for i := 0 to |localCandidates|
        invariant pairs == WithLocals(old(pairs), localCandidates[..i], remoteCandidates)
      {
        assert localCandidates[..i + 1][..i] == localCandidates[..i];
        ghost var before := pairs;
        for j := 0 to |remoteCandidates|
          invariant pairs == WithRemotes(before, localCandidates[i], remoteCandidates[..j])
        {
          assert remoteCandidates[..j + 1][..j] == remoteCandidates[..j];
          AddPair(localCandidates[i], remoteCandidates[j]);
        }
        assert remoteCandidates[..|remoteCandidates|] == remoteCandidates;
      }
      assert localCandidates[..|localCandidates|] == localCandidates;
    }

    method AddPair(l: Local, r: Remote)
      modifies this`pairs
      ensures pairs == WithPair(old(pairs), l, r)
    {
      hide KeyOf;
      var key, found := KeyOf(l, r), false;
      for i := 0 to |pairs|
        invariant found <==> exists k :: 0 <= k < i && pairs[k].key == key
      {
        found := found || pairs[i].key == key;
      }
      if !found {
        pairs := pairs + [Pair(key, l, r, FROZEN, None)];
      }
    }

    method SendCheck(i: nat, txid: TransactionId)
      requires i < |pairs|
      modifies this`pairs, this`pendingChecks, this`checks
      ensures View() == IceChecks.SendCheck(old(View()), i, txid) && |pairs| == |old(pairs)|
    {
      var pair := pairs[i];
      if pair.pendingTxid.Some? {
        pendingChecks := pendingChecks - {pair.pendingTxid.value};
      }
      pairs := pairs[i := pair.(pendingTxid := Some(txid), state := IN_PROGRESS)];
      pendingChecks := pendingChecks[txid := i];
      checks := checks + [i];
    }

    method Tick(draw: nat -> TransactionId)
      requires Valid()
      modifies this`pairs, this`pendingChecks, this`checks
      ensures Valid() && View() == IceChecks.Tick(old(View()), draw)
    {
      hide IceChecks.SendCheck, Inv;
      if closed {
        return;
      }
      CheckKeeps(View(), draw, |pairs|);
      ghost var before := View();
      for i := 0 to |pairs|
        invariant |pairs| == |before.pairs| && View() == CheckFirst(before, draw, i)
      {
        if pairs[i].state != SUCCEEDED {
          SendCheck(i, draw(i));
        }
      }
    }

    method StartChecks(draw: nat -> TransactionId)
      requires Valid()
      modifies this`pairs, this`pendingChecks, this`checks, this`checkTimer
      ensures Valid() && View() == IceChecks.StartChecks(old(View()), draw)
    {
      hide IceChecks.Tick;
      if checkTimer || closed {
        return;
      }
      checkTimer := true;
      Tick(draw);
    }

    method StopChecks()
      requires Valid()
      modifies this`checkTimer, this`pendingChecks
      ensures Valid() && View() == IceChecks.StopChecks(old(View()))
    {
      checkTimer, pendingChecks := false, map[];
    }

    method AddRemoteCandidate(r: Remote, draw: nat -> TransactionId)
      requires Valid()
      modifies this`remoteCandidates, this`pairs, this`pendingChecks, this`checks, this`checkTimer
      ensures Valid() && View() == AddRemote(old(View()), r, draw)
    {
      hide IceChecks.StartChecks, IceChecks.FormPairs;
      if !Usable(r) {
        return;
      }
      remoteCandidates := remoteCandidates + [r];
      FormPairs();
      if !checkTimer && remotePwd {
        StartChecks(draw);
      }
    }

    method Start(draw: nat -> TransactionId)
      requires Valid()
      modifies this`pairs, this`pendingChecks, this`checks, this`checkTimer
      ensures Valid() && View() == Next(old(View()), StartCalled(draw))
    {
      hide IceChecks.StartChecks;
      if remotePwd && |remoteCandidates| > 0 {
        StartChecks(draw);
      }
    }

    /** Called once the request's integrity has been verified. */
    method HandleBindingRequest(transport: nat, from: Remote, useCandidate: bool, draw: nat -> TransactionId)
      requires Valid()
      modifies this`remoteCandidates, this`pairs, this`pendingChecks, this`checks, this`checkTimer, this`selected
      ensures Valid() && View() == HandleRequest(old(View()), transport, from, useCandidate, draw)
    {
      hide AddRemote, IceChecks.Select, Inv;
      RequestKeeps(View(), transport, from, useCandidate, draw);
      if from !in remoteCandidates {
        AddRemoteCandidate(from, draw);
      }
      if useCandidate && !controlling {
        var found := Find(transport, from);
        Select(if found.Some? then Listed(found.value) else Synthetic(transport, from));
      }
    }

    method Find(transport: nat, r: Remote) returns (found: Option<nat>)
      ensures found == FindPair(pairs, transport, r, 0)
    {
      for i := 0 to |pairs|
        invariant FindPair(pairs, transport, r, 0) == FindPair(pairs, transport, r, i)
      {
        if Matches(pairs[i], transport, r) {
          return Some(i);
        }
      }
      return None;
    }

    method HandleBindingSuccess(txid: TransactionId)
      requires Valid()
      modifies this`pairs, this`pendingChecks, this`checkTimer, this`selected
      ensures Valid() && View() == HandleSuccess(old(View()), txid)
    {
      hide IceChecks.Select;
      SuccessKeeps(View(), txid);
      if txid !in pendingChecks {
        return;
      }
      var i := pendingChecks[txid];
      pendingChecks := pendingChecks - {txid};
      pairs := pairs[i := pairs[i].(pendingTxid := None, state := SUCCEEDED)];
      if controlling {
        Select(Listed(i));
      }
    }

    method Select(s: Selected)
      modifies this`pendingChecks, this`checkTimer, this`selected
      ensures View() == IceChecks.Select(old(View()), s)
    {
      if selected.Some? {
        return;
      }
      selected := Some(s);
      checkTimer, pendingChecks := false, map[];
    }

    method Close()
      requires Valid()
      modifies this`closed, this`checkTimer, this`pendingChecks
      ensures Valid() && View() == IceChecks.Close(old(View()))
    {
      if closed {
        return;
      }
      closed := true;
      StopChecks();
    }
  }
}
