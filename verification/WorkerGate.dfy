/**
 The worker's gate in `internal/app/role.go`: processing of an operation waits while one of its file
 transfers is active. The command consumer handles one command at a time; verification events are
 handled by another consumer at any moment.
 */
module WorkerGate {
  import opened Common
  import Decimal

  // ----- identifiers -----

  /** `strings.Contains`. */
  predicate Contains(s: string, sub: string) {
    exists p | 0 <= p <= |s| - |sub| :: OccursAt(s, sub, p)
  }

  predicate OccursAt(s: string, sub: string, p: nat) {
    p + |sub| <= |s| && s[p..p + |sub|] == sub
  }

  predicate IsHexDigit(c: char) {
    '0' <= c <= '9' || 'a' <= c <= 'f'
  }

  /** `generateID("op")`: the prefix and sixteen random bytes in hexadecimal. */
  predicate IsOperationId(id: string) {
    |id| == 35 && id[..3] == "op-" && forall i :: 3 <= i < 35 ==> IsHexDigit(id[i])
  }

  const TRANSFER_PREFIX := "transfer-"

  /** The transfer id made by `DispatchOperationUseCase.Execute` from the operation id and a clock reading. */
  function TransferId(op: string, nanos: nat): string {
    TRANSFER_PREFIX + op + "-" + Decimal.Format(nanos)
  }

  /** The letter `o` occurs once in a transfer id: where the operation id begins. */
  lemma OnlyO(op: string, nanos: nat, p: nat)
    requires IsOperationId(op) && p < |TransferId(op, nanos)| && p != 9
    ensures TransferId(op, nanos)[p] != 'o'
  {
    var t := TransferId(op, nanos);
    var digits := Decimal.Format(nanos);
    Decimal.FormatIsDecimal(nanos);
    if 9 < p < 44 {
      assert t[p] == op[p - 9];
      assert op[1] == op[..3][1] && op[2] == op[..3][2];
    } else if 44 < p {
      assert t[p] == digits[p - 45];
      assert Decimal.IsDigit(digits[p - 45]);
    }
  }

  /** A transfer id contains exactly one operation id: that of its own operation. */
  lemma TransferNamesItsOperation(op: string, other: string, nanos: nat)
    requires IsOperationId(op) && IsOperationId(other)
    ensures Contains(TransferId(op, nanos), other) <==> op == other
  {
    var t := TransferId(op, nanos);
    assert t[9..44] == op;
    if op == other {
      assert OccursAt(t, other, 9);
    }
    if Contains(t, other) {
      var p :| 0 <= p <= |t| - |other| && OccursAt(t, other, p);
      assert t[p] == other[..3][0];
      if p != 9 {
        OnlyO(op, nanos, p);
      }
    }
  }

  // ----- the gate -----

  datatype Consumer = Idle | Waiting(op: string) | Cleared(op: string)

  /** `succeeded` lists the operations whose success event was appended. */
  datatype Gate = Gate(active: set<string>, consumer: Consumer, succeeded: seq<string>)

  datatype Event =
    | StartTransfer(op: string, nanos: nat)
    | ProcessUpdate(op: string)
    | Check
    | AppendSuccess
    | GiveUp
    | Verified(op: string)

  predicate Blocked(active: set<string>, op: string) {
    exists t :: t in active && Contains(t, op)
  }

  function Removed(active: set<string>, op: string): set<string> {
    set t | t in active && !Contains(t, op)
  }

  function Apply(g: Gate, e: Event): Gate {
    match e
    case StartTransfer(op, nanos) =>
      if g.consumer.Idle? then g.(active := g.active + {TransferId(op, nanos)}) else g
    case ProcessUpdate(op) =>
      if g.consumer.Idle? then g.(consumer := Waiting(op)) else g
    case Check =>
      if g.consumer.Waiting? && !Blocked(g.active, g.consumer.op) then g.(consumer := Cleared(g.consumer.op)) else g
    case AppendSuccess =>
      if g.consumer.Cleared? then g.(consumer := Idle, succeeded := g.succeeded + [g.consumer.op]) else g
    case GiveUp =>
      if g.consumer.Cleared? then g.(consumer := Idle) else g
    case Verified(op) =>
      g.(active := Removed(g.active, op))
  }

  function Run(g: Gate, events: seq<Event>): Gate {
    if events == [] then g else Apply(Run(g, events[..|events| - 1]), events[|events| - 1])
  }

  /** Events carry operation ids made by `generateID`. */
  predicate Genuine(events: seq<Event>) {
    forall k :: 0 <= k < |events| ==> (events[k].Verified? ==> IsOperationId(events[k].op))
  }

  function Successes(succeeded: seq<string>, op: string): nat {
    multiset(succeeded)[op]
  }

  /** A transfer of `op` is registered and `op` is not already past the check. */
  predicate Held(g: Gate, op: string, nanos: nat) {
    TransferId(op, nanos) in g.active && g.consumer != Cleared(op)
  }

  lemma HeldStep(g: Gate, e: Event, op: string, nanos: nat)
    requires IsOperationId(op) && Held(g, op, nanos)
    requires e.Verified? ==> IsOperationId(e.op) && e.op != op
    ensures Held(Apply(g, e), op, nanos)
    ensures Successes(Apply(g, e).succeeded, op) == Successes(g.succeeded, op)
  {
    TransferNamesItsOperation(op, op, nanos);
    if e.Verified? {
      TransferNamesItsOperation(op, e.op, nanos);
    }
  }

  /** Until its own verification event comes, an operation with a registered transfer makes no progress past the gate. */
  lemma {:induction false} GateHolds(g: Gate, events: seq<Event>, op: string, nanos: nat)
    requires IsOperationId(op) && Held(g, op, nanos) && Genuine(events) && Verified(op) !in events
    ensures Held(Run(g, events), op, nanos)
    ensures Successes(Run(g, events).succeeded, op) == Successes(g.succeeded, op)
  {
    if events != [] {
      GateHolds(g, events[..|events| - 1], op, nanos);
      HeldStep(Run(g, events[..|events| - 1]), events[|events| - 1], op, nanos);
    }
  }

  /**
   A success of `op` appended after a transfer of `op` was registered is preceded by the verification
   event of `op`, in every interleaving. `StartTransfer` is handled between commands, so registering
   leaves no processing of `op` half way through.
   */
  lemma SuccessNeedsVerification(g: Gate, events: seq<Event>, op: string, nanos: nat)
    requires IsOperationId(op) && g.consumer.Idle? && Genuine(events)
    requires var started := Apply(g, StartTransfer(op, nanos));
             Successes(Run(started, events).succeeded, op) > Successes(started.succeeded, op)
    ensures Verified(op) in events
  {
    if Verified(op) !in events {
      GateHolds(Apply(g, StartTransfer(op, nanos)), events, op, nanos);
    }
  }

  ghost predicate OnlyTransfers(active: set<string>) {
    forall t :: t in active ==> exists op: string, nanos: nat :: IsTransferOf(t, op, nanos)
  }

  predicate IsTransferOf(t: string, op: string, nanos: nat) {
    IsOperationId(op) && t == TransferId(op, nanos)
  }

  /** The check waits exactly for the operation's own transfers. */
  lemma BlockedExactly(active: set<string>, op: string)
    requires OnlyTransfers(active) && IsOperationId(op)
    ensures Blocked(active, op) <==> exists nanos: nat :: TransferId(op, nanos) in active
  {
    if Blocked(active, op) {
      var t :| t in active && Contains(t, op);
      var owner: string, nanos: nat :| IsTransferOf(t, owner, nanos);
      TransferNamesItsOperation(owner, op, nanos);
      assert TransferId(op, nanos) in active;
    }
    if nanos: nat :| TransferId(op, nanos) in active {
      TransferNamesItsOperation(op, op, nanos);
    }
  }

  /** A verification event removes the transfers of its operation and no others. */
  lemma VerifiedRemovesOwnTransfers(active: set<string>, op: string, other: string, nanos: nat)
    requires IsOperationId(op) && IsOperationId(other) && TransferId(other, nanos) in active
    ensures TransferId(other, nanos) in Removed(active, op) <==> other != op
  {
    TransferNamesItsOperation(other, op, nanos);
  }

  // ----- when the gate is shut -----

  /** Nothing registered, nothing in progress: the worker after its start. */
  const FRESH := Gate({}, Idle, [])

  /** The operations that are registered and verified have ids made by `generateID`. */
  predicate GenuineIds(events: seq<Event>) {
    forall k :: 0 <= k < |events| ==> (events[k].Verified? || events[k].StartTransfer? ==> IsOperationId(events[k].op))
  }

  /** Event `k` registers a transfer of `op`, and no verification event of `op` comes after it. */
  predicate Outstanding(events: seq<Event>, k: int, op: string)
    requires 0 <= k < |events|
  {
    && events[k].StartTransfer? && events[k].op == op && Run(FRESH, events[..k]).consumer.Idle?
    && Verified(op) !in events[k + 1..]
  }

  ghost predicate Shut(events: seq<Event>, op: string) {
    exists k :: 0 <= k < |events| && Outstanding(events, k, op)
  }

  /** How one more event changes what is outstanding. */
  lemma ShutStep(events: seq<Event>, e: Event, op: string)
    ensures Shut(events + [e], op)
       <==> (Shut(events, op) && e != Verified(op))
            || (e.StartTransfer? && e.op == op && Run(FRESH, events).consumer.Idle?)
  {
    var all, n := events + [e], |events|;
    assert all[..n] == events && all[n + 1..] == [];
    forall k | 0 <= k < n
      ensures Outstanding(all, k, op) <==> Outstanding(events, k, op) && e != Verified(op)
    {
      assert all[..k] == events[..k] && all[k + 1..] == events[k + 1..] + [e];
    }
    assert Outstanding(all, n, op) <==> e.StartTransfer? && e.op == op && Run(FRESH, events).consumer.Idle?;
  }

  /** How one event changes what the check waits for. */
  lemma BlockedStep(g: Gate, e: Event, op: string)
    requires OnlyTransfers(g.active) && IsOperationId(op)
    requires e.Verified? || e.StartTransfer? ==> IsOperationId(e.op)
    ensures OnlyTransfers(Apply(g, e).active)
    ensures Blocked(Apply(g, e).active, op)
       <==> (Blocked(g.active, op) && e != Verified(op)) || (e.StartTransfer? && e.op == op && g.consumer.Idle?)
  {
    match e
    case StartTransfer(o, nanos) =>
      TransferNamesItsOperation(o, op, nanos);
      assert IsTransferOf(TransferId(o, nanos), o, nanos);
    case Verified(o) =>
      if o != op {
        BlockedExactly(g.active, op);
        if nanos: nat :| TransferId(op, nanos) in g.active {
          VerifiedRemovesOwnTransfers(g.active, o, op, nanos);
          TransferNamesItsOperation(op, op, nanos);
        }
      }
    case _ =>
  }

  /**
   After any events whatever, the check makes an operation wait exactly if some registration of one of
   its transfers has not been followed by a verification event of the operation. What came before the
   registration does not help: a verification that overtakes it is lost.
   */
  lemma {:induction false} ShutIffOutstanding(events: seq<Event>, op: string)
    requires IsOperationId(op) && GenuineIds(events)
    ensures OnlyTransfers(Run(FRESH, events).active)
    ensures Blocked(Run(FRESH, events).active, op) <==> Shut(events, op)
  {
    if events != [] {
      var init, last := events[..|events| - 1], events[|events| - 1];
      ShutIffOutstanding(init, op);
      assert events == init + [last];
      ShutStep(init, last, op);
      BlockedStep(Run(FRESH, init), last, op);
    }
  }

  /** `more` brings a success of `op` without its verification event. */
  predicate SucceedsUnverified(g: Gate, more: seq<Event>, op: string) {
    && Genuine(more) && Verified(op) !in more
    && Successes(Run(g, more).succeeded, op) > Successes(g.succeeded, op)
  }

  /**
   Between commands, an operation can still succeed without a further verification event exactly if no
   registration of it is outstanding: otherwise no continuation, however long, lets it through.
   */
  lemma CanSucceedIff(events: seq<Event>, op: string)
    requires IsOperationId(op) && GenuineIds(events) && Run(FRESH, events).consumer.Idle?
    ensures (exists more :: SucceedsUnverified(Run(FRESH, events), more, op)) <==> !Shut(events, op)
  {
    var g := Run(FRESH, events);
    ShutIffOutstanding(events, op);
    if Shut(events, op) {
      BlockedExactly(g.active, op);
      var nanos: nat :| TransferId(op, nanos) in g.active;
      forall more | SucceedsUnverified(g, more, op)
        ensures false
      {
        GateHolds(g, more, op, nanos);
      }
    } else {
      SucceedsUnblocked(g, op);
    }
  }

  lemma SucceedsUnblocked(g: Gate, op: string)
    requires g.consumer.Idle? && !Blocked(g.active, op)
    ensures SucceedsUnverified(g, [ProcessUpdate(op), Check, AppendSuccess], op)
  {
    var more := [ProcessUpdate(op), Check, AppendSuccess];
    assert more[..2] == [ProcessUpdate(op), Check] && more[..2][..1] == [ProcessUpdate(op)];
    assert Run(g, more[..2][..1]) == Apply(g, ProcessUpdate(op));
    assert Run(g, more[..2]) == g.(consumer := Cleared(op));
    assert Run(g, more).succeeded == g.succeeded + [op];
  }

  /**
   The verification may overtake the registration: `AcceptTransfer` can finish the transfer before its
   caller has marked it active. Whatever happened before, such a mark is not cleared by anything but
   another verification event, and the operation stays behind the gate.
   */
  lemma LateRegistrationBlocksForever(before: seq<Event>, op: string, nanos: nat, after: seq<Event>)
    requires IsOperationId(op) && GenuineIds(before) && Run(FRESH, before).consumer.Idle?
    requires GenuineIds(after) && Verified(op) !in after
    ensures Blocked(Run(FRESH, before + [StartTransfer(op, nanos)] + after).active, op)
    ensures Run(FRESH, before + [StartTransfer(op, nanos)] + after).consumer.Idle? ==>
              !exists more :: SucceedsUnverified(Run(FRESH, before + [StartTransfer(op, nanos)] + after), more, op)
  {
    var events := before + [StartTransfer(op, nanos)] + after;
    var k := |before|;
    assert events[..k] == before && events[k + 1..] == after;
    assert Outstanding(events, k, op);
    ShutIffOutstanding(events, op);
    if Run(FRESH, events).consumer.Idle? {
      CanSucceedIff(events, op);
    }
  }

  // ----- every accepted command ends once -----

  /** How many times a command for `op` was taken up. */
  function TakenUp(events: seq<Event>, op: string): nat {
    if events == [] then 0
    else
      var init, last := events[..|events| - 1], events[|events| - 1];
      TakenUp(init, op) + if last == ProcessUpdate(op) && Run(FRESH, init).consumer.Idle? then 1 else 0
  }

  /** How many times such a command, past the check, was ended by `how`. */
  function Ended(events: seq<Event>, op: string, how: Event): nat {
    if events == [] then 0
    else
      var init, last := events[..|events| - 1], events[|events| - 1];
      Ended(init, op, how) + if last == how && Run(FRESH, init).consumer == Cleared(op) then 1 else 0
  }

  function InProgress(g: Gate, op: string): nat {
    if g.consumer == Waiting(op) || g.consumer == Cleared(op) then 1 else 0
  }

  /**
   In every run each command taken up for `op` is still in progress, has brought exactly one success
   event, or was given up without one; success events come from nothing else.
   */
  lemma {:induction false} CommandsEndOnce(events: seq<Event>, op: string)
    ensures Successes(Run(FRESH, events).succeeded, op) == Ended(events, op, AppendSuccess)
    ensures TakenUp(events, op)
         == Ended(events, op, AppendSuccess) + Ended(events, op, GiveUp) + InProgress(Run(FRESH, events), op)
  {
    if events != [] {
      CommandsEndOnce(events[..|events| - 1], op);
    }
  }

  // ----- the object -----

  class RoleManager {
    var activeTransfers: set<string>

    constructor ()
      ensures activeTransfers == {}
    {
      activeTransfers := {};
    }

    method AddTransfer(transferId: string)
      modifies this
      ensures activeTransfers == old(activeTransfers) + {transferId}
    {
      activeTransfers := activeTransfers + {transferId};
    }

    /** The loop of `handleWorkerTransferVerified`, which deletes while it ranges over the map. */
    method HandleWorkerTransferVerified(op: string)
      modifies this
      ensures activeTransfers == Removed(old(activeTransfers), op)
    {
      var todo := activeTransfers;
      while exists t :: t in todo
        invariant todo <= old(activeTransfers)
        invariant activeTransfers <= old(activeTransfers)
        invariant forall t :: t in old(activeTransfers) ==> (t in activeTransfers <==> t in todo || !Contains(t, op))
        decreases todo
      {
        var transferId :| transferId in todo;
        todo := todo - {transferId};
        if Contains(transferId, op) {
          activeTransfers := activeTransfers - {transferId};
        }
      }
    }

    /** One round of `checkTransferAndProceed`. */
    method HasActiveTransfer(op: string) returns (found: bool)
      ensures found <==> Blocked(activeTransfers, op)
    {
      found := false;
      var todo := activeTransfers;
      while exists t :: t in todo
        invariant todo <= activeTransfers
        invariant !found && forall t :: t in activeTransfers && Contains(t, op) ==> t in todo
        decreases todo
      {
        var transferId :| transferId in todo;
        todo := todo - {transferId};
        if Contains(transferId, op) {
          return true;
        }
      }
    }
  }
}
