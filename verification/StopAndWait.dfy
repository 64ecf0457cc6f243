/**
 The ready flag of a radio device, shared by two threads.

 The sending thread waits until a device's flag is set, then clears it, then hands a fragment to the
 radio; the look and the clearing are two critical sections. The receiving thread sets the flag when
 the radio reports success. Every interleaving of their steps, of the radio's answers and of the
 registration thread is a run here.
 */
module StopAndWait {
  import opened XBeeBroker

  const DEFAULT_FRAME_ID := 1

  datatype Device = Absent | Present(ready: bool)

  /** The sending thread, by what it has done for a fragment to a device. */
  datatype Sender = Idle | Polling(index: nat) | Granted(index: nat) | Cleared(index: nat)

  /** The receiving thread between reading a success report and setting the flag. */
  datatype Receiver = Listening | Marking(index: nat)

  /** One device slot; the frames under its frame id, which is the slot's index plus one: those not
      yet answered, and the answers not yet read; and what has happened so far. */
  datatype Cell = Cell(device: Device, radio: nat, good: nat, bad: nat,
                       admitted: nat, sent: nat, acked: nat, failed: nat, ignored: nat, registered: nat)

  datatype State = State(cells: seq<Cell>, sender: Sender, receiver: Receiver)

  function Init(): (r: State) {
    State(seq(MAXDEVICECOUNT, _ => Cell(Absent, 0, 0, 0, 0, 0, 0, 0, 0, 0)), Idle, Listening)
  }

  datatype Action =
    | Admit(i: nat) // the receiving thread meets a new address
    | Begin(i: nat) // a fragment for device i is ready to go
    | Look          // one look at the flag, under the lock
    | Clear         // the flag is cleared, under the lock
    | Send          // the frame goes to the radio
    | Answer(i: nat, ok: bool) // the radio answers a frame, at most once
    | Read(i: nat, ok: bool)   // the receiving thread reads an answer
    | Mark          // the flag is set, under the lock
    | Timeout       // no answer in time: the device is removed
    | Register      // the registration thread sends, under the default frame id

  predicate Shaped(s: State) {
    |s.cells| == MAXDEVICECOUNT
  }

  predicate Here(s: State, i: nat)
    requires Shaped(s)
  {
    i < MAXDEVICECOUNT && s.cells[i].device.Present?
  }

  /** The receiving thread fills the first free slot. */
  predicate FirstFree(s: State, i: nat)
    requires Shaped(s)
  {
    i < MAXDEVICECOUNT && s.cells[i].device.Absent? && forall k: nat :: k < i ==> Here(s, k)
  }

  predicate Enabled(s: State, a: Action)
    requires Shaped(s)
  {
    match a
    case Admit(i) => FirstFree(s, i) && s.receiver.Listening?
    case Begin(i) => s.sender.Idle? && Here(s, i)
    case Look => s.sender.Polling? && Here(s, s.sender.index)
    case Clear => s.sender.Granted? && Here(s, s.sender.index)
    case Send => s.sender.Cleared? && s.sender.index < MAXDEVICECOUNT
    case Answer(i, _) => i < MAXDEVICECOUNT && s.cells[i].radio > 0
    case Read(i, ok) =>
      i < MAXDEVICECOUNT && s.receiver.Listening? && (if ok then s.cells[i].good else s.cells[i].bad) > 0
    case Mark => s.receiver.Marking? && Here(s, s.receiver.index)
    case Timeout => s.sender.Polling? && Here(s, s.sender.index)
    case Register => true
  }

  function Target(s: State, a: Action): (r: nat) {
    match a
    case Admit(i) => i
    case Begin(i) => i
    case Answer(i, _) => i
    case Read(i, _) => i
    case Mark => if s.receiver.Marking? then s.receiver.index else 0
    case Register => DEFAULT_FRAME_ID - 1
    case _ => if s.sender.Idle? then 0 else s.sender.index
  }

  /** What an action does to the slot it is about. */
  function CellStep(c: Cell, a: Action): (r: Cell)
    requires a.Answer? ==> c.radio > 0
    requires a.Read? ==> (if a.ok then c.good else c.bad) > 0
  {
    match a
    case Admit(_) => c.(device := Present(true), admitted := c.admitted + 1)
    case Clear => c.(device := Present(false))
    case Send => c.(radio := c.radio + 1, sent := c.sent + 1)
    case Answer(_, ok) =>
      if ok then c.(radio := c.radio - 1, good := c.good + 1) else c.(radio := c.radio - 1, bad := c.bad + 1)
    case Read(_, ok) =>
      if !ok then c.(bad := c.bad - 1, failed := c.failed + 1)
      else if c.device.Present? then c.(good := c.good - 1)
      else c.(good := c.good - 1, ignored := c.ignored + 1)
    case Mark => c.(device := Present(true), acked := c.acked + 1)
    case Timeout => c.(device := Absent)
    case Register => c.(radio := c.radio + 1, registered := c.registered + 1)
    case _ => c
  }

  function SenderStep(s: State, a: Action): (r: Sender)
    requires Shaped(s) && Enabled(s, a)
  {
    match a
    case Begin(i) => Polling(i)
    case Look => if s.cells[s.sender.index].device.ready then Granted(s.sender.index) else s.sender
    case Clear => Cleared(s.sender.index)
    case Send => Idle
    case Timeout => Idle
    case _ => s.sender
  }

  function ReceiverStep(s: State, a: Action): (r: Receiver)
    requires Shaped(s)
  {
    match a
    case Read(i, ok) => if ok && Here(s, i) then Marking(i) else s.receiver
    case Mark => Listening
    case _ => s.receiver
  }

  function Step(s: State, a: Action): (r: State)
    requires Shaped(s) && Enabled(s, a)
    ensures Shaped(r)
  {
    var i := Target(s, a);
    State(s.cells[i := CellStep(s.cells[i], a)], SenderStep(s, a), ReceiverStep(s, a))
  }

  predicate Runs(s: State, actions: seq<Action>)
    requires Shaped(s)
    decreases |actions|
  {
    actions == [] || (Enabled(s, actions[0]) && Runs(Step(s, actions[0]), actions[1..]))
  }

  function Run(s: State, actions: seq<Action>): (r: State)
    requires Shaped(s) && Runs(s, actions)
    ensures Shaped(r)
    decreases |actions|
  {
    if actions == [] then s else Run(Step(s, actions[0]), actions[1..])
  }

  // ---------- Counting ----------

  function Bit(b: bool): (r: nat) {
    if b then 1 else 0
  }

  /** Fragments handed to the radio whose answer has not been used. */
  function InFlight(s: State, i: nat): (r: nat)
    requires Shaped(s) && i < MAXDEVICECOUNT
  {
    s.cells[i].radio + s.cells[i].good + s.cells[i].bad + Bit(s.receiver == Marking(i))
  }

  predicate Ready(s: State, i: nat)
    requires Shaped(s)
  {
    Here(s, i) && s.cells[i].device.ready
  }

  /** The sender goes on only while the flag is set, although it looks and clears separately. */
  predicate GrantHolds(s: State)
    requires Shaped(s)
  {
    s.sender.Granted? ==> Ready(s, s.sender.index)
  }

  /** Permissions to send, that is the flag, the sender's right to send and what is in flight, are
      never more than the times the slot was filled and its frame id used for a registration. */
  predicate Law(s: State, i: nat)
    requires Shaped(s) && i < MAXDEVICECOUNT
  {
    var c := s.cells[i];
    Bit(Ready(s, i)) + Bit(s.sender == Cleared(i)) + InFlight(s, i) + c.failed <= c.admitted + c.registered
  }

  /** Every fragment handed to the radio is in flight, acknowledged, failed, or its report ignored. */
  predicate Conserved(s: State, i: nat)
    requires Shaped(s) && i < MAXDEVICECOUNT
  {
    var c := s.cells[i];
    c.sent + c.registered == InFlight(s, i) + c.acked + c.failed + c.ignored
  }

  lemma StepKeepsGrant(s: State, a: Action)
    requires Shaped(s) && Enabled(s, a) && GrantHolds(s)
    ensures GrantHolds(Step(s, a))
  {
  }

  lemma StepKeepsLaw(s: State, a: Action, i: nat)
    requires Shaped(s) && Enabled(s, a) && i < MAXDEVICECOUNT && GrantHolds(s) && Law(s, i)
    ensures Law(Step(s, a), i)
  {
  }

  lemma StepConserves(s: State, a: Action, i: nat)
    requires Shaped(s) && Enabled(s, a) && i < MAXDEVICECOUNT && Conserved(s, i)
    ensures Conserved(Step(s, a), i)
  {
  }

  /** Both laws hold in every run, timeouts and registrations included. */
  lemma {:induction false} EveryRun(s: State, actions: seq<Action>, i: nat)
    requires Shaped(s) && Runs(s, actions) && i < MAXDEVICECOUNT && GrantHolds(s) && Law(s, i) && Conserved(s, i)
    ensures var r := Run(s, actions); GrantHolds(r) && Law(r, i) && Conserved(r, i)
    decreases |actions|
  {
    if actions != [] {
      hide Step;
      hide Law;
      hide Conserved;
      hide Enabled;
      StepKeepsGrant(s, actions[0]);
      StepKeepsLaw(s, actions[0], i);
      StepConserves(s, actions[0], i);
      EveryRun(Step(s, actions[0]), actions[1..], i);
    }
  }

  /** The first law, read for one slot: if it was filled, or its frame id used for a registration, at
      most once in all, it has at most one unanswered fragment, and none while its flag is set,
      whatever happens at other slots. */
  lemma FilledOnce(actions: seq<Action>, i: nat)
    requires Runs(Init(), actions) && i < MAXDEVICECOUNT
    requires var c := Run(Init(), actions).cells[i]; c.admitted + c.registered <= 1
    ensures var r := Run(Init(), actions); InFlight(r, i) <= 1 && (Ready(r, i) ==> InFlight(r, i) == 0)
  {
    hide Run;
    hide Runs;
    EveryRun(Init(), actions, i);
  }

  // ---------- One fragment at a time ----------

  /** A timeout of this slot's device, or a registration send under this slot's frame id. */
  predicate Harms(s: State, a: Action, i: nat) {
    || (a.Timeout? && s.sender == Polling(i))
    || (a.Register? && i == DEFAULT_FRAME_ID - 1)
  }

  /** The slot sees timeouts, or registration sends, only if they are allowed. */
  predicate Allowed(s: State, actions: seq<Action>, i: nat, timeouts: bool, registrations: bool)
    requires Shaped(s) && Runs(s, actions)
    decreases |actions|
  {
    actions == [] || (
      var a := actions[0];
      && (Harms(s, a, i) ==> if a.Timeout? then timeouts else registrations)
      && Allowed(Step(s, a), actions[1..], i, timeouts, registrations))
  }

  /** At most one unacknowledged fragment; a set flag, or the right to send, means that none is in
      flight and that every fragment sent to the device has been acknowledged. */
  predicate OneAtATime(s: State, i: nat)
    requires Shaped(s) && i < MAXDEVICECOUNT
  {
    var c := s.cells[i];
    && InFlight(s, i) <= 1
    && c.acked <= c.sent <= c.acked + 1
    && (Ready(s, i) || s.sender == Cleared(i) ==> InFlight(s, i) == 0 && c.sent == c.acked)
  }

  /** The slot is filled once and no report of it is ignored. */
  predicate Steady(s: State, i: nat)
    requires Shaped(s) && i < MAXDEVICECOUNT
  {
    var c := s.cells[i];
    c.registered == 0 && c.ignored == 0 && c.admitted == Bit(c.device.Present?)
  }

  lemma StepKeepsSteady(s: State, a: Action, i: nat)
    requires Shaped(s) && Enabled(s, a) && i < MAXDEVICECOUNT && !Harms(s, a, i)
    requires Law(s, i) && Steady(s, i)
    ensures Steady(Step(s, a), i)
  {
  }

  lemma {:induction false} UnharmedRun(s: State, actions: seq<Action>, i: nat)
    requires Shaped(s) && Runs(s, actions) && Allowed(s, actions, i, false, false) && i < MAXDEVICECOUNT
    requires GrantHolds(s) && Law(s, i) && Steady(s, i)
    ensures Steady(Run(s, actions), i)
    decreases |actions|
  {
    hide Step;
    hide Law;
    hide Enabled;
    hide Steady;
    hide GrantHolds;
    if actions != [] {
      StepKeepsGrant(s, actions[0]);
      StepKeepsLaw(s, actions[0], i);
      StepKeepsSteady(s, actions[0], i);
      UnharmedRun(Step(s, actions[0]), actions[1..], i);
    }
  }

  /** Stop and wait. In every interleaving in which this slot sees no timeout and no registration
      send, whatever happens to the others, its device gets one fragment at a time. */
  lemma StopAndWaitHolds(actions: seq<Action>, i: nat)
    requires i < MAXDEVICECOUNT && Runs(Init(), actions) && Allowed(Init(), actions, i, false, false)
    ensures OneAtATime(Run(Init(), actions), i)
  {
    hide Run;
    hide Runs;
    hide Allowed;
    EveryRun(Init(), actions, i);
    UnharmedRun(Init(), actions, i);
  }

  // ---------- Why both are excluded ----------

  lemma {:induction false} RunsOn(s: State, actions: seq<Action>, a: Action, i: nat, timeouts: bool, registrations: bool)
    requires Shaped(s) && Runs(s, actions) && Enabled(Run(s, actions), a)
    requires Allowed(s, actions, i, timeouts, registrations)
    requires Harms(Run(s, actions), a, i) ==> if a.Timeout? then timeouts else registrations
    ensures Runs(s, actions + [a]) && Run(s, actions + [a]) == Step(Run(s, actions), a)
    ensures Allowed(s, actions + [a], i, timeouts, registrations)
    decreases |actions|
  {
    hide Step;
    hide Enabled;
    hide Harms;
    if actions == [] {
      assert ([] + [a])[1..] == [] && ([] + [a])[0] == a;
      RunsNothing(Step(s, a), i, timeouts, registrations);
    } else {
      assert (actions + [a])[1..] == actions[1..] + [a];
      RunsOn(Step(s, actions[0]), actions[1..], a, i, timeouts, registrations);
    }
  }

  lemma RunsNothing(s: State, i: nat, timeouts: bool, registrations: bool)
    requires Shaped(s)
    ensures Runs(s, []) && Run(s, []) == s && Allowed(s, [], i, timeouts, registrations)
  {
  }

  /** Slots filled from the front, nothing sent. */
  predicate FilledTo(s: State, n: nat)
    requires Shaped(s)
  {
    && s.sender.Idle? && s.receiver.Listening?
    && forall k :: 0 <= k < MAXDEVICECOUNT ==>
         s.cells[k] == if k < n then Cell(Present(true), 0, 0, 0, 1, 0, 0, 0, 0, 0) else Cell(Absent, 0, 0, 0, 0, 0, 0, 0, 0, 0)
  }

  lemma {:induction false} Filled(n: nat, i: nat, timeouts: bool, registrations: bool) returns (actions: seq<Action>)
    requires n <= MAXDEVICECOUNT
    ensures Runs(Init(), actions) && Allowed(Init(), actions, i, timeouts, registrations) && FilledTo(Run(Init(), actions), n)
    decreases n
  {
    hide Run;
    hide Runs;
    hide Allowed;
    if n == 0 {
      actions := [];
      RunsNothing(Init(), i, timeouts, registrations);
    } else {
      var before := Filled(n - 1, i, timeouts, registrations);
      RunsOn(Init(), before, Admit(n - 1), i, timeouts, registrations);
      actions := before + [Admit(n - 1)];
    }
  }

  /** A fragment is in flight to device i, and no slot in front of it is free. */
  predicate OneSent(s: State, i: nat)
    requires Shaped(s) && i < MAXDEVICECOUNT
  {
    && s.sender.Idle? && s.receiver.Listening? && (forall k: nat :: k < i ==> Here(s, k))
    && s.cells[i] == Cell(Present(false), 1, 0, 0, 1, 1, 0, 0, 0, 0)
  }

  lemma SendOne(i: nat, timeouts: bool, registrations: bool) returns (actions: seq<Action>)
    requires i < MAXDEVICECOUNT
    ensures Runs(Init(), actions) && Allowed(Init(), actions, i, timeouts, registrations) && OneSent(Run(Init(), actions), i)
  {
    hide Run;
    hide Runs;
    hide Allowed;
    actions := Filled(i + 1, i, timeouts, registrations);
    RunsOn(Init(), actions, Begin(i), i, timeouts, registrations);
    actions := actions + [Begin(i)];
    RunsOn(Init(), actions, Look, i, timeouts, registrations);
    actions := actions + [Look];
    RunsOn(Init(), actions, Clear, i, timeouts, registrations);
    actions := actions + [Clear];
    RunsOn(Init(), actions, Send, i, timeouts, registrations);
    actions := actions + [Send];
  }

  /** With a registration send, the first slot's flag can be set while a fragment is in flight. */
  lemma RegistrationBreaksIt(timeouts: bool) returns (actions: seq<Action>)
    ensures Runs(Init(), actions) && Allowed(Init(), actions, 0, timeouts, true)
    ensures var r := Run(Init(), actions); Ready(r, 0) && InFlight(r, 0) == 1
  {
    hide Run;
    hide Runs;
    hide Allowed;
    actions := SendOne(0, timeouts, true);
    RunsOn(Init(), actions, Register, 0, timeouts, true);
    actions := actions + [Register];
    RunsOn(Init(), actions, Answer(0, true), 0, timeouts, true);
    actions := actions + [Answer(0, true)];
    RunsOn(Init(), actions, Read(0, true), 0, timeouts, true);
    actions := actions + [Read(0, true)];
    RunsOn(Init(), actions, Mark, 0, timeouts, true);
    actions := actions + [Mark];
  }

  /** With a timeout, any slot can be filled again, and be ready, while its earlier fragment is in
      flight. */
  lemma TimeoutBreaksIt(i: nat, registrations: bool) returns (actions: seq<Action>)
    requires i < MAXDEVICECOUNT
    ensures Runs(Init(), actions) && Allowed(Init(), actions, i, true, registrations)
    ensures var r := Run(Init(), actions); Ready(r, i) && InFlight(r, i) == 1
  {
    hide Run;
    hide Runs;
    hide Allowed;
    actions := SendOne(i, true, registrations);
    var sent := Run(Init(), actions);
    RunsOn(Init(), actions, Begin(i), i, true, registrations);
    actions := actions + [Begin(i)];
    RunsOn(Init(), actions, Timeout, i, true, registrations);
    actions := actions + [Timeout];
    var r := Run(Init(), actions);
    forall k: nat | k < i
      ensures Here(r, k)
    {
      assert Here(sent, k) && r.cells[k] == sent.cells[k];
    }
    RunsOn(Init(), actions, Admit(i), i, true, registrations);
    actions := actions + [Admit(i)];
  }

  /** Exactly when a slot gets one fragment at a time in every interleaving: if and only if it may see
      no timeout and, being the first slot, no registration send. */
  lemma StopAndWaitExact(i: nat, timeouts: bool, registrations: bool)
    requires i < MAXDEVICECOUNT
    ensures (forall actions :: Runs(Init(), actions) && Allowed(Init(), actions, i, timeouts, registrations) ==>
               OneAtATime(Run(Init(), actions), i))
            <==> !timeouts && (i == DEFAULT_FRAME_ID - 1 ==> !registrations)
  {
    hide Run;
    hide Runs;
    hide Allowed;
    if timeouts {
      var actions := TimeoutBreaksIt(i, registrations);
      assert !OneAtATime(Run(Init(), actions), i);
    } else if i == DEFAULT_FRAME_ID - 1 && registrations {
      var actions := RegistrationBreaksIt(timeouts);
      assert !OneAtATime(Run(Init(), actions), i);
    } else {
      forall actions | Runs(Init(), actions) && Allowed(Init(), actions, i, timeouts, registrations)
        ensures OneAtATime(Run(Init(), actions), i)
      {
        NothingHarms(Init(), actions, i, registrations);
        StopAndWaitHolds(actions, i);
      }
    }
  }

  /** At other slots registration sends are no harm. */
  lemma {:induction false} NothingHarms(s: State, actions: seq<Action>, i: nat, registrations: bool)
    requires Shaped(s) && Runs(s, actions) && Allowed(s, actions, i, false, registrations)
    requires i == DEFAULT_FRAME_ID - 1 ==> !registrations
    ensures Allowed(s, actions, i, false, false)
    decreases |actions|
  {
    hide Step;
    hide Enabled;
    if actions != [] {
      NothingHarms(Step(s, actions[0]), actions[1..], i, registrations);
    }
  }

  // ---------- Progress ----------

  /** A slot whose fragments have all been acknowledged, n of them. */
  predicate AllAcked(s: State, i: nat, n: nat)
    requires Shaped(s) && i < MAXDEVICECOUNT
  {
    s.sender.Idle? && s.receiver.Listening? && s.cells[i] == Cell(Present(true), 0, 0, 0, 1, n, n, 0, 0, 0)
  }

  /** The discipline does not stop the traffic: without any harm, any slot can be sent any number of
      fragments, each acknowledged before the next, and is ready for more. */
  lemma {:induction false} AnyNumberGoes(i: nat, n: nat) returns (actions: seq<Action>)
    requires i < MAXDEVICECOUNT
    ensures Runs(Init(), actions) && Allowed(Init(), actions, i, false, false) && AllAcked(Run(Init(), actions), i, n)
    decreases n
  {
    hide Run;
    hide Runs;
    hide Allowed;
    if n == 0 {
      actions := Filled(i + 1, i, false, false);
    } else {
      actions := AnyNumberGoes(i, n - 1);
      actions := Continue(i, actions, Begin(i));
      actions := Continue(i, actions, Look);
      actions := Continue(i, actions, Clear);
      actions := Continue(i, actions, Send);
      actions := Continue(i, actions, Answer(i, true));
      actions := Continue(i, actions, Read(i, true));
      actions := Continue(i, actions, Mark);
    }
  }

  lemma Continue(i: nat, before: seq<Action>, a: Action) returns (actions: seq<Action>)
    requires i < MAXDEVICECOUNT && Runs(Init(), before) && Allowed(Init(), before, i, false, false)
    requires Enabled(Run(Init(), before), a) && !Harms(Run(Init(), before), a, i)
    ensures Runs(Init(), actions) && Allowed(Init(), actions, i, false, false)
    ensures Run(Init(), actions) == Step(Run(Init(), before), a)
  {
    RunsOn(Init(), before, a, i, false, false);
    actions := before + [a];
  }
}
