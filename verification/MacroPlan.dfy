/**
 Macro definitions and the incremental macro run (crates/signal-auras-core/src/macro_plan.rs).

 Instants and durations are natural numbers of nanoseconds; `Millis` converts the
 configured milliseconds.
*/
module MacroPlan {
  import opened Wrappers

  datatype MouseButton = Left | Right | Middle

  datatype Action =
    | KeyPress(key: string)
    | KeyDown(key: string)
    | KeyUp(key: string)
    | TextInput(text: string)
    | MouseClick(button: MouseButton)
    | Delay(durationMs: nat)

  /** A macro has at least one action; `MacroDefinition::new` refuses the empty list. */
  type Macro = actions: seq<Action> | actions != [] witness [KeyPress("")]

  function Millis(ms: nat): nat { ms * 1_000_000 }

  datatype Request = Request(action: Action, sequence: nat)

  datatype Outcome =
    | Ready(request: Request)
    | Pending(wait: nat)
    | Complete
    | Cancelled

  /** One macro run as a value: the fields of `MacroRunState`. */
  datatype Run = Run(
    id: nat,
    actions: seq<Action>,
    nextAction: nat,
    generated: nat,
    delayMs: nat,
    delayArmed: bool,
    readyAt: nat,
    cancelled: bool)
  {
    function Cancel(): Run { this.(cancelled := true) }

    /** A finished or cancelled run has no deadline, even while it waits to be removed. */
    function NextDeadline(): Option<nat> {
      if cancelled || nextAction >= |actions| then None else Some(readyAt)
    }

    function Poll(now: nat): (Run, Outcome) {
      if cancelled then (this, Cancelled)
      else if nextAction >= |actions| then (this, Complete)
      else if now < readyAt then (this, Pending(readyAt - now))
      else
        var action := actions[nextAction];
        if action.Delay? then
          (this.(nextAction := nextAction + 1, readyAt := now + Millis(action.durationMs)),
           Pending(Millis(action.durationMs)))
        else if generated > 0 && delayMs > 0 && delayArmed then
          (this.(readyAt := now + Millis(delayMs), delayArmed := false), Pending(Millis(delayMs)))
        else
          (this.(nextAction := nextAction + 1, generated := generated + 1, delayArmed := true, readyAt := now),
           Ready(Request(action, generated + 1)))
    }
  }

  function NewRun(id: nat, definition: Macro, delayMs: nat, readyAt: nat): Run {
    Run(id, definition, 0, 0, delayMs, true, readyAt, false)
  }

  /** The run as the object the source updates in place. */
  class MacroRunState {
    const id: nat
    const actions: seq<Action>
    const delayMs: nat
    var nextAction: nat
    var generated: nat
    var delayArmed: bool
    var readyAt: nat
    var cancelled: bool

    function State(): Run
      reads this
    {
      Run(id, actions, nextAction, generated, delayMs, delayArmed, readyAt, cancelled)
    }

    constructor (id: nat, definition: Macro, delayMs: nat, readyAt: nat)
      ensures State() == NewRun(id, definition, delayMs, readyAt)
    {
      this.id := id;
      actions := definition;
      this.delayMs := delayMs;
      nextAction := 0;
      generated := 0;
      delayArmed := true;
      this.readyAt := readyAt;
      cancelled := false;
    }

    method Cancel()
      modifies this`cancelled
      ensures State() == old(State()).Cancel()
    {
      cancelled := true;
    }

    method NextDeadline() returns (deadline: Option<nat>)
      ensures deadline == State().NextDeadline()
    {
      deadline := if cancelled || nextAction >= |actions| then None else Some(readyAt);
    }

    method Poll(now: nat) returns (outcome: Outcome)
      modifies this
      ensures (State(), outcome) == old(State()).Poll(now)
    {
      if cancelled {
        return Cancelled;
      }
      if nextAction >= |actions| {
        return Complete;
      }
      if now < readyAt {
        return Pending(readyAt - now);
      }
      var action := actions[nextAction];
      nextAction := nextAction + 1;
      if action.Delay? {
        readyAt := now + Millis(action.durationMs);
        outcome := Pending(Millis(action.durationMs));
      } else if generated > 0 && delayMs > 0 && delayArmed {
        nextAction := nextAction - 1;
        readyAt := now + Millis(delayMs);
        delayArmed := false;
        outcome := Pending(Millis(delayMs));
      } else {
        generated := generated + 1;
        delayArmed := true;
        readyAt := now;
        outcome := Ready(Request(action, generated));
      }
    }
  }
}
