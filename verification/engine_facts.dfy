/** What the engine guarantees across cycles, timer ticks, steps and
    program loading. */
module EngineFacts {
  import opened Constants
  import opened Context
  import opened Faults
  import opened Interpreter
  import Instructions
  import Handlers
  import HandlerFacts

  // --------------------------------------------------------------- cycles

  /** A cycle keeps the big-endian opcode it fetched in IR and leaves the
      keyboard alone. */
  lemma CycleFetches(c: Context, rnd: byte)
    requires !c.Exited && c.PC + 1 < MemorySize && Cycle(c, rnd).Success?
    ensures Cycle(c, rnd).value.state.IR == c.Memory[c.PC] as int * 0x100 + c.Memory[c.PC + 1]
    ensures Cycle(c, rnd).value.state.Keyboard == c.Keyboard
  {
    var opcode := Fetch(c.Memory, c.PC).value;
    var fetched := c.(IR := opcode, PC := Handlers.NextPC(c.PC));
    var op := Instructions.EntryAt(Instructions.Decode(opcode).value);
    HandlerFacts.ExecuteFrame(op, fetched, rnd);
  }

  /** A cycle reports the display at most once, always the final display,
      and it does so exactly when the handler left the display marked
      changed, which it does whenever the display was dirty before the cycle
      or the instruction changed it. */
  lemma CycleReports(c: Context, rnd: byte)
    requires !c.Exited && Cycle(c, rnd).Success?
    ensures var o := Cycle(c, rnd).value;
      && |o.effects| <= 1
      && (o.effects != [] ==> o.effects == [UpdateDisplay(o.state.Display)])
      && (c.DisplayChanged || o.state.Display != c.Display ==> o.effects == [UpdateDisplay(o.state.Display)])
    ensures var o := Cycle(c, rnd).value;
      var opcode := Fetch(c.Memory, c.PC).value;
      var done := Handlers.Execute(Instructions.EntryAt(Instructions.Decode(opcode).value),
                                   c.(IR := opcode, PC := Handlers.NextPC(c.PC)), rnd).value;
      (o.effects != [] <==> done.DisplayChanged) && o.state.Display == done.Display
  {
    var opcode := Fetch(c.Memory, c.PC).value;
    var fetched := c.(IR := opcode, PC := Handlers.NextPC(c.PC));
    var op := Instructions.EntryAt(Instructions.Decode(opcode).value);
    HandlerFacts.ExecuteReportsDisplay(op, fetched, rnd);
  }

  /** A cycle fails exactly when the fetch reads past memory, no entry
      matches the opcode, or the handler fails; each cause gives its own
      fault. */
  lemma CycleFaults(c: Context, rnd: byte)
    requires !c.Exited
    ensures c.PC + 1 >= MemorySize ==> Cycle(c, rnd) == Failure(MemoryOutOfRange)
    ensures c.PC + 1 < MemorySize && Instructions.Decode(c.Memory[c.PC] as int * 0x100 + c.Memory[c.PC + 1]).None?
            ==> Cycle(c, rnd) == Failure(UnknownOpcode)
    ensures Cycle(c, rnd).Failure? <==>
              || c.PC + 1 >= MemorySize
              || (var w := c.Memory[c.PC] as int * 0x100 + c.Memory[c.PC + 1];
                  var d := Instructions.Decode(w);
                  || d.None?
                  || Handlers.Execute(Instructions.EntryAt(d.value), c.(IR := w, PC := Handlers.NextPC(c.PC)), rnd).Failure?)
  {
  }

  /** Once the opcode is fetched and decoded, a cycle is its handler: it
      fails with the handler's fault, and otherwise its state is the
      handler's result with the display flag cleared, so every fact about a
      handler holds for the cycle that runs it. */
  lemma CycleExecutes(c: Context, rnd: byte)
    requires !c.Exited && c.PC + 1 < MemorySize
    requires Instructions.Decode(c.Memory[c.PC] as int * 0x100 + c.Memory[c.PC + 1]).Some?
    ensures var w := c.Memory[c.PC] as int * 0x100 + c.Memory[c.PC + 1];
      var h := Handlers.Execute(Instructions.EntryAt(Instructions.Decode(w).value),
                                c.(IR := w, PC := Handlers.NextPC(c.PC)), rnd);
      && (h.Failure? ==> Cycle(c, rnd) == Failure(h.error))
      && (h.Success? ==> Cycle(c, rnd).Success? && Cycle(c, rnd).value.state == h.value.(DisplayChanged := false))
  {
    var w := c.Memory[c.PC] as int * 0x100 + c.Memory[c.PC + 1];
    assert Fetch(c.Memory, c.PC) == Success(w);
  }

  /** An ordinary instruction (not a jump, branch, return or exit, and not a
      key wait) leaves PC two bytes further on. */
  lemma CycleAdvancesPC(c: Context, rnd: byte)
    requires !c.Exited && Cycle(c, rnd).Success?
    requires c.PC + 1 < MemorySize
    requires var d := Instructions.Decode(c.Memory[c.PC] as int * 0x100 + c.Memory[c.PC + 1]);
      d.Some? && Instructions.KindOf(Instructions.EntryAt(d.value)) == Instructions.Other
      && Instructions.EntryAt(d.value) != Instructions.LdVxKey
    ensures Cycle(c, rnd).value.state.PC == Handlers.NextPC(c.PC)
  {
    var opcode := Fetch(c.Memory, c.PC).value;
    var fetched := c.(IR := opcode, PC := Handlers.NextPC(c.PC));
    var op := Instructions.EntryAt(Instructions.Decode(opcode).value);
    HandlerFacts.ExecuteKeepsPC(op, fetched, rnd);
  }

  /** A cycle that fetches EXIT (00FD is its only opcode) leaves the
      context exited, and from then on steps change nothing. */
  lemma ExitHalts(c: Context, rnd: byte)
    requires !c.Exited && c.PC + 1 < MemorySize
    requires var d := Instructions.Decode(c.Memory[c.PC] as int * 0x100 + c.Memory[c.PC + 1]);
      d.Some? && Instructions.EntryAt(d.value) == Instructions.Op.Exit
    ensures Cycle(c, rnd).Success? && Cycle(c, rnd).value.state.Exited
    ensures forall e: Engine, now: int, keys: KeyboardState, rnd': byte
              :: e.context == Cycle(c, rnd).value.state ==> Step(e, now, keys, rnd') == Success(Outcome(e, []))
  {
  }

  // ---------------------------------------------------------------- timers

  /** One tick: each timer drops by one unless already 0, and the speaker
      beeps exactly when the sound timer goes from 1 to 0. */
  lemma TickCountsDown(c: Context)
    requires !c.Exited
    ensures TimerTick(c).state == c.(DT := if c.DT > 0 then c.DT - 1 else 0,
                                     ST := if c.ST > 0 then c.ST - 1 else 0)
    ensures TimerTick(c).effects == if c.ST == 1 then [Beep(BeepFrequencyHz, BeepDurationMs)] else []
  {
  }

  /** `k` timer ticks in a row. */
  function Ticks(c: Context, k: nat): Outcome<Context>
    decreases k
  {
    if k == 0 then Outcome(c, [])
    else
      var first := TimerTick(c);
      var rest := Ticks(first.state, k - 1);
      Outcome(rest.state, first.effects + rest.effects)
  }

  function Max0(n: int): nat {
    if n > 0 then n else 0
  }

  /** After `k` ticks the timers read max(t - k, 0), and a sound timer set to
      n > 0 has beeped exactly once if n <= k and not at all otherwise. */
  lemma {:induction false} TicksCountDown(c: Context, k: nat)
    requires !c.Exited
    decreases k
    ensures Ticks(c, k).state == c.(DT := Max0(c.DT - k), ST := Max0(c.ST - k))
    ensures |Ticks(c, k).effects| == if 0 < c.ST <= k then 1 else 0
    ensures forall j :: 0 <= j < |Ticks(c, k).effects| ==>
              Ticks(c, k).effects[j] == Beep(BeepFrequencyHz, BeepDurationMs)
  {
    if k > 0 {
      TickCountsDown(c);
      TicksCountDown(TimerTick(c).state, k - 1);
    }
  }

  // ----------------------------------------------------------------- steps

  /** A step reads the keyboard and moves each time stamp to `now` exactly
      when its gate fires. */
  lemma StepGates(e: Engine, now: int, keys: KeyboardState, rnd: byte)
    requires !e.context.Exited && Step(e, now, keys, rnd).Success?
    ensures var r := Step(e, now, keys, rnd).value.state;
      && r.lastCycle == (if now - e.lastCycle >= CyclesRate * NanosPerMilli then now else e.lastCycle)
      && r.lastTimerTick == (if now - e.lastTimerTick >= TimersRate * NanosPerMilli then now else e.lastTimerTick)
      && r.paused == e.paused
      && r.context.Keyboard == keys
  {
    var c0 := e.context.(Keyboard := keys);
    if now - e.lastCycle >= CyclesRate * NanosPerMilli {
      var o := Cycle(c0, rnd).value;
      if c0.PC + 1 < MemorySize {
        CycleFetches(c0, rnd);
      }
    }
  }

  /** A step runs a cycle on the machine with the new keyboard exactly when
      the cycle gate fires, and then a timer tick on the result exactly when
      the tick gate fires. It fails exactly when the cycle fails; otherwise
      its machine is the one the tick leaves and its effects are the cycle's
      followed by the tick's. */
  lemma StepRuns(e: Engine, now: int, keys: KeyboardState, rnd: byte)
    requires !e.context.Exited
    ensures var c0 := e.context.(Keyboard := keys);
      var mid := if now - e.lastCycle >= CyclesRate * NanosPerMilli then Cycle(c0, rnd)
                 else Success(Outcome(c0, []));
      && (Step(e, now, keys, rnd).Failure? <==> mid.Failure?)
      && (mid.Failure? ==> Step(e, now, keys, rnd) == Failure(mid.error))
      && (mid.Success? ==>
            var t := if now - e.lastTimerTick >= TimersRate * NanosPerMilli then TimerTick(mid.value.state)
                     else Outcome(mid.value.state, []);
            && Step(e, now, keys, rnd).value.state.context == t.state
            && Step(e, now, keys, rnd).value.effects == mid.value.effects + t.effects)
  {
  }

  /** A step where neither gate fires only reads the keyboard. */
  lemma StepIdle(e: Engine, now: int, keys: KeyboardState, rnd: byte)
    requires !e.context.Exited
    requires now - e.lastCycle < CyclesRate * NanosPerMilli
    requires now - e.lastTimerTick < TimersRate * NanosPerMilli
    ensures Step(e, now, keys, rnd) == Success(Outcome(e.(context := e.context.(Keyboard := keys)), []))
  {
    var c0 := e.context.(Keyboard := keys);
    assert Step(e, now, keys, rnd) == Success(Outcome(Engine(c0, e.lastCycle, e.lastTimerTick, e.paused), [] + []));
    var none: seq<Effect> := [];
    assert none + none == none;
  }

  /** Pausing and resuming gives back the engine, and a paused engine
      ignores updates. */
  lemma PauseResume(e: Engine, now: int, keys: KeyboardState, rnd: byte)
    requires !e.paused
    ensures Pause(Pause(e, true), false) == e
    ensures Update(Pause(e, true), now, keys, rnd) == Success(Outcome(Pause(e, true), []))
  {
  }

  // --------------------------------------------------------------- loading

  /** A loaded program sits at ProgramStartAddress on top of the reset
      memory, PC points at its first instruction, and the registers, timers,
      stack and screen are cleared. */
  lemma LoadProgramLayout(e: Engine, image: seq<byte>)
    requires |image| <= MaxProgramSize
    ensures var c := LoadProgram(e, image).value.context;
      && (forall k :: 0 <= k < |image| ==> c.Memory[ProgramStartAddress + k] == image[k])
      && (forall a :: 0 <= a < FontsetTotalByteSize ==> c.Memory[a] == Fontset[a])
      && (forall a :: FontsetTotalByteSize <= a < ProgramStartAddress ==> c.Memory[a] == 0)
      && (forall a :: ProgramStartAddress + |image| <= a < MemorySize ==> c.Memory[a] == 0)
      && c.PC == ProgramStartAddress
      && c.(Memory := ResetMemory(), PC := 0) == Reset(e.context)
  {
  }

  /** The first cycle after loading fetches the image's first two bytes. */
  lemma LoadThenFetch(e: Engine, image: seq<byte>)
    requires 2 <= |image| <= MaxProgramSize
    ensures var c := LoadProgram(e, image).value.context;
      Fetch(c.Memory, c.PC) == Success(image[0] as int * 0x100 + image[1])
  {
    LoadProgramLayout(e, image);
  }
}
