/** `CInterpreter`: fetch/decode/execute cycles and timer ticks gated by a
    clock, pausing, and loading a program image. The platform (keyboard,
    display, speaker) is replaced by inputs and by a list of requested
    effects; the clock reading and the random byte RND draws are inputs. */
module Interpreter {
  import opened Constants
  import opened Context
  import opened Faults
  import Instructions
  import Handlers

  /** What the engine asks the platform to do. */
  datatype Effect =
    | UpdateDisplay(display: Display)
    | Beep(frequencyHz: nat, durationMs: nat)

  /** Time points are integers in nanoseconds, the period of the
      high-resolution clock; the rates are whole milliseconds. */
  const NanosPerMilli: nat := 1_000_000

  datatype Engine = Engine(context: Context, lastCycle: int, lastTimerTick: int, paused: bool)

  /** The result of one call: the new engine (or context) and the effects
      requested, in order. */
  datatype Outcome<T> = Outcome(state: T, effects: seq<Effect>)

  /** A new interpreter: a new context, both time stamps at the clock's
      epoch, not paused. */
  function NewEngine(): (e: Engine)
    ensures e.context == New() && !e.paused
  {
    Engine(New(), 0, 0, false)
  }

  function Pause(e: Engine, pause: bool): (r: Engine)
    ensures r.paused == pause && r.(paused := e.paused) == e
  {
    e.(paused := pause)
  }

  /** The big-endian instruction word at `pc`; an address whose second byte
      is past memory reads out of the array. */
  function Fetch(m: Memory, pc: word): (r: Result<word>)
    ensures r.Failure? <==> pc + 1 >= MemorySize
    ensures r.Success? ==> r.value / 0x100 == m[pc] && r.value % 0x100 == m[pc + 1]
  {
    if pc + 1 >= MemorySize then Failure(MemoryOutOfRange)
    else Success(m[pc] as int * 0x100 + m[pc + 1])
  }

  /** `DoCycle`: fetch into IR, advance PC by 2 (16-bit wrap), run the
      handler of the first matching table entry, then hand a changed display
      to the platform and clear the flag. An opcode no entry matches has no
      handler. */
  function Cycle(c: Context, rnd: byte): (r: Result<Outcome<Context>>)
    ensures c.Exited ==> r == Success(Outcome(c, []))
    ensures r.Success? && !c.Exited ==> !r.value.state.DisplayChanged
  {
    if c.Exited then Success(Outcome(c, []))
    else
      var opcode :- Fetch(c.Memory, c.PC);
      var fetched := c.(IR := opcode, PC := Handlers.NextPC(c.PC));
      match Instructions.Decode(opcode)
      case None => Failure(UnknownOpcode)
      case Some(i) =>
        var done :- Handlers.Execute(Instructions.EntryAt(i), fetched, rnd);
        if done.DisplayChanged then
          Success(Outcome(done.(DisplayChanged := false), [UpdateDisplay(done.Display)]))
        else Success(Outcome(done, []))
  }

  /** `DoTimerTick`: both timers count down to 0; the sound timer reaching 0
      beeps. */
  function TimerTick(c: Context): (r: Outcome<Context>)
    ensures c.Exited ==> r == Outcome(c, [])
  {
    if c.Exited then Outcome(c, [])
    else
      var dt := if c.DT > 0 then c.DT - 1 else c.DT;
      var st := if c.ST > 0 then c.ST - 1 else c.ST;
      var beep := if c.ST > 0 && st == 0 then [Beep(BeepFrequencyHz, BeepDurationMs)] else [];
      Outcome(c.(DT := dt, ST := st), beep)
  }

  /** `Step`: nothing once the program exited; otherwise read the keyboard,
      run a cycle when CyclesRate has passed since the last one and a timer
      tick when TimersRate has passed since the last one. */
  function Step(e: Engine, now: int, keys: KeyboardState, rnd: byte): (r: Result<Outcome<Engine>>)
    ensures e.context.Exited ==> r == Success(Outcome(e, []))
  {
    if e.context.Exited then Success(Outcome(e, []))
    else
      var c0 := e.context.(Keyboard := keys);
      var cycled :- if now - e.lastCycle >= CyclesRate * NanosPerMilli then Cycle(c0, rnd)
                    else Success(Outcome(c0, []));
      var lastCycle := if now - e.lastCycle >= CyclesRate * NanosPerMilli then now else e.lastCycle;
      var ticked := if now - e.lastTimerTick >= TimersRate * NanosPerMilli then TimerTick(cycled.state)
                    else Outcome(cycled.state, []);
      var lastTimerTick := if now - e.lastTimerTick >= TimersRate * NanosPerMilli then now else e.lastTimerTick;
      Success(Outcome(Engine(ticked.state, lastCycle, lastTimerTick, e.paused),
                      cycled.effects + ticked.effects))
  }

  /** `Update`: a step unless paused. */
  function Update(e: Engine, now: int, keys: KeyboardState, rnd: byte): (r: Result<Outcome<Engine>>)
    ensures e.paused ==> r == Success(Outcome(e, []))
    ensures !e.paused ==> r == Step(e, now, keys, rnd)
  {
    if e.paused then Success(Outcome(e, [])) else Step(e, now, keys, rnd)
  }

  /** The largest image that fits between ProgramStartAddress and the end of
      memory. */
  const MaxProgramSize: nat := MemorySize - ProgramStartAddress

  /** `LoadProgram` given the file's bytes: reset, copy the image to
      ProgramStartAddress and point PC there. A longer image would be copied
      past the end of memory. */
  function LoadProgram(e: Engine, image: seq<byte>): (r: Result<Engine>)
    ensures r.Failure? <==> |image| > MaxProgramSize
    ensures r.Success? ==> r.value.(context := e.context) == e
  {
    if |image| > MaxProgramSize then Failure(MemoryOutOfRange)
    else
      var c := Reset(e.context);
      var m := c.Memory[..ProgramStartAddress] + image + c.Memory[ProgramStartAddress + |image|..];
      Success(e.(context := c.(Memory := m, PC := ProgramStartAddress)))
  }
}
