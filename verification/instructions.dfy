/** The instruction table `SInstruction::InstructionSet`: 43 entries, each a
    16-bit pattern and mask, the handler it dispatches to, the mnemonic and
    formatter used by the disassembler, and a control-flow kind. Decoding
    picks the first entry whose masked opcode equals its pattern. */
module Instructions {
  import opened Constants
  import opened Faults

  /** One entry of the table, named after its handler (`Handler_*`). */
  datatype Op =
    | Cls | Ret | JpAddr | CallAddr | SeVxByte | SneVxByte | SeVxVy | LdVxByte | AddVxByte
    | LdVxVy | OrVxVy | AndVxVy | XorVxVy | AddVxVy | SubVxVy | ShrVx | SubnVxVy | ShlVx
    | SneVxVy | LdIAddr | JpV0Addr | RndVxByte | DrwVxVyN | SkpVx | SknpVx | LdVxDt | LdVxKey
    | LdDtVx | LdStVx | AddIVx | LdFVx | LdBVx | LdMemVx | LdVxMem
    | ScdN | Scr | Scl | Exit | Low | High | LdHfVx | LdRVx | LdVxR

  /** The formatter of an entry (the `ToString_*` functions); the operand
      label a formatter is bound to is part of the value. */
  datatype Format =
    | Name                     // NAME
    | NameNnn                  // NAME nnn
    | NameVxKk                 // NAME Vx, kk
    | NameVxVy                 // NAME Vx, Vy
    | NameVx                   // NAME Vx
    | NameDstNnn(dst: string)  // NAME dst, nnn
    | NameVxVyN                // NAME Vx, Vy, n
    | NameVxSrc(src: string)   // NAME Vx, src
    | NameDstVx(dst: string)   // NAME dst, Vx
    | NameN                    // NAME n

  /** How the disassembler follows control flow after an instruction. */
  datatype Kind = Other | Jump | Branch | Return | Exit

  /** Number of entries in the table. */
  const TableSize: nat := 43

  /** The table, in order: the entry at position i. */
  function EntryAt(i: nat): Op
    requires i < TableSize
  {
    if i == 0 then Cls else
    if i == 1 then Ret else
    if i == 2 then JpAddr else
    if i == 3 then CallAddr else
    if i == 4 then SeVxByte else
    if i == 5 then SneVxByte else
    if i == 6 then SeVxVy else
    if i == 7 then LdVxByte else
    if i == 8 then AddVxByte else
    if i == 9 then LdVxVy else
    if i == 10 then OrVxVy else
    if i == 11 then AndVxVy else
    if i == 12 then XorVxVy else
    if i == 13 then AddVxVy else
    if i == 14 then SubVxVy else
    if i == 15 then ShrVx else
    if i == 16 then SubnVxVy else
    if i == 17 then ShlVx else
    if i == 18 then SneVxVy else
    if i == 19 then LdIAddr else
    if i == 20 then JpV0Addr else
    if i == 21 then RndVxByte else
    if i == 22 then DrwVxVyN else
    if i == 23 then SkpVx else
    if i == 24 then SknpVx else
    if i == 25 then LdVxDt else
    if i == 26 then LdVxKey else
    if i == 27 then LdDtVx else
    if i == 28 then LdStVx else
    if i == 29 then AddIVx else
    if i == 30 then LdFVx else
    if i == 31 then LdBVx else
    if i == 32 then LdMemVx else
    if i == 33 then LdVxMem else
    if i == 34 then ScdN else
    if i == 35 then Scr else
    if i == 36 then Scl else
    if i == 37 then Op.Exit else
    if i == 38 then Low else
    if i == 39 then High else
    if i == 40 then LdHfVx else
    if i == 41 then LdRVx else
    LdVxR
  }

  /** Opcode bits that identify the entry at position i. */
  function PatternAt(i: nat): bv16
    requires i < TableSize
  {
    if i == 0 then 0x00E0 else
    if i == 1 then 0x00EE else
    if i == 2 then 0x1000 else
    if i == 3 then 0x2000 else
    if i == 4 then 0x3000 else
    if i == 5 then 0x4000 else
    if i == 6 then 0x5000 else
    if i == 7 then 0x6000 else
    if i == 8 then 0x7000 else
    if i == 9 then 0x8000 else
    if i == 10 then 0x8001 else
    if i == 11 then 0x8002 else
    if i == 12 then 0x8003 else
    if i == 13 then 0x8004 else
    if i == 14 then 0x8005 else
    if i == 15 then 0x8006 else
    if i == 16 then 0x8007 else
    if i == 17 then 0x800E else
    if i == 18 then 0x9000 else
    if i == 19 then 0xA000 else
    if i == 20 then 0xB000 else
    if i == 21 then 0xC000 else
    if i == 22 then 0xD000 else
    if i == 23 then 0xE09E else
    if i == 24 then 0xE0A1 else
    if i == 25 then 0xF007 else
    if i == 26 then 0xF00A else
    if i == 27 then 0xF015 else
    if i == 28 then 0xF018 else
    if i == 29 then 0xF01E else
    if i == 30 then 0xF029 else
    if i == 31 then 0xF033 else
    if i == 32 then 0xF055 else
    if i == 33 then 0xF065 else
    if i == 34 then 0x00C0 else
    if i == 35 then 0x00FB else
    if i == 36 then 0x00FC else
    if i == 37 then 0x00FD else
    if i == 38 then 0x00FE else
    if i == 39 then 0x00FF else
    if i == 40 then 0xF030 else
    if i == 41 then 0xF075 else
    0xF085
  }

  /** Which opcode bits of the entry at position i are compared with its
      pattern. */
  function MaskAt(i: nat): bv16
    requires i < TableSize
  {
    if i == 0 then 0xF0FF else
    if i == 1 then 0xF0FF else
    if i == 2 then 0xF000 else
    if i == 3 then 0xF000 else
    if i == 4 then 0xF000 else
    if i == 5 then 0xF000 else
    if i == 6 then 0xF00F else
    if i == 7 then 0xF000 else
    if i == 8 then 0xF000 else
    if i == 9 then 0xF00F else
    if i == 10 then 0xF00F else
    if i == 11 then 0xF00F else
    if i == 12 then 0xF00F else
    if i == 13 then 0xF00F else
    if i == 14 then 0xF00F else
    if i == 15 then 0xF00F else
    if i == 16 then 0xF00F else
    if i == 17 then 0xF00F else
    if i == 18 then 0xF00F else
    if i == 19 then 0xF000 else
    if i == 20 then 0xF000 else
    if i == 21 then 0xF000 else
    if i == 22 then 0xF000 else
    if i == 23 then 0xF0FF else
    if i == 24 then 0xF0FF else
    if i == 25 then 0xF0FF else
    if i == 26 then 0xF0FF else
    if i == 27 then 0xF0FF else
    if i == 28 then 0xF0FF else
    if i == 29 then 0xF0FF else
    if i == 30 then 0xF0FF else
    if i == 31 then 0xF0FF else
    if i == 32 then 0xF0FF else
    if i == 33 then 0xF0FF else
    if i == 34 then 0xFFF0 else
    if i == 35 then 0xFFFF else
    if i == 36 then 0xFFFF else
    if i == 37 then 0xFFFF else
    if i == 38 then 0xFFFF else
    if i == 39 then 0xFFFF else
    if i == 40 then 0xF0FF else
    if i == 41 then 0xF0FF else
    0xF0FF
  }

  /** The mnemonic printed by the disassembler. */
  function Mnemonic(op: Op): string {
    match op
    case Cls          => "CLS"
    case Ret          => "RET"
    case JpAddr       => "JP"
    case CallAddr     => "CALL"
    case SeVxByte     => "SE"
    case SneVxByte    => "SNE"
    case SeVxVy       => "SE"
    case LdVxByte     => "LD"
    case AddVxByte    => "ADD"
    case LdVxVy       => "LD"
    case OrVxVy       => "OR"
    case AndVxVy      => "AND"
    case XorVxVy      => "XOR"
    case AddVxVy      => "ADD"
    case SubVxVy      => "SUB"
    case ShrVx        => "SHR"
    case SubnVxVy     => "SUBN"
    case ShlVx        => "SHL"
    case SneVxVy      => "SNE"
    case LdIAddr      => "LD"
    case JpV0Addr     => "JP"
    case RndVxByte    => "RND"
    case DrwVxVyN     => "DRW"
    case SkpVx        => "SKP"
    case SknpVx       => "SKNP"
    case LdVxDt       => "LD"
    case LdVxKey      => "LD"
    case LdDtVx       => "LD"
    case LdStVx       => "LD"
    case AddIVx       => "ADD"
    case LdFVx        => "LD"
    case LdBVx        => "LD"
    case LdMemVx      => "LD"
    case LdVxMem      => "LD"
    case ScdN         => "SCD"
    case Scr          => "SCR"
    case Scl          => "SCL"
    case Exit         => "EXIT"
    case Low          => "LOW"
    case High         => "HIGH"
    case LdHfVx       => "LD"
    case LdRVx        => "LD"
    case LdVxR        => "LD"
  }

  /** The formatter of the entry. */
  function FormatOf(op: Op): Format {
    match op
    case Cls          => Name
    case Ret          => Name
    case JpAddr       => NameNnn
    case CallAddr     => NameNnn
    case SeVxByte     => NameVxKk
    case SneVxByte    => NameVxKk
    case SeVxVy       => NameVxVy
    case LdVxByte     => NameVxKk
    case AddVxByte    => NameVxKk
    case LdVxVy       => NameVxVy
    case OrVxVy       => NameVxVy
    case AndVxVy      => NameVxVy
    case XorVxVy      => NameVxVy
    case AddVxVy      => NameVxVy
    case SubVxVy      => NameVxVy
    case ShrVx        => NameVx
    case SubnVxVy     => NameVxVy
    case ShlVx        => NameVx
    case SneVxVy      => NameVxVy
    case LdIAddr      => NameDstNnn("I")
    case JpV0Addr     => NameDstNnn("V0")
    case RndVxByte    => NameVxKk
    case DrwVxVyN     => NameVxVyN
    case SkpVx        => NameVx
    case SknpVx       => NameVx
    case LdVxDt       => NameVxSrc("DT")
    case LdVxKey      => NameVxSrc("K")
    case LdDtVx       => NameDstVx("DT")
    case LdStVx       => NameDstVx("ST")
    case AddIVx       => NameDstVx("I")
    case LdFVx        => NameDstVx("F")
    case LdBVx        => NameDstVx("B")
    case LdMemVx      => NameDstVx("[I]")
    case LdVxMem      => NameVxSrc("[I]")
    case ScdN         => NameN
    case Scr          => Name
    case Scl          => Name
    case Exit         => Name
    case Low          => Name
    case High         => Name
    case LdHfVx       => NameDstVx("HF")
    case LdRVx        => NameDstVx("R")
    case LdVxR        => NameVxSrc("R")
  }

  /** Control-flow kind: jumps never fall through, branches (calls and
      skips) may, RET and EXIT end a path. */
  function KindOf(op: Op): Kind {
    match op
    case JpAddr | JpV0Addr => Jump
    case CallAddr | SeVxByte | SneVxByte | SeVxVy | SneVxVy | SkpVx | SknpVx => Branch
    case Ret => Return
    case Exit => Kind.Exit
    case _ => Other
  }

  /** The opcode matches the entry at position i: `(opcode & mask) == pattern`. */
  predicate Matches(i: nat, opcode: word)
    requires i < TableSize
  {
    (opcode as bv16) & MaskAt(i) == PatternAt(i)
  }

  /** Position of the first entry at or after `from` that matches. */
  function FindFrom(opcode: word, from: nat): (r: Option<nat>)
    requires from <= TableSize
    ensures r.Some? ==>
              && from <= r.value < TableSize && Matches(r.value, opcode)
              && forall j :: from <= j < r.value ==> !Matches(j, opcode)
    ensures r.None? <==> forall j :: from <= j < TableSize ==> !Matches(j, opcode)
    decreases TableSize - from
  {
    if from == TableSize then None
    else if Matches(from, opcode) then Some(from)
    else FindFrom(opcode, from + 1)
  }

  /** `TryFindInstruction`: the position of the first matching entry. */
  function Decode(opcode: word): (r: Option<nat>)
    ensures r.Some? ==>
              && r.value < TableSize && Matches(r.value, opcode)
              && forall j :: 0 <= j < r.value ==> !Matches(j, opcode)
    ensures r.None? <==> forall j :: 0 <= j < TableSize ==> !Matches(j, opcode)
  {
    FindFrom(opcode, 0)
  }

  /** Every pattern keeps its value under its own mask. */
  lemma PatternsUnderMasks()
    ensures forall i :: 0 <= i < TableSize ==> PatternAt(i) & MaskAt(i) == PatternAt(i)
  {
  }

  /** No entry matches the pattern of an entry further down the table. */
  lemma NotShadowed()
    ensures forall i, j :: 0 <= j < i < TableSize ==> PatternAt(i) & MaskAt(j) != PatternAt(j)
  {
  }

  /** The first-match rule: an opcode matched by entry i and by no entry
      before it decodes to i. */
  lemma DecodeFirstMatch(opcode: word, i: nat)
    requires i < TableSize && Matches(i, opcode)
    requires forall j :: 0 <= j < i ==> !Matches(j, opcode)
    ensures Decode(opcode) == Some(i)
  {
  }

  /** Entry i matches its own pattern and no earlier entry does. */
  lemma OwnPatternFirst(i: nat, p: word)
    requires i < TableSize && p as bv16 == PatternAt(i)
    ensures Matches(i, p)
    ensures forall j :: 0 <= j < i ==> !Matches(j, p)
  {
    PatternsUnderMasks();
    NotShadowed();
  }

  /** Decoding an entry's own pattern yields that entry: the first-match
      rule never hides an entry behind an earlier one. */
  lemma DecodeOwnPattern(i: nat)
    requires i < TableSize
    ensures Decode(PatternAt(i) as word) == Some(i)
  {
    OwnPatternFirst(i, PatternAt(i) as word);
    DecodeFirstMatch(PatternAt(i) as word, i);
  }
}
