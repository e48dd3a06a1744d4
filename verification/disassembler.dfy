/** `CDisassembler`: a static walk over the program's control flow from a
    start address, one line per instruction reached, sorted by address. */
module Disassembler {
  import opened Constants
  import opened Faults
  import opened Context
  import opened Instructions
  import Interpreter
  import Formatting

  /** `SDisassemblyLine`. */
  datatype Line = Line(address: nat, opcode: word, source: string)

  function Addresses(lines: seq<Line>): set<nat> {
    set l | l in lines :: l.address
  }

  /** Addresses not yet disassembled whose instruction lies inside memory:
      each step of the walk removes one, which bounds the recursion. */
  function Unvisited(lines: seq<Line>): set<nat> {
    set a: nat | a < MemorySize && a !in Addresses(lines)
  }

  /** `later` was obtained from `earlier` by appending lines. */
  predicate Extends(later: seq<Line>, earlier: seq<Line>) {
    |earlier| <= |later| && later[..|earlier|] == earlier
  }

  /** The instruction word at `addr`, when both bytes are in memory. */
  function WordAt(mem: Memory, addr: nat): (w: word)
    requires addr + 1 < MemorySize
    ensures w / 0x100 == mem[addr] && w % 0x100 == mem[addr + 1]
  {
    Interpreter.Fetch(mem, addr).value
  }

  /** Where control may go after the instruction `op` at `addr`, in the
      order the walk explores it: a `JP nnn` goes to nnn only, `JP V0, nnn`
      has no static target, a CALL goes to nnn and then on, a skip to the
      instruction after next and then on, RET and EXIT go nowhere, anything
      else goes on. */
  function Successors(op: Op, addr: nat, opcode: word): seq<nat> {
    match KindOf(op)
    case Other => [addr + 2]
    case Jump => if op == JpAddr then [OpNNN(opcode)] else []
    case Branch => if op == CallAddr then [OpNNN(opcode), addr + 2] else [addr + 4, addr + 2]
    case Return => []
    case Exit => []
  }

  function LineSuccessors(line: Line): seq<nat> {
    match Decode(line.opcode)
    case None => []
    case Some(i) => Successors(EntryAt(i), line.address, line.opcode)
  }

  /** The walk has nothing to add at `addr`: already listed, past the end of
      memory, or no table entry matches the word there. */
  predicate Covered(mem: Memory, addr: nat, lines: seq<Line>) {
    || addr in Addresses(lines)
    || addr + 1 >= MemorySize
    || Decode(WordAt(mem, addr)).None?
  }

  /** A line is what the walk writes for its address. */
  predicate Decoded(mem: Memory, line: Line) {
    && line.address + 1 < MemorySize
    && line.opcode == WordAt(mem, line.address)
    && Decode(line.opcode).Some?
    && Formatting.ToString(EntryAt(Decode(line.opcode).value), line.opcode) == Success(line.source)
  }

  predicate Distinct(lines: seq<Line>) {
    forall i, j :: 0 <= i < j < |lines| ==> lines[i].address != lines[j].address
  }

  lemma ExtendsAddresses(later: seq<Line>, earlier: seq<Line>)
    requires Extends(later, earlier)
    ensures Addresses(earlier) <= Addresses(later)
  {
    forall a | a in Addresses(earlier)
      ensures a in Addresses(later)
    {
      var l :| l in earlier && l.address == a;
      var k :| 0 <= k < |earlier| && earlier[k] == l;
      assert later[k] == l;
    }
  }

  lemma ExtendsTransitive(a: seq<Line>, b: seq<Line>, c: seq<Line>)
    requires Extends(b, a) && Extends(c, b)
    ensures Extends(c, a)
  {
    assert c[..|a|] == c[..|b|][..|a|];
  }

  /** Listing a new address makes the unvisited set strictly smaller. */
  lemma VisitShrinks(dest: seq<Line>, line: Line, later: seq<Line>)
    requires line.address < MemorySize && line.address !in Addresses(dest)
    requires Extends(later, dest + [line])
    ensures Unvisited(later) < Unvisited(dest)
    ensures line.address in Addresses(later) && Extends(later, dest)
  {
    var next := dest + [line];
    ExtendsTransitive(dest, next, later);
    ExtendsAddresses(later, next);
    ExtendsAddresses(next, dest);
    assert line in next;
    assert line.address in Addresses(later);
    assert line.address in Unvisited(dest);
  }

  lemma CoveredGrows(mem: Memory, addr: nat, earlier: seq<Line>, later: seq<Line>)
    requires Extends(later, earlier) && Covered(mem, addr, earlier)
    ensures Covered(mem, addr, later)
  {
    ExtendsAddresses(later, earlier);
  }

  /** The private `Disassemble(addr, mem, dest)`: the lines appended to
      `dest` when the walk reaches `addr`. A formatter that cannot render
      its instruction aborts the whole walk. After listing the line, the
      walk explores the instruction's successors in order. */
  function Explore(mem: Memory, addr: nat, dest: seq<Line>): (r: Result<seq<Line>>)
    ensures r.Success? ==> Extends(r.value, dest) && Covered(mem, addr, r.value)
    ensures r.Failure? ==> r.error == NotImplemented
    decreases Unvisited(dest), 0, 0
  {
    if addr in Addresses(dest) || addr + 1 >= MemorySize then Success(dest)
    else
      var opcode := WordAt(mem, addr);
      match Decode(opcode)
      case None => Success(dest)
      case Some(i) =>
        var op := EntryAt(i);
        var source :- Formatting.ToString(op, opcode);
        var line := Line(addr, opcode, source);
        var next := dest + [line];
        VisitShrinks(dest, line, next);
        var done :- ExploreEach(mem, Successors(op, addr, opcode), next);
        VisitShrinks(dest, line, done);
        Success(done)
  }

  /** Explores each target in turn, each one seeing the lines the previous
      ones appended. */
  function ExploreEach(mem: Memory, targets: seq<nat>, dest: seq<Line>): (r: Result<seq<Line>>)
    ensures r.Success? ==> Extends(r.value, dest)
    ensures r.Success? ==> forall a :: a in targets ==> Covered(mem, a, r.value)
    ensures r.Failure? ==> r.error == NotImplemented
    decreases Unvisited(dest), 1, |targets|
  {
    if targets == [] then Success(dest)
    else
      var first :- Explore(mem, targets[0], dest);
      ExtendsAddresses(first, dest);
      var done :- ExploreEach(mem, targets[1..], first);
      ExtendsTransitive(dest, first, done);
      CoveredGrows(mem, targets[0], first, done);
      Success(done)
  }

  lemma EachSingle(mem: Memory, t: nat, dest: seq<Line>)
    ensures ExploreEach(mem, [t], dest) == Explore(mem, t, dest)
  {
    assert [t][1..] == [];
  }

  lemma EachPair(mem: Memory, t: nat, u: nat, dest: seq<Line>)
    ensures var first := Explore(mem, t, dest);
      ExploreEach(mem, [t, u], dest)
         == if first.Failure? then Failure(first.error) else Explore(mem, u, first.value)
  {
    assert [t, u][1..] == [u];
    if Explore(mem, t, dest).Success? {
      EachSingle(mem, u, Explore(mem, t, dest).value);
    }
  }

  /** The line the walk lists for a fresh, in-range, decodable address. */
  function LineAt(mem: Memory, addr: nat): (l: Line)
    requires addr + 1 < MemorySize && Decode(WordAt(mem, addr)).Some?
    requires Formatting.ToString(EntryAt(Decode(WordAt(mem, addr)).value), WordAt(mem, addr)).Success?
    ensures l.address == addr && l.opcode == WordAt(mem, addr)
  {
    var opcode := WordAt(mem, addr);
    Line(addr, opcode, Formatting.ToString(EntryAt(Decode(opcode).value), opcode).value)
  }

  /** The instruction at a fresh, in-range address decodes to `op`. */
  predicate FreshAt(mem: Memory, addr: nat, dest: seq<Line>, op: Op) {
    && addr !in Addresses(dest) && addr + 1 < MemorySize
    && Decode(WordAt(mem, addr)).Some? && EntryAt(Decode(WordAt(mem, addr)).value) == op
  }

  /** An address already listed, past memory, or holding no known
      instruction adds nothing. */
  lemma ExploreStops(mem: Memory, addr: nat, dest: seq<Line>)
    requires Covered(mem, addr, dest)
    ensures Explore(mem, addr, dest) == Success(dest)
  {
  }

  /** SCD has no disassembly text: reaching it aborts the walk. */
  lemma ExploreScdFails(mem: Memory, addr: nat, dest: seq<Line>)
    requires FreshAt(mem, addr, dest, ScdN)
    ensures Explore(mem, addr, dest) == Failure(NotImplemented)
  {
  }

  lemma SuccessorsByKind(op: Op, addr: nat, opcode: word)
    ensures KindOf(op) == Other ==> Successors(op, addr, opcode) == [addr + 2]
    ensures op == JpAddr ==> Successors(op, addr, opcode) == [OpNNN(opcode)]
    ensures op == JpV0Addr || op == Ret || op == Op.Exit ==> Successors(op, addr, opcode) == []
    ensures KindOf(op) == Branch ==>
      Successors(op, addr, opcode) == [if op == CallAddr then OpNNN(opcode) else addr + 4, addr + 2]
  {
  }

  /** Past the checks, the walk lists the line and explores the successors. */
  lemma ExploreIsEach(mem: Memory, addr: nat, dest: seq<Line>, op: Op)
    requires FreshAt(mem, addr, dest, op) && op != ScdN
    ensures Formatting.ToString(op, WordAt(mem, addr)).Success?
    ensures Explore(mem, addr, dest)
         == ExploreEach(mem, Successors(op, addr, WordAt(mem, addr)), dest + [LineAt(mem, addr)])
  {
  }

  /** Any other instruction that is not a jump, call, skip, RET or EXIT is
      listed and the walk goes on with the next instruction. */
  lemma ExploreFallsThrough(mem: Memory, addr: nat, dest: seq<Line>, op: Op)
    requires FreshAt(mem, addr, dest, op) && KindOf(op) == Other && op != ScdN
    ensures Explore(mem, addr, dest) == Explore(mem, addr + 2, dest + [LineAt(mem, addr)])
  {
    ExploreIsEach(mem, addr, dest, op);
    SuccessorsByKind(op, addr, WordAt(mem, addr));
    EachSingle(mem, addr + 2, dest + [LineAt(mem, addr)]);
  }

  /** `JP nnn` is listed and the walk continues at nnn only. */
  lemma ExploreJump(mem: Memory, addr: nat, dest: seq<Line>)
    requires FreshAt(mem, addr, dest, JpAddr)
    ensures Explore(mem, addr, dest) == Explore(mem, OpNNN(WordAt(mem, addr)), dest + [LineAt(mem, addr)])
  {
    ExploreIsEach(mem, addr, dest, JpAddr);
    SuccessorsByKind(JpAddr, addr, WordAt(mem, addr));
    EachSingle(mem, OpNNN(WordAt(mem, addr)), dest + [LineAt(mem, addr)]);
  }

  /** `JP V0, nnn`, RET and EXIT are listed and end the path. */
  lemma ExploreEndsPath(mem: Memory, addr: nat, dest: seq<Line>, op: Op)
    requires FreshAt(mem, addr, dest, op) && (op == JpV0Addr || op == Ret || op == Op.Exit)
    ensures Explore(mem, addr, dest) == Success(dest + [LineAt(mem, addr)])
  {
    var none: seq<nat> := [];
    SuccessorsByKind(op, addr, WordAt(mem, addr));
    assert ExploreEach(mem, none, dest + [LineAt(mem, addr)]) == Success(dest + [LineAt(mem, addr)]);
    ExploreIsEach(mem, addr, dest, op);
  }

  /** CALL explores its target, then the next instruction; a skip explores
      the instruction after next, then the next one. */
  lemma ExploreBranch(mem: Memory, addr: nat, dest: seq<Line>, op: Op)
    requires FreshAt(mem, addr, dest, op) && KindOf(op) == Branch
    ensures var target := if op == CallAddr then OpNNN(WordAt(mem, addr)) else addr + 4;
      var first := Explore(mem, target, dest + [LineAt(mem, addr)]);
      Explore(mem, addr, dest)
         == if first.Failure? then Failure(first.error) else Explore(mem, addr + 2, first.value)
  {
    var target := if op == CallAddr then OpNNN(WordAt(mem, addr)) else addr + 4;
    var next := dest + [LineAt(mem, addr)];
    assert Explore(mem, addr, dest) == ExploreEach(mem, [target, addr + 2], next) by {
      ExploreIsEach(mem, addr, dest, op);
      SuccessorsByKind(op, addr, WordAt(mem, addr));
    }
    EachPair(mem, target, addr + 2, next);
  }

  lemma ExtendsKeeps(later: seq<Line>, earlier: seq<Line>)
    requires Extends(later, earlier)
    ensures forall j :: 0 <= j < |earlier| ==> later[j] == earlier[j]
  {
    forall j | 0 <= j < |earlier|
      ensures later[j] == earlier[j]
    {
      assert later[..|earlier|][j] == later[j];
    }
  }

  /** What the walk lists for `addr` once it gets past the checks. */
  lemma ExploreUnfolds(mem: Memory, addr: nat, dest: seq<Line>)
    requires addr !in Addresses(dest) && addr + 1 < MemorySize && Decode(WordAt(mem, addr)).Some?
    requires Explore(mem, addr, dest).Success?
    ensures var opcode := WordAt(mem, addr);
      var op := EntryAt(Decode(opcode).value);
      && Formatting.ToString(op, opcode).Success?
      && var line := LineAt(mem, addr);
      && ExploreEach(mem, Successors(op, addr, opcode), dest + [line]) == Explore(mem, addr, dest)
      && LineSuccessors(line) == Successors(op, addr, opcode)
      && Unvisited(dest + [line]) < Unvisited(dest)
  {
    var opcode := WordAt(mem, addr);
    var op := EntryAt(Decode(opcode).value);
    var line := LineAt(mem, addr);
    VisitShrinks(dest, line, dest + [line]);
  }

  // Distinct addresses

  lemma AppendDistinct(dest: seq<Line>, line: Line)
    requires Distinct(dest) && line.address !in Addresses(dest)
    ensures Distinct(dest + [line])
  {
    var next := dest + [line];
    forall i, j | 0 <= i < j < |next|
      ensures next[i].address != next[j].address
    {
      if j == |dest| {
        assert next[i] in dest;
      }
    }
  }

  /** An address already listed is never listed again. */
  lemma {:induction false} ExploreDistinct(mem: Memory, addr: nat, dest: seq<Line>)
    requires Distinct(dest) && Explore(mem, addr, dest).Success?
    ensures Distinct(Explore(mem, addr, dest).value)
    decreases Unvisited(dest), 0, 0
  {
    if !Covered(mem, addr, dest) {
      var opcode := WordAt(mem, addr);
      var op := EntryAt(Decode(opcode).value);
      ExploreUnfolds(mem, addr, dest);
      AppendDistinct(dest, LineAt(mem, addr));
      EachDistinct(mem, Successors(op, addr, opcode), dest + [LineAt(mem, addr)]);
    }
  }

  lemma {:induction false} EachDistinct(mem: Memory, targets: seq<nat>, dest: seq<Line>)
    requires Distinct(dest) && ExploreEach(mem, targets, dest).Success?
    ensures Distinct(ExploreEach(mem, targets, dest).value)
    decreases Unvisited(dest), 1, |targets|
  {
    if targets != [] {
      ExploreDistinct(mem, targets[0], dest);
      var first := Explore(mem, targets[0], dest).value;
      ExtendsAddresses(first, dest);
      EachDistinct(mem, targets[1..], first);
    }
  }

  // Decoded lines

  /** The lines from position `from` on are what the walk writes. */
  predicate DecodedFrom(mem: Memory, lines: seq<Line>, from: nat) {
    forall j :: from <= j < |lines| ==> Decoded(mem, lines[j])
  }

  lemma DecodedJoin(mem: Memory, earlier: seq<Line>, later: seq<Line>, from: nat)
    requires Extends(later, earlier)
    requires DecodedFrom(mem, earlier, from) && DecodedFrom(mem, later, |earlier|)
    ensures DecodedFrom(mem, later, from)
  {
    ExtendsKeeps(later, earlier);
  }

  /** Every line the walk appends holds the big-endian word at its address,
      that word decodes, and the text is its entry's rendering. */
  lemma {:induction false} ExploreDecoded(mem: Memory, addr: nat, dest: seq<Line>)
    requires Explore(mem, addr, dest).Success?
    ensures DecodedFrom(mem, Explore(mem, addr, dest).value, |dest|)
    decreases Unvisited(dest), 0, 0
  {
    if !Covered(mem, addr, dest) {
      var opcode := WordAt(mem, addr);
      var op := EntryAt(Decode(opcode).value);
      var next := dest + [LineAt(mem, addr)];
      ExploreUnfolds(mem, addr, dest);
      assert DecodedFrom(mem, next, |dest|) by {
        assert Decoded(mem, LineAt(mem, addr));
      }
      EachDecoded(mem, Successors(op, addr, opcode), next);
      DecodedJoin(mem, next, Explore(mem, addr, dest).value, |dest|);
    }
  }

  lemma {:induction false} EachDecoded(mem: Memory, targets: seq<nat>, dest: seq<Line>)
    requires ExploreEach(mem, targets, dest).Success?
    ensures DecodedFrom(mem, ExploreEach(mem, targets, dest).value, |dest|)
    decreases Unvisited(dest), 1, |targets|
  {
    if targets != [] {
      ExploreDecoded(mem, targets[0], dest);
      var first := Explore(mem, targets[0], dest).value;
      ExtendsAddresses(first, dest);
      EachDecoded(mem, targets[1..], first);
      DecodedJoin(mem, first, ExploreEach(mem, targets, dest).value, |dest|);
    }
  }

  // Closure under control flow

  /** Every place control may go after a line from position `from` on is
      covered by `lines`. */
  predicate ClosedFrom(mem: Memory, lines: seq<Line>, from: nat) {
    forall j, a :: from <= j < |lines| && a in LineSuccessors(lines[j]) ==> Covered(mem, a, lines)
  }

  lemma ClosedJoin(mem: Memory, earlier: seq<Line>, later: seq<Line>, from: nat)
    requires Extends(later, earlier)
    requires ClosedFrom(mem, earlier, from) && ClosedFrom(mem, later, |earlier|)
    ensures ClosedFrom(mem, later, from)
  {
    ExtendsKeeps(later, earlier);
    forall j, a | from <= j < |later| && a in LineSuccessors(later[j])
      ensures Covered(mem, a, later)
    {
      if j < |earlier| {
        assert a in LineSuccessors(earlier[j]);
        CoveredGrows(mem, a, earlier, later);
      }
    }
  }

  lemma ClosedCons(mem: Memory, lines: seq<Line>, at: nat)
    requires at < |lines| && ClosedFrom(mem, lines, at + 1)
    requires forall a :: a in LineSuccessors(lines[at]) ==> Covered(mem, a, lines)
    ensures ClosedFrom(mem, lines, at)
  {
  }

  /** The walk leaves no successor of a line it appends unexplored. */
  lemma {:induction false} ExploreClosed(mem: Memory, addr: nat, dest: seq<Line>)
    requires Explore(mem, addr, dest).Success?
    ensures ClosedFrom(mem, Explore(mem, addr, dest).value, |dest|)
    decreases Unvisited(dest), 0, 0
  {
    if !Covered(mem, addr, dest) {
      var opcode := WordAt(mem, addr);
      var op := EntryAt(Decode(opcode).value);
      var line := LineAt(mem, addr);
      var next := dest + [line];
      var r := Explore(mem, addr, dest).value;
      ExploreUnfolds(mem, addr, dest);
      EachClosed(mem, Successors(op, addr, opcode), next);
      assert r[|dest|] == line by { ExtendsKeeps(r, next); }
      ClosedCons(mem, r, |dest|);
    }
  }

  lemma {:induction false} EachClosed(mem: Memory, targets: seq<nat>, dest: seq<Line>)
    requires ExploreEach(mem, targets, dest).Success?
    ensures ClosedFrom(mem, ExploreEach(mem, targets, dest).value, |dest|)
    decreases Unvisited(dest), 1, |targets|
  {
    if targets != [] {
      ExploreClosed(mem, targets[0], dest);
      var first := Explore(mem, targets[0], dest).value;
      ExtendsAddresses(first, dest);
      EachClosed(mem, targets[1..], first);
      ClosedJoin(mem, first, ExploreEach(mem, targets, dest).value, |dest|);
    }
  }

  // Reachability

  /** Line `j` is a successor of some line in positions `lo` to `j - 1`. */
  predicate FromEarlier(lines: seq<Line>, lo: nat, j: nat)
    requires j < |lines|
  {
    exists k :: lo <= k < j && lines[j].address in LineSuccessors(lines[k])
  }

  /** Each line from position `lo` on is at one of `starts` or is a
      successor of a line listed before it. */
  predicate ReachedFrom(lines: seq<Line>, lo: nat, starts: seq<nat>) {
    forall j :: lo <= j < |lines| ==> lines[j].address in starts || FromEarlier(lines, lo, j)
  }

  lemma ReachedCons(lines: seq<Line>, at: nat)
    requires at < |lines| && ReachedFrom(lines, at + 1, LineSuccessors(lines[at]))
    ensures ReachedFrom(lines, at, [lines[at].address])
  {
    forall j | at < j < |lines|
      ensures FromEarlier(lines, at, j)
    {
      if lines[j].address !in LineSuccessors(lines[at]) {
        var k :| at + 1 <= k < j && lines[j].address in LineSuccessors(lines[k]);
      }
    }
  }

  lemma ReachedJoin(earlier: seq<Line>, later: seq<Line>, lo: nat, targets: seq<nat>)
    requires Extends(later, earlier) && lo <= |earlier| && targets != []
    requires ReachedFrom(earlier, lo, [targets[0]]) && ReachedFrom(later, |earlier|, targets[1..])
    ensures ReachedFrom(later, lo, targets)
  {
    var rest := targets[1..];
    assert targets == [targets[0]] + rest;
    ExtendsKeeps(later, earlier);
    forall j | lo <= j < |later| && later[j].address !in targets
      ensures FromEarlier(later, lo, j)
    {
      if j < |earlier| {
        assert earlier[j].address !in [targets[0]];
        var k :| lo <= k < j && earlier[j].address in LineSuccessors(earlier[k]);
        assert later[j].address in LineSuccessors(later[k]);
      } else {
        assert later[j].address !in rest;
        var k :| |earlier| <= k < j && later[j].address in LineSuccessors(later[k]);
      }
    }
  }

  /** Every line the walk appends is at its start address or is a successor
      of a line appended before it: nothing unreachable is listed. */
  lemma {:induction false} ExploreReached(mem: Memory, addr: nat, dest: seq<Line>)
    requires Explore(mem, addr, dest).Success?
    ensures ReachedFrom(Explore(mem, addr, dest).value, |dest|, [addr])
    decreases Unvisited(dest), 0, 0
  {
    if !Covered(mem, addr, dest) {
      var opcode := WordAt(mem, addr);
      var op := EntryAt(Decode(opcode).value);
      var line := LineAt(mem, addr);
      var next := dest + [line];
      var r := Explore(mem, addr, dest).value;
      ExploreUnfolds(mem, addr, dest);
      EachReached(mem, Successors(op, addr, opcode), next);
      assert r[|dest|] == line by { ExtendsKeeps(r, next); }
      ReachedCons(r, |dest|);
    }
  }

  lemma {:induction false} EachReached(mem: Memory, targets: seq<nat>, dest: seq<Line>)
    requires ExploreEach(mem, targets, dest).Success?
    ensures ReachedFrom(ExploreEach(mem, targets, dest).value, |dest|, targets)
    decreases Unvisited(dest), 1, |targets|
  {
    if targets != [] {
      ExploreReached(mem, targets[0], dest);
      var first := Explore(mem, targets[0], dest).value;
      ExtendsAddresses(first, dest);
      EachReached(mem, targets[1..], first);
      ReachedJoin(first, ExploreEach(mem, targets, dest).value, |dest|, targets);
    }
  }

  // Sorting by address

  predicate Sorted(lines: seq<Line>) {
    forall i, j :: 0 <= i < j < |lines| ==> lines[i].address <= lines[j].address
  }

  predicate StrictlySorted(lines: seq<Line>) {
    forall i, j :: 0 <= i < j < |lines| ==> lines[i].address < lines[j].address
  }

  /** Puts `l` before the first line with a larger address. */
  function Insert(l: Line, lines: seq<Line>): (r: seq<Line>)
    requires Sorted(lines)
    ensures Sorted(r) && multiset(r) == multiset(lines) + multiset{l}
    ensures |r| == |lines| + 1
    ensures r[0] == l || (lines != [] && r[0] == lines[0])
  {
    if lines == [] || l.address <= lines[0].address then [l] + lines
    else
      var rest := Insert(l, lines[1..]);
      assert lines == [lines[0]] + lines[1..];
      [lines[0]] + rest
  }

  /** The `std::sort` by ascending address. The source does not fix the
      algorithm; since the walk never lists an address twice, any sort gives
      the same result (see `SortedUnique`). */
  function SortByAddress(lines: seq<Line>): (r: seq<Line>)
    ensures Sorted(r) && multiset(r) == multiset(lines)
  {
    if lines == [] then []
    else
      assert lines == [lines[0]] + lines[1..];
      Insert(lines[0], SortByAddress(lines[1..]))
  }

  lemma MultisetAddresses(a: seq<Line>, b: seq<Line>)
    requires multiset(a) == multiset(b)
    ensures Addresses(a) == Addresses(b)
  {
    forall x | x in Addresses(a)
      ensures x in Addresses(b)
    {
      var l :| l in a && l.address == x;
      assert l in multiset(b);
    }
    forall x | x in Addresses(b)
      ensures x in Addresses(a)
    {
      var l :| l in b && l.address == x;
      assert l in multiset(a);
    }
  }

  lemma InsertMembers(l: Line, lines: seq<Line>)
    requires Sorted(lines)
    ensures forall x :: x in Insert(l, lines) ==> x == l || x in lines
  {
    var r := Insert(l, lines);
    forall x | x in r
      ensures x == l || x in lines
    {
      assert x in multiset(r);
    }
  }

  lemma ConsStrict(x: Line, lines: seq<Line>)
    requires StrictlySorted(lines)
    requires forall k :: 0 <= k < |lines| ==> x.address < lines[k].address
    ensures StrictlySorted([x] + lines)
  {
  }

  lemma TailAddresses(lines: seq<Line>)
    requires lines != []
    ensures Addresses(lines[1..]) <= Addresses(lines)
    ensures StrictlySorted(lines) ==> StrictlySorted(lines[1..])
  {
    forall x | x in lines[1..]
      ensures x in lines
    {
    }
  }

  lemma {:induction false} InsertStrict(l: Line, lines: seq<Line>)
    requires StrictlySorted(lines) && l.address !in Addresses(lines)
    ensures StrictlySorted(Insert(l, lines))
  {
    if lines == [] {
    } else if l.address <= lines[0].address {
      assert lines[0] in lines;
      ConsStrict(l, lines);
    } else {
      var tail := lines[1..];
      var rest := Insert(l, tail);
      TailAddresses(lines);
      InsertStrict(l, tail);
      InsertMembers(l, tail);
      forall k | 0 <= k < |rest|
        ensures lines[0].address < rest[k].address
      {
        assert rest[k] in rest;
        if rest[k] != l {
          var p :| 0 <= p < |tail| && tail[p] == rest[k];
          assert lines[p + 1] == rest[k];
        }
      }
      ConsStrict(lines[0], rest);
      assert Insert(l, lines) == [lines[0]] + rest;
    }
  }

  /** Sorting a listing without repeated addresses orders it strictly. */
  lemma {:induction false} SortStrict(lines: seq<Line>)
    requires Distinct(lines)
    ensures StrictlySorted(SortByAddress(lines))
  {
    if lines != [] {
      var tail := lines[1..];
      assert Distinct(tail);
      SortStrict(tail);
      MultisetAddresses(SortByAddress(tail), tail);
      assert lines[0].address !in Addresses(tail);
      InsertStrict(lines[0], SortByAddress(tail));
    }
  }

  lemma MultisetTail(s: seq<Line>)
    requires s != []
    ensures multiset(s[1..]) == multiset(s) - multiset{s[0]}
  {
    assert s == [s[0]] + s[1..];
  }

  /** The first line of a strictly ordered listing is the one with the
      least address. */
  lemma LeastFirst(a: seq<Line>, l: Line)
    requires StrictlySorted(a) && l in a
    ensures a[0].address <= l.address && (l.address == a[0].address ==> l == a[0])
  {
    var p :| 0 <= p < |a| && a[p] == l;
    assert p == 0 || a[0].address < a[p].address;
  }

  lemma HeadsAgree(a: seq<Line>, b: seq<Line>)
    requires StrictlySorted(a) && StrictlySorted(b) && multiset(a) == multiset(b) && a != []
    ensures b != [] && a[0] == b[0]
  {
    assert a[0] in multiset(b);
    assert b[0] in multiset(a);
    LeastFirst(a, b[0]);
    LeastFirst(b, a[0]);
  }

  lemma TailsAgree(a: seq<Line>, b: seq<Line>)
    requires a != [] && b != [] && a[0] == b[0] && multiset(a) == multiset(b)
    ensures multiset(a[1..]) == multiset(b[1..])
  {
    MultisetTail(a);
    MultisetTail(b);
  }

  lemma SameHeadAndTail(a: seq<Line>, b: seq<Line>)
    requires a != [] && b != [] && a[0] == b[0] && a[1..] == b[1..]
    ensures a == b
  {
    assert a == [a[0]] + a[1..] && b == [b[0]] + b[1..];
  }

  /** Two strictly ordered listings with the same lines are equal: the
      result of the sort does not depend on how it is done. */
  lemma {:induction false} SortedUnique(a: seq<Line>, b: seq<Line>)
    requires StrictlySorted(a) && StrictlySorted(b) && multiset(a) == multiset(b)
    ensures a == b
  {
    if a == [] {
      assert |multiset(b)| == 0;
    } else {
      HeadsAgree(a, b);
      TailsAgree(a, b);
      TailAddresses(a);
      TailAddresses(b);
      SortedUnique(a[1..], b[1..]);
      SameHeadAndTail(a, b);
    }
  }

  // The public entry point

  /** `CDisassembler::Disassemble(startAddress, memory)`: walk from the start
      address, then sort the lines by address. */
  function Disassemble(start: nat, mem: Memory): (r: Result<seq<Line>>)
    ensures r.Failure? ==> r.error == NotImplemented
  {
    var walk :- Explore(mem, start, []);
    Success(SortByAddress(walk))
  }

  /** The listing is the walk's lines in strictly increasing address order,
      so no address appears twice. */
  lemma DisassembleOrdered(start: nat, mem: Memory)
    requires Disassemble(start, mem).Success?
    ensures var lines := Disassemble(start, mem).value;
      && StrictlySorted(lines)
      && multiset(lines) == multiset(Explore(mem, start, []).value)
  {
    var walk := Explore(mem, start, []).value;
    assert Distinct(walk) by { ExploreDistinct(mem, start, []); }
    SortStrict(walk);
  }

  /** Every listed line is the decoded big-endian word at its address, with
      its entry's text. */
  lemma DisassembleDecoded(start: nat, mem: Memory)
    requires Disassemble(start, mem).Success?
    ensures forall l :: l in Disassemble(start, mem).value ==> Decoded(mem, l)
  {
    var walk := Explore(mem, start, []).value;
    var lines := Disassemble(start, mem).value;
    assert DecodedFrom(mem, walk, 0) by { ExploreDecoded(mem, start, []); }
    assert multiset(lines) == multiset(walk);
    forall l | l in lines
      ensures Decoded(mem, l)
    {
      assert l in multiset(walk);
    }
  }

  lemma CoveredSameAddresses(mem: Memory, addr: nat, a: seq<Line>, b: seq<Line>)
    requires Addresses(a) == Addresses(b) && Covered(mem, addr, a)
    ensures Covered(mem, addr, b)
  {
  }

  /** The start is covered, and so is every place control can go from a
      listed line: the listing is closed under the control flow. */
  lemma DisassembleClosed(start: nat, mem: Memory)
    requires Disassemble(start, mem).Success?
    ensures var lines := Disassemble(start, mem).value;
      && Covered(mem, start, lines)
      && (forall l, a :: l in lines && a in LineSuccessors(l) ==> Covered(mem, a, lines))
  {
    var walk := Explore(mem, start, []).value;
    var lines := Disassemble(start, mem).value;
    assert ClosedFrom(mem, walk, 0) by { ExploreClosed(mem, start, []); }
    assert Addresses(walk) == Addresses(lines) by { MultisetAddresses(lines, walk); }
    CoveredSameAddresses(mem, start, walk, lines);
    forall l, a | l in lines && a in LineSuccessors(l)
      ensures Covered(mem, a, lines)
    {
      assert Covered(mem, a, walk) by {
        assert l in multiset(walk);
        var j :| 0 <= j < |walk| && walk[j] == l;
      }
      CoveredSameAddresses(mem, a, walk, lines);
    }
  }

  /** Every listed line is reached: in the order the walk found them, each
      line is at the start address or is a successor of an earlier one. */
  lemma DisassembleReached(start: nat, mem: Memory)
    requires Disassemble(start, mem).Success?
    ensures exists walk :: multiset(walk) == multiset(Disassemble(start, mem).value)
                           && ReachedFrom(walk, 0, [start])
  {
    var walk := Explore(mem, start, []).value;
    ExploreReached(mem, start, []);
    assert multiset(walk) == multiset(Disassemble(start, mem).value);
  }

  /** A `JP` to its own address is listed once, and nothing else is. */
  lemma SelfJump(mem: Memory, addr: nat)
    requires FreshAt(mem, addr, [], JpAddr) && OpNNN(WordAt(mem, addr)) == addr
    ensures Disassemble(addr, mem) == Success([LineAt(mem, addr)])
  {
    var none: seq<Line> := [];
    var line := LineAt(mem, addr);
    assert none + [line] == [line];
    ExploreJump(mem, addr, none);
    assert line in [line];
    ExploreStops(mem, addr, [line]);
    assert Explore(mem, addr, none) == Success([line]);
    assert SortByAddress([line]) == [line] by {
      assert [line][1..] == none;
    }
  }
}
