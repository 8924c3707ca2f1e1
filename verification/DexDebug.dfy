/**
  The opcode loop of the DEX debug-info parser.  It keeps one open range per register and writes down a closed range
  when a range ends; a naive interpreter instead notes, for every address passed, what each register holds there.
*/
module DexDebug {
  import opened Wrappers

  /** What a declaration says of a register; the strings come from the tables of the file. */
  datatype Info = Info(name: Option<string>, descriptor: Option<string>, signature: Option<string>)

  type Special = x: int | 0x0a <= x <= 0xff witness 0x0a

  /** The opcodes before DBG_END_SEQUENCE, their operands decoded. */
  datatype Opcode =
    | AdvancePc(addrDiff: nat)
    | AdvanceLine(lineDiff: int)
    | StartLocal(reg: nat, name: Option<string>, descriptor: Option<string>)
    | StartLocalExtended(reg: nat, name: Option<string>, descriptor: Option<string>, signature: Option<string>)
    | EndLocal(reg: nat)
    | RestartLocal(reg: nat)
    | SetPrologueEnd
    | SetPrologueBegin
    | SetFile(index: nat)
    | SpecialOp(opcode: Special)

  datatype Local = Local(info: Info, start: nat, live: bool)
  datatype Range = Range(reg: nat, info: Info, start: nat, end: nat)
  datatype Position = Position(source: nat, address: nat, line: nat)

  datatype State = State(address: nat, line: nat, source: nat,
                         locals: seq<Local>, emitted: seq<Range>, positions: seq<Position>)

  /** `Rejected`: a declaration names a register the method does not have.
      `Unchecked`: DBG_END_LOCAL or DBG_RESTART_LOCAL does, which the code does not look at. */
  datatype Outcome = Running(st: State) | Rejected | Unchecked

  const TWO_TO_THE_32 := 0x1_0000_0000
  const TWO_TO_THE_64 := 0x1_0000_0000_0000_0000

  function Emit(st: State, reg: nat): (emitted: seq<Range>)
    requires reg < |st.locals|
  {
    var l := st.locals[reg];
    if l.live then st.emitted + [Range(reg, l.info, l.start, st.address)] else st.emitted
  }

  function Declare(st: State, reg: nat, info: Info): Outcome {
    if reg >= |st.locals| then Rejected
    else Running(st.(emitted := Emit(st, reg), locals := st.locals[reg := Local(info, st.address, true)]))
  }

  /** How far an opcode moves the address. */
  function Advance(op: Opcode): nat {
    match op
    case AdvancePc(d) => d
    case SpecialOp(o) => (o - 0x0a) / 15
    case _ => 0
  }

  function Step(st: State, op: Opcode): Outcome {
    match op
    case AdvancePc(d) => Running(st.(address := (st.address + d) % TWO_TO_THE_32))
    case AdvanceLine(d) => Running(st.(line := (st.line + d) % TWO_TO_THE_32))
    case StartLocal(reg, name, descriptor) => Declare(st, reg, Info(name, descriptor, None))
    case StartLocalExtended(reg, name, descriptor, signature) => Declare(st, reg, Info(name, descriptor, signature))
    case EndLocal(reg) =>
      if reg >= |st.locals| then Unchecked
      else Running(st.(emitted := Emit(st, reg), locals := st.locals[reg := st.locals[reg].(live := false)]))
    case RestartLocal(reg) =>
      if reg >= |st.locals| then Unchecked
      else if st.locals[reg].live then Running(st)
      else Running(st.(locals := st.locals[reg := Local(st.locals[reg].info, st.address, true)]))
    case SetPrologueEnd => Running(st)
    case SetPrologueBegin => Running(st)
    case SetFile(i) => Running(st.(source := (i - 1) % TWO_TO_THE_64))
    case SpecialOp(o) =>
      var address, line := (st.address + Advance(op)) % TWO_TO_THE_32, (st.line - 4 + (o - 0x0a) % 15) % TWO_TO_THE_32;
      Running(st.(address := address, line := line,
                  positions := st.positions + [Position(st.source, address, line)]))
  }

  function Run(st: State, ops: seq<Opcode>): Outcome {
    if ops == [] then Running(st)
    else match Run(st, ops[..|ops| - 1])
      case Running(mid) => Step(mid, ops[|ops| - 1])
      case stop => stop
  }

  lemma RunStops(st: State, ops: seq<Opcode>, n: nat)
    requires n <= |ops| && !Run(st, ops[..n]).Running?
    ensures Run(st, ops) == Run(st, ops[..n])
    decreases |ops|
  {
    if n < |ops| {
      assert ops[..|ops| - 1][..n] == ops[..n];
      RunStops(st, ops[..|ops| - 1], n);
    } else {
      assert ops[..n] == ops;
    }
  }

  /** The opcode declares a register that the method does not have. */
  predicate Rejects(op: Opcode, regs: nat) {
    match op
    case StartLocal(reg, _, _) => reg >= regs
    case StartLocalExtended(reg, _, _, _) => reg >= regs
    case _ => false
  }

  /** The opcode ends or restarts a register that the method does not have. */
  predicate Strays(op: Opcode, regs: nat) {
    match op
    case EndLocal(reg) => reg >= regs
    case RestartLocal(reg) => reg >= regs
    case _ => false
  }

  predicate AllIn(ops: seq<Opcode>, n: nat, regs: nat)
    requires n <= |ops|
  {
    forall j :: 0 <= j < n ==> !Rejects(ops[j], regs) && !Strays(ops[j], regs)
  }

  lemma StepOutcome(st: State, op: Opcode)
    ensures Step(st, op) == Rejected <==> Rejects(op, |st.locals|)
    ensures Step(st, op) == Unchecked <==> Strays(op, |st.locals|)
    ensures Step(st, op).Running? ==> |Step(st, op).st.locals| == |st.locals|
  {
  }

  /** The loop gets to the end if and only if every register named exists; otherwise the first opcode that names one
      that does not decides: a declaration is rejected, the others go past the locals unchecked. */
  lemma {:induction false} OutcomeIff(st: State, ops: seq<Opcode>)
    ensures Run(st, ops).Running? <==> AllIn(ops, |ops|, |st.locals|)
    ensures Run(st, ops).Running? ==> |Run(st, ops).st.locals| == |st.locals|
    ensures Run(st, ops) == Rejected <==>
              exists k :: 0 <= k < |ops| && Rejects(ops[k], |st.locals|) && AllIn(ops, k, |st.locals|)
    ensures Run(st, ops) == Unchecked <==>
              exists k :: 0 <= k < |ops| && Strays(ops[k], |st.locals|) && AllIn(ops, k, |st.locals|)
    decreases |ops|
  {
    hide Step, Rejects, Strays;
    if ops != [] {
      var n, front := |st.locals|, ops[..|ops| - 1];
      OutcomeIff(st, front);
      assert forall k :: 0 <= k < |front| ==> front[k] == ops[k] && (AllIn(front, k, n) <==> AllIn(ops, k, n));
      assert AllIn(front, |front|, n) <==> AllIn(ops, |front|, n);
      var op := ops[|ops| - 1];
      NotBoth(op, n);
      if Run(st, front).Running? { StepOutcome(Run(st, front).st, op); }
    }
  }

  lemma NotBoth(op: Opcode, n: nat)
    ensures !(Rejects(op, n) && Strays(op, n))
  {
  }

  // ---------------------------------------------------------------- the parser

  /** The range the register holds, if it is live, is closed at `address`. */
  method EmitIfLive(locals: array<Local>, reg: nat, address: nat, emitted: seq<Range>) returns (out: seq<Range>)
    requires reg < locals.Length
    ensures forall line, source, positions ::
              out == Emit(State(address, line, source, locals[..], emitted, positions), reg)
  {
    out := emitted;
    if locals[reg].live {
      out := out + [Range(reg, locals[reg].info, locals[reg].start, address)];
    }
  }

  method ParseOpcodes(locals: array<Local>, lineStart: nat, sourceFile: nat, ops: seq<Opcode>) returns (result: Outcome)
    modifies locals
    ensures result == Run(State(0, lineStart, sourceFile, old(locals[..]), [], []), ops)
    ensures result.Running? ==> result.st.locals == locals[..]
  {
    hide Run;
    ghost var start := State(0, lineStart, sourceFile, locals[..], [], []);
    var address: nat, line: nat, source: nat := 0, lineStart, sourceFile;
    var emitted: seq<Range>, positions: seq<Position> := [], [];
    var pc := 0;
    assert Run(start, ops[..0]) == Running(start) by { RunEmpty(start); assert ops[..0] == []; }
    while pc < |ops|
      invariant 0 <= pc <= |ops|
      invariant Run(start, ops[..pc]) == Running(State(address, line, source, locals[..], emitted, positions))
    {
      RunNext(start, ops, pc);
      match ops[pc] {
        case AdvancePc(d) => address := (address + d) % TWO_TO_THE_32;
        case AdvanceLine(d) => line := (line + d) % TWO_TO_THE_32;
        case StartLocal(reg, name, descriptor) =>
          if reg >= locals.Length {
            RunStops(start, ops, pc + 1);
            return Rejected;
          }
          emitted := EmitIfLive(locals, reg, address, emitted);
          locals[reg] := Local(Info(name, descriptor, None), address, true);
        case StartLocalExtended(reg, name, descriptor, signature) =>
          if reg >= locals.Length {
            RunStops(start, ops, pc + 1);
            return Rejected;
          }
          emitted := EmitIfLive(locals, reg, address, emitted);
          locals[reg] := Local(Info(name, descriptor, signature), address, true);
        case EndLocal(reg) =>
          if reg >= locals.Length {
            RunStops(start, ops, pc + 1);
            return Unchecked;
          }
          emitted := EmitIfLive(locals, reg, address, emitted);
          locals[reg] := locals[reg].(live := false);
        case RestartLocal(reg) =>
          if reg >= locals.Length {
            RunStops(start, ops, pc + 1);
            return Unchecked;
          }
          if !locals[reg].live {
            locals[reg] := locals[reg].(start := address, live := true);
          }
        case SetPrologueEnd =>
        case SetPrologueBegin =>
        case SetFile(i) => source := (i - 1) % TWO_TO_THE_64;
        case SpecialOp(o) =>
          var adjusted := o - 0x0a;
          address := (address + adjusted / 15) % TWO_TO_THE_32;
          line := (line - 4 + adjusted % 15) % TWO_TO_THE_32;
          positions := positions + [Position(source, address, line)];
      }
      pc := pc + 1;
    }
    assert ops[..pc] == ops;
    result := Running(State(address, line, source, locals[..], emitted, positions));
  }

  lemma RunEmpty(st: State)
    ensures Run(st, []) == Running(st)
  {
  }

  lemma RunNext(st: State, ops: seq<Opcode>, n: nat)
    requires n < |ops| && Run(st, ops[..n]).Running?
    ensures Run(st, ops[..n + 1]) == Step(Run(st, ops[..n]).st, ops[n])
  {
    assert ops[..n + 1][..n] == ops[..n];
  }

  // ---------------------------------------------------------------- the naive interpreter

  /** One register: what it was last declared as, whether it is live, and what it held at every address passed. */
  datatype Naive = Naive(info: Info, live: bool, seen: seq<Option<Info>>)

  function NaiveStep(nv: Naive, reg: nat, op: Opcode): Naive {
    match op
    case StartLocal(r, name, descriptor) =>
      if r == reg then nv.(info := Info(name, descriptor, None), live := true) else nv
    case StartLocalExtended(r, name, descriptor, signature) =>
      if r == reg then nv.(info := Info(name, descriptor, signature), live := true) else nv
    case EndLocal(r) => if r == reg then nv.(live := false) else nv
    case RestartLocal(r) => if r == reg then nv.(live := true) else nv
    case _ => nv.(seen := nv.seen + seq(Advance(op), _ => if nv.live then Some(nv.info) else None))
  }

  function NaiveRun(nv: Naive, reg: nat, ops: seq<Opcode>): Naive {
    if ops == [] then nv else NaiveStep(NaiveRun(nv, reg, ops[..|ops| - 1]), reg, ops[|ops| - 1])
  }

  /** How far the opcodes move the address in all. */
  function Total(ops: seq<Opcode>): nat {
    if ops == [] then 0 else Total(ops[..|ops| - 1]) + Advance(ops[|ops| - 1])
  }

  // ---------------------------------------------------------------- ranges and trace

  /** The closed ranges of a register and its open one say that it holds `info` at `a`. */
  ghost predicate Covered(st: State, reg: nat, a: nat, info: Info)
    requires reg < |st.locals|
  {
    || (exists i :: 0 <= i < |st.emitted| && st.emitted[i].reg == reg && st.emitted[i].info == info
                    && st.emitted[i].start <= a < st.emitted[i].end)
    || (st.locals[reg].live && st.locals[reg].info == info && st.locals[reg].start <= a)
  }

  /** Ranges start before they end, those of one register follow each other, and the open one comes last. */
  ghost predicate Ordered(st: State) {
    && (forall i :: 0 <= i < |st.emitted| ==>
          st.emitted[i].reg < |st.locals| && st.emitted[i].start <= st.emitted[i].end <= st.address)
    && (forall i, j :: 0 <= i < j < |st.emitted| && st.emitted[i].reg == st.emitted[j].reg
                      ==> st.emitted[i].end <= st.emitted[j].start)
    && (forall r :: 0 <= r < |st.locals| && st.locals[r].live ==> st.locals[r].start <= st.address)
    && (forall i, r :: 0 <= i < |st.emitted| && 0 <= r < |st.locals| && st.emitted[i].reg == r && st.locals[r].live
                      ==> st.emitted[i].end <= st.locals[r].start)
  }

  ghost predicate PositionsOrdered(st: State) {
    && (forall i :: 0 <= i < |st.positions| ==> st.positions[i].address <= st.address)
    && (forall i, j :: 0 <= i < j < |st.positions| ==> st.positions[i].address <= st.positions[j].address)
  }

  /** The state agrees with the naive interpreter on one register. */
  ghost predicate Agrees(st: State, reg: nat, nv: Naive) {
    && reg < |st.locals| && |nv.seen| == st.address
    && nv.live == st.locals[reg].live && nv.info == st.locals[reg].info
    && forall a, info :: 0 <= a < st.address ==> (nv.seen[a] == Some(info) <==> Covered(st, reg, a, info))
  }

  /** A range is closed at the current address and the register gets a new open range, or none. */
  lemma CloseOrdered(st: State, to: State, r: nat)
    requires Ordered(st) && r < |st.locals| && |to.locals| == |st.locals|
    requires to.address == st.address && to.emitted == Emit(st, r)
    requires forall k :: 0 <= k < |st.locals| && k != r ==> to.locals[k] == st.locals[k]
    requires to.locals[r].live ==> to.locals[r].start == st.address
    ensures Ordered(to)
  {
    var n := |st.emitted|;
    assert forall i :: 0 <= i < n ==> to.emitted[i] == st.emitted[i];
    if st.locals[r].live {
      assert forall i :: 0 <= i < n && st.emitted[i].reg == r ==> st.emitted[i].end <= st.locals[r].start;
    }
  }

  lemma MoveOrdered(st: State, to: State)
    requires Ordered(st) && to.locals == st.locals && to.emitted == st.emitted && st.address <= to.address
    ensures Ordered(to)
  {
  }

  lemma StepOrdered(st: State, op: Opcode)
    requires Ordered(st) && Step(st, op).Running? && st.address + Advance(op) < TWO_TO_THE_32
    ensures Ordered(Step(st, op).st)
    ensures Step(st, op).st.address == st.address + Advance(op)
    ensures |Step(st, op).st.locals| == |st.locals|
  {
    hide Ordered;
    var to := Step(st, op).st;
    match op {
      case StartLocal(r, _, _) => CloseOrdered(st, to, r);
      case StartLocalExtended(r, _, _, _) => CloseOrdered(st, to, r);
      case EndLocal(r) => CloseOrdered(st, to, r);
      case RestartLocal(r) => if !st.locals[r].live { CloseOrdered(st, to, r); }
      case _ => MoveOrdered(st, to);
    }
  }

  lemma StepPositions(st: State, op: Opcode)
    requires PositionsOrdered(st) && Step(st, op).Running? && st.address + Advance(op) < TWO_TO_THE_32
    ensures PositionsOrdered(Step(st, op).st)
  {
  }

  lemma MoveAgrees(st: State, to: State, reg: nat, nv: Naive, op: Opcode)
    requires Ordered(st) && Agrees(st, reg, nv)
    requires to.locals == st.locals && to.emitted == st.emitted && to.address == st.address + Advance(op)
    requires !op.StartLocal? && !op.StartLocalExtended? && !op.EndLocal? && !op.RestartLocal?
    ensures Agrees(to, reg, NaiveStep(nv, reg, op))
  {
    var nv' := NaiveStep(nv, reg, op);
    forall a: nat, info: Info | a < to.address
      ensures nv'.seen[a] == Some(info) <==> Covered(to, reg, a, info)
    {
      if a < st.address {
        assert nv'.seen[a] == nv.seen[a] && (Covered(to, reg, a, info) <==> Covered(st, reg, a, info));
      }
    }
  }

  lemma CloseAgrees(st: State, to: State, reg: nat, r: nat, nv: Naive, nv': Naive)
    requires Ordered(st) && Agrees(st, reg, nv) && r < |st.locals| && |to.locals| == |st.locals|
    requires to.address == st.address && to.emitted == Emit(st, r)
    requires (forall k :: 0 <= k < |st.locals| && k != r ==> to.locals[k] == st.locals[k])
    requires to.locals[r].live ==> to.locals[r].start == st.address
    requires nv'.seen == nv.seen && nv'.live == to.locals[reg].live && nv'.info == to.locals[reg].info
    ensures Agrees(to, reg, nv')
  {
    forall a: nat, info: Info | a < st.address
      ensures Covered(st, reg, a, info) <==> Covered(to, reg, a, info)
    {
      var n := |st.emitted|;
      assert forall i :: 0 <= i < n ==> to.emitted[i] == st.emitted[i];
      if Covered(st, reg, a, info) && reg == r && st.locals[r].live && st.locals[r].start <= a && st.locals[r].info == info {
        assert to.emitted[n].reg == reg;
      }
    }
  }

  lemma StepAgrees(st: State, reg: nat, nv: Naive, op: Opcode)
    requires Ordered(st) && Agrees(st, reg, nv) && Step(st, op).Running? && st.address + Advance(op) < TWO_TO_THE_32
    ensures Agrees(Step(st, op).st, reg, NaiveStep(nv, reg, op))
  {
    hide Agrees, Ordered;
    var to, nv' := Step(st, op).st, NaiveStep(nv, reg, op);
    match op {
      case StartLocal(r, _, _) => AgreesParts(st, reg, nv); CloseAgrees(st, to, reg, r, nv, nv');
      case StartLocalExtended(r, _, _, _) => AgreesParts(st, reg, nv); CloseAgrees(st, to, reg, r, nv, nv');
      case EndLocal(r) => AgreesParts(st, reg, nv); CloseAgrees(st, to, reg, r, nv, nv');
      case RestartLocal(r) =>
        AgreesParts(st, reg, nv);
        if !st.locals[r].live { CloseAgrees(st, to, reg, r, nv, nv'); }
      case _ => MoveAgrees(st, to, reg, nv, op);
    }
  }

  lemma AgreesParts(st: State, reg: nat, nv: Naive)
    requires Agrees(st, reg, nv)
    ensures reg < |st.locals| && nv.live == st.locals[reg].live && nv.info == st.locals[reg].info
  {
  }

  /** The state the loop starts in: the parameters are live from address 0. */
  ghost predicate Entry(st: State) {
    && st.address == 0 && st.emitted == [] && st.positions == []
    && forall r :: 0 <= r < |st.locals| && st.locals[r].live ==> st.locals[r].start == 0
  }

  function Begin(st: State, reg: nat): Naive
    requires reg < |st.locals|
  {
    Naive(st.locals[reg].info, st.locals[reg].live, [])
  }

  /** What the ranges promise of one register at the end of a run. */
  ghost predicate Faithful(st: State, end: State, ops: seq<Opcode>, reg: nat)
    requires reg < |st.locals|
  {
    Ordered(end) && PositionsOrdered(end) && Agrees(end, reg, NaiveRun(Begin(st, reg), reg, ops))
  }

  lemma {:induction false} FitsIsFaithful(st: State, ops: seq<Opcode>, reg: nat)
    requires Entry(st) && reg < |st.locals| && Run(st, ops).Running? && Total(ops) < TWO_TO_THE_32
    ensures Faithful(st, Run(st, ops).st, ops, reg) && Run(st, ops).st.address == Total(ops)
    decreases |ops|
  {
    hide Ordered, PositionsOrdered, Agrees, Step, NaiveStep;
    if ops == [] {
      EntryAgrees(st, reg);
    } else {
      var front, op := ops[..|ops| - 1], ops[|ops| - 1];
      FitsIsFaithful(st, front, reg);
      var mid := Run(st, front).st;
      StepOrdered(mid, op);
      StepPositions(mid, op);
      StepAgrees(mid, reg, NaiveRun(Begin(st, reg), reg, front), op);
    }
  }

  lemma {:induction false} NaiveLength(nv: Naive, reg: nat, ops: seq<Opcode>)
    ensures |NaiveRun(nv, reg, ops).seen| == |nv.seen| + Total(ops)
    decreases |ops|
  {
    if ops != [] { NaiveLength(nv, reg, ops[..|ops| - 1]); }
  }

  lemma {:induction false} AddressFits(st: State, ops: seq<Opcode>)
    requires st.address < TWO_TO_THE_32 && Run(st, ops).Running?
    ensures Run(st, ops).st.address < TWO_TO_THE_32
    decreases |ops|
  {
    if ops != [] { AddressFits(st, ops[..|ops| - 1]); }
  }

  /** The ranges of every register are ordered, the positions never go back, and the ranges cover exactly the
      addresses at which the naive interpreter has the register live, with the same declaration, up to the address
      reached -- if and only if the addresses fit 32 bits.  Past 32 bits the address reached is not the naive one, and
      that is all the "only if" rests on; when the order of the ranges fails as well is OrderedIff. */
  lemma RangesAreTheTrace(st: State, ops: seq<Opcode>, reg: nat)
    requires Entry(st) && reg < |st.locals| && Run(st, ops).Running?
    ensures Faithful(st, Run(st, ops).st, ops, reg) <==> Total(ops) < TWO_TO_THE_32
  {
    hide Ordered, PositionsOrdered;
    NaiveLength(Begin(st, reg), reg, ops);
    AddressFits(st, ops);
    if Total(ops) < TWO_TO_THE_32 { FitsIsFaithful(st, ops, reg); }
  }

  lemma EntryAgrees(st: State, reg: nat)
    requires Entry(st) && reg < |st.locals|
    ensures Ordered(st) && PositionsOrdered(st) && Agrees(st, reg, Begin(st, reg))
  {
  }

  // ---------------------------------------------------------------- the line table

  /** How far an opcode moves the line. */
  function LineMove(op: Opcode): int {
    match op
    case AdvanceLine(d) => d
    case SpecialOp(o) => (o - 0x0a) % 15 - 4
    case _ => 0
  }

  function LineTotal(ops: seq<Opcode>): int {
    if ops == [] then 0 else LineTotal(ops[..|ops| - 1]) + LineMove(ops[|ops| - 1])
  }

  /** The file named last. */
  function FileOf(source: nat, ops: seq<Opcode>): nat {
    if ops == [] then source
    else match ops[|ops| - 1]
      case SetFile(i) => (i - 1) % TWO_TO_THE_64
      case _ => FileOf(source, ops[..|ops| - 1])
  }

  /** One row for every special opcode: the moves up to and including it, summed and cut to 32 bits. */
  function Rows(st: State, ops: seq<Opcode>): seq<Position> {
    if ops == [] then []
    else
      var rows, last := Rows(st, ops[..|ops| - 1]), ops[|ops| - 1];
      if !last.SpecialOp? then rows
      else rows + [Position(FileOf(st.source, ops), Total(ops) % TWO_TO_THE_32,
                            (st.line + LineTotal(ops)) % TWO_TO_THE_32)]
  }

  lemma WrapSum(a: int, d: int)
    ensures (a % TWO_TO_THE_32 + d) % TWO_TO_THE_32 == (a + d) % TWO_TO_THE_32
  {
    var m := TWO_TO_THE_32;
    assert a == a / m * m + a % m;
    var b := a % m + d;
    assert b == b / m * m + b % m;
    assert a + d == (a / m + b / m) * m + b % m;
  }

  lemma StepMoves(st: State, op: Opcode)
    requires Step(st, op).Running? && st.address < TWO_TO_THE_32 && st.line < TWO_TO_THE_32
    ensures var to := Step(st, op).st;
            && to.address == (st.address + Advance(op)) % TWO_TO_THE_32
            && to.line == (st.line + LineMove(op)) % TWO_TO_THE_32
            && to.source == (if op.SetFile? then (op.index - 1) % TWO_TO_THE_64 else st.source)
            && to.positions == st.positions + if op.SpecialOp? then [Position(to.source, to.address, to.line)] else []
  {
  }

  lemma {:induction false} PositionsAreTheRows(st: State, ops: seq<Opcode>)
    requires Entry(st) && st.line < TWO_TO_THE_32 && Run(st, ops).Running?
    ensures var end := Run(st, ops).st;
            && end.positions == Rows(st, ops) && end.source == FileOf(st.source, ops)
            && end.address == Total(ops) % TWO_TO_THE_32 && end.line == (st.line + LineTotal(ops)) % TWO_TO_THE_32
    decreases |ops|
  {
    hide Step, Advance, LineMove;
    if ops != [] {
      var front, op := ops[..|ops| - 1], ops[|ops| - 1];
      PositionsAreTheRows(st, front);
      StepMoves(Run(st, front).st, op);
      WrapSum(Total(front), Advance(op));
      WrapSum(st.line + LineTotal(front), LineMove(op));
    }
  }

  /** The special opcode for an address step and a line step: line steps go from -4 to 10, and 15 of them make one address
      step. */
  predicate Encodes(op: Opcode, addrStep: nat, lineStep: int) {
    op.SpecialOp? && -4 <= lineStep <= 10 && op.opcode == 0x0a + 15 * addrStep + (lineStep + 4)
  }

  /** What the special opcode for two steps does: it moves the address by the one and the line by the other, in 32 bits,
      appends that position, and leaves the rest alone. */
  lemma SpecialMoves(st: State, op: Opcode, addrStep: nat, lineStep: int)
    requires Encodes(op, addrStep, lineStep)
    ensures var address, line := (st.address + addrStep) % TWO_TO_THE_32, (st.line + lineStep) % TWO_TO_THE_32;
            Step(st, op) == Running(st.(address := address, line := line,
                                        positions := st.positions + [Position(st.source, address, line)]))
  {
    var adjusted := op.opcode - 0x0a;
    assert adjusted == 15 * addrStep + (lineStep + 4) && 0 <= lineStep + 4 < 15;
    assert adjusted / 15 == addrStep && adjusted % 15 == lineStep + 4;
  }

  /** The naive interpreter passes as many addresses, and every special opcode is that for two steps. */
  lemma SpecialPasses(nv: Naive, reg: nat, op: Opcode, addrStep: nat, lineStep: int)
    requires Encodes(op, addrStep, lineStep)
    ensures var nv' := NaiveStep(nv, reg, op);
            && |nv'.seen| == |nv.seen| + addrStep && nv.seen <= nv'.seen && nv' == nv.(seen := nv'.seen)
            && forall i :: |nv.seen| <= i < |nv'.seen| ==> nv'.seen[i] == if nv.live then Some(nv.info) else None
  {
    var adjusted := op.opcode - 0x0a;
    assert adjusted == 15 * addrStep + (lineStep + 4) && 0 <= lineStep + 4 < 15;
    assert adjusted / 15 == addrStep;
  }

  lemma SpecialDecodes(op: Opcode) returns (addrStep: nat, lineStep: int)
    requires op.SpecialOp?
    ensures Encodes(op, addrStep, lineStep)
    ensures forall a: nat, l :: Encodes(op, a, l) ==> a == addrStep && l == lineStep
  {
    var adjusted := op.opcode - 0x0a;
    addrStep, lineStep := adjusted / 15, adjusted % 15 - 4;
    assert adjusted == 15 * (adjusted / 15) + adjusted % 15;
    forall a: nat, l | Encodes(op, a, l) ensures a == addrStep && l == lineStep {
      assert adjusted == 15 * a + (l + 4);
      assert adjusted / 15 == a && adjusted % 15 == l + 4;
    }
  }

  // ---------------------------------------------------------------- when the order fails

  /** The opcode opens or closes a range of the register. */
  predicate Touches(nv: Naive, reg: nat, op: Opcode) {
    match op
    case StartLocal(r, _, _) => r == reg
    case StartLocalExtended(r, _, _, _) => r == reg
    case EndLocal(r) => r == reg && nv.live
    case RestartLocal(r) => r == reg && !nv.live
    case _ => false
  }

  /** The sums of address moves, cut to 32 bits, at which the opcodes open or close a range of the register. */
  function Marks(nv: Naive, reg: nat, ops: seq<Opcode>): seq<nat> {
    if ops == [] then []
    else
      var front, op := ops[..|ops| - 1], ops[|ops| - 1];
      Marks(nv, reg, front) + if Touches(NaiveRun(nv, reg, front), reg, op) then [Total(front) % TWO_TO_THE_32] else []
  }

  predicate Sorted(s: seq<nat>) {
    forall i, j :: 0 <= i < j < |s| ==> s[i] <= s[j]
  }

  lemma SortedTwo(s: seq<nat>, a: nat, x: nat)
    ensures Sorted(s + [a] + [x]) <==> Sorted(s + [a]) && a <= x
  {
    var both, one := s + [a] + [x], s + [a];
    assert both[|s|] == a && both[|s| + 1] == x && one[|s|] == a;
    assert forall i :: 0 <= i < |one| ==> both[i] == one[i];
    if Sorted(both) {
      assert forall i, j :: 0 <= i < j < |one| ==> both[i] <= both[j];
    }
  }

  /** The part of Ordered that is about one register, with `x` for the address reached. */
  ghost predicate OrderedUpTo(st: State, reg: nat, x: nat)
    requires reg < |st.locals|
  {
    && (forall i :: 0 <= i < |st.emitted| && st.emitted[i].reg == reg ==> st.emitted[i].start <= st.emitted[i].end <= x)
    && (forall i, j :: 0 <= i < j < |st.emitted| && st.emitted[i].reg == reg == st.emitted[j].reg
                      ==> st.emitted[i].end <= st.emitted[j].start)
    && (st.locals[reg].live ==> st.locals[reg].start <= x)
    && (forall i :: 0 <= i < |st.emitted| && st.emitted[i].reg == reg && st.locals[reg].live
                   ==> st.emitted[i].end <= st.locals[reg].start)
  }

  /** A range of the register is opened, closed or both at the current address. */
  lemma TouchOrder(st: State, to: State, reg: nat, x: nat)
    requires reg < |st.locals| == |to.locals| && to.emitted == Emit(st, reg)
    requires to.locals[reg].live ==> to.locals[reg].start == st.address
    requires st.locals[reg].live || to.locals[reg].live
    ensures OrderedUpTo(to, reg, x) <==> OrderedUpTo(st, reg, st.address) && st.address <= x
  {
    var n := |st.emitted|;
    assert forall i :: 0 <= i < n ==> to.emitted[i] == st.emitted[i];
    if st.locals[reg].live {
      assert to.emitted[n] == Range(reg, st.locals[reg].info, st.locals[reg].start, st.address);
      if OrderedUpTo(to, reg, x) {
        assert forall i :: 0 <= i < n && st.emitted[i].reg == reg ==> to.emitted[i].end <= to.emitted[n].start;
      }
    }
  }

  /** A range of another register is closed, or none. */
  lemma OtherOrder(st: State, to: State, reg: nat, r: nat, x: nat)
    requires reg < |st.locals| == |to.locals| && to.locals[reg] == st.locals[reg]
    requires to.emitted == st.emitted || (r < |st.locals| && r != reg && to.emitted == Emit(st, r))
    ensures OrderedUpTo(to, reg, x) <==> OrderedUpTo(st, reg, x)
  {
    assert forall i :: 0 <= i < |st.emitted| ==> to.emitted[i] == st.emitted[i];
    assert forall i :: |st.emitted| <= i < |to.emitted| ==> to.emitted[i].reg == r;
    if OrderedUpTo(to, reg, x) { OrderBack(st, to, reg, x); }
  }

  lemma OrderBack(st: State, to: State, reg: nat, x: nat)
    requires reg < |st.locals| == |to.locals| && to.locals[reg] == st.locals[reg] && OrderedUpTo(to, reg, x)
    requires |st.emitted| <= |to.emitted| && forall i :: 0 <= i < |st.emitted| ==> to.emitted[i] == st.emitted[i]
    ensures OrderedUpTo(st, reg, x)
  {
    forall i, j | 0 <= i < j < |st.emitted| && st.emitted[i].reg == reg == st.emitted[j].reg
      ensures st.emitted[i].end <= st.emitted[j].start
    {
      assert to.emitted[i].end <= to.emitted[j].start;
    }
    assert forall i :: 0 <= i < |st.emitted| && st.emitted[i].reg == reg ==> to.emitted[i].end <= x;
  }

  lemma StepOrder(st: State, reg: nat, nv: Naive, op: Opcode, x: nat)
    requires reg < |st.locals| && Step(st, op).Running? && nv.live == st.locals[reg].live
    ensures var to, nv' := Step(st, op).st, NaiveStep(nv, reg, op);
            && |to.locals| == |st.locals| && nv'.live == to.locals[reg].live
            && (OrderedUpTo(to, reg, x) <==>
                if Touches(nv, reg, op) then OrderedUpTo(st, reg, st.address) && st.address <= x
                else OrderedUpTo(st, reg, x))
  {
    hide OrderedUpTo;
    var to := Step(st, op).st;
    if Touches(nv, reg, op) {
      TouchOrder(st, to, reg, x);
    } else {
      OtherOrder(st, to, reg, Named(op), x);
    }
  }

  /** The register that the opcode names, if any. */
  function Named(op: Opcode): nat {
    match op
    case StartLocal(r, _, _) => r
    case StartLocalExtended(r, _, _, _) => r
    case EndLocal(r) => r
    case _ => 0
  }

  lemma {:induction false} RegisterOrder(st: State, ops: seq<Opcode>, reg: nat, x: nat)
    requires Entry(st) && reg < |st.locals| && Run(st, ops).Running?
    ensures var end, nv := Run(st, ops).st, NaiveRun(Begin(st, reg), reg, ops);
            && |end.locals| == |st.locals| && nv.live == end.locals[reg].live && end.address == Total(ops) % TWO_TO_THE_32
            && (OrderedUpTo(end, reg, x) <==> Sorted(Marks(Begin(st, reg), reg, ops) + [x]))
    decreases |ops|
  {
    hide Step, NaiveStep, Touches, Advance, Sorted;
    var nv := Begin(st, reg);
    if ops == [] {
      SortedOne(x);
      assert Marks(nv, reg, ops) + [x] == [x];
    } else {
      hide OrderedUpTo;
      var front, op := ops[..|ops| - 1], ops[|ops| - 1];
      RegisterOrder(st, front, reg, x);
      var mid := Run(st, front).st;
      RegisterOrder(st, front, reg, mid.address);
      StepOrder(mid, reg, NaiveRun(nv, reg, front), op, x);
      StepAddress(mid, op);
      WrapSum(Total(front), Advance(op));
      var ms := Marks(nv, reg, front);
      SortedTwo(ms, mid.address, x);
      assert Marks(nv, reg, ops) == if Touches(NaiveRun(nv, reg, front), reg, op) then ms + [mid.address] else ms;
    }
  }

  lemma SortedOne(x: nat)
    ensures Sorted([x])
  {
  }

  lemma StepAddress(st: State, op: Opcode)
    requires Step(st, op).Running? && st.address < TWO_TO_THE_32
    ensures Step(st, op).st.address == (st.address + Advance(op)) % TWO_TO_THE_32
  {
  }

  lemma {:induction false} RangesNamed(st: State, ops: seq<Opcode>)
    requires Entry(st) && Run(st, ops).Running?
    ensures var end := Run(st, ops).st;
            |end.locals| == |st.locals| && forall i :: 0 <= i < |end.emitted| ==> end.emitted[i].reg < |end.locals|
    decreases |ops|
  {
    if ops != [] { RangesNamed(st, ops[..|ops| - 1]); }
  }

  lemma ByRegister(st: State)
    requires forall i :: 0 <= i < |st.emitted| ==> st.emitted[i].reg < |st.locals|
    ensures Ordered(st) <==> forall r :: 0 <= r < |st.locals| ==> OrderedUpTo(st, r, st.address)
  {
    if forall r :: 0 <= r < |st.locals| ==> OrderedUpTo(st, r, st.address) {
      forall i | 0 <= i < |st.emitted| ensures OrderedUpTo(st, st.emitted[i].reg, st.address) {
        assert 0 <= st.emitted[i].reg < |st.locals|;
      }
      assert forall r :: 0 <= r < |st.locals| && st.locals[r].live ==> OrderedUpTo(st, r, st.address);
    }
  }

  /** The ranges are ordered at the end of a run if and only if for no register the address, cut to 32 bits, goes back
      between two opcodes that open or close a range of it, or from such an opcode to the end. */
  lemma OrderedIff(st: State, ops: seq<Opcode>)
    requires Entry(st) && Run(st, ops).Running?
    ensures Ordered(Run(st, ops).st) <==>
              forall r :: 0 <= r < |st.locals| ==> Sorted(Marks(Begin(st, r), r, ops) + [Total(ops) % TWO_TO_THE_32])
  {
    hide Ordered, OrderedUpTo, Sorted, Marks;
    var end := Run(st, ops).st;
    RangesNamed(st, ops);
    ByRegister(end);
    forall r | 0 <= r < |st.locals|
      ensures OrderedUpTo(end, r, end.address) <==> Sorted(Marks(Begin(st, r), r, ops) + [Total(ops) % TWO_TO_THE_32])
    {
      RegisterOrder(st, ops, r, end.address);
    }
  }

  /** A register that is live when the address wraps round to below its start gets a range that ends before it starts,
      as soon as it is ended or declared again. */
  lemma WrapWhileLive(st: State, reg: nat, d: nat, name: Option<string>, descriptor: Option<string>)
    requires reg < |st.locals| && st.locals[reg].live && (st.address + d) % TWO_TO_THE_32 < st.locals[reg].start
    ensures var there := Step(st, AdvancePc(d)).st;
            && !Ordered(Step(there, EndLocal(reg)).st)
            && !Ordered(Step(there, StartLocal(reg, name, descriptor)).st)
  {
    var there := Step(st, AdvancePc(d)).st;
    var ended, again := Step(there, EndLocal(reg)).st, Step(there, StartLocal(reg, name, descriptor)).st;
    var n := |st.emitted|;
    assert ended.emitted[n].start > ended.emitted[n].end && again.emitted[n].start > again.emitted[n].end;
  }

  /** Without the 32-bit bound the property fails: a range that spans the wrap-around ends before it starts. */
  lemma WrapAround()
    ensures var st := State(0, 0, 0, [Local(Info(None, None, None), 0, false)], [], []);
            var ops := [AdvancePc(5), StartLocal(0, None, None), AdvancePc(TWO_TO_THE_32 - 3), EndLocal(0)];
            Entry(st) && Run(st, ops).Running? && !Ordered(Run(st, ops).st)
  {
    var st := State(0, 0, 0, [Local(Info(None, None, None), 0, false)], [], []);
    var ops := [AdvancePc(5), StartLocal(0, None, None), AdvancePc(TWO_TO_THE_32 - 3), EndLocal(0)];
    RunEmpty(st);
    assert ops[..0] == [];
    RunNext(st, ops, 0);
    RunNext(st, ops, 1);
    RunNext(st, ops, 2);
    RunNext(st, ops, 3);
    assert ops[..4] == ops;
    var end := Run(st, ops).st;
    assert end.emitted[0].start == 5 && end.emitted[0].end == 2;
  }
}
