/** The two-pass driver of main: pass 1 encodes every command in order,
    binding labels and remembering the output slots of unresolved A commands;
    pass 2 re-encodes those slots with the completed symbol table. */
module Assembler {
  import opened Numerals
  import opened HackTables
  import opened Symbols
  import opened Encoder

  /** A command the encoders can index: at least two tokens, an A operand in
      scope, and for a C command the index conditions of C_CMDToBin. The
      operand condition is asked of every command, because pass 2 may hand
      any command to A_CMDToBin. */
  predicate WellFormedCommand(t: seq<string>)
  {
    && |t| >= 2
    && OperandInScope(t[1])
    && (t[0] != "@" && t[0] != "(" ==> CWellFormed(t))
  }

  predicate WellFormedProgram(cmds: seq<seq<string>>)
  {
    forall k :: 0 <= k < |cmds| ==> WellFormedCommand(cmds[k])
  }

  predicate IsLabel(t: seq<string>)
  {
    |t| > 0 && t[0] == "("
  }

  /** The A and C commands, in program order: the instructions that take an
      output slot. */
  function Instructions(cmds: seq<seq<string>>): (r: seq<seq<string>>)
    ensures |r| <= |cmds|
    ensures forall k :: 0 <= k < |r| ==> r[k] in cmds && !IsLabel(r[k])
  {
    if cmds == [] then []
    else
      var rest := Instructions(cmds[..|cmds| - 1]);
      var last := cmds[|cmds| - 1];
      if IsLabel(last) then rest else rest + [last]
  }

  /** Every A and C command is among the instructions. */
  lemma {:induction false} InstructionsComplete(cmds: seq<seq<string>>)
    ensures forall k :: 0 <= k < |cmds| && !IsLabel(cmds[k]) ==> cmds[k] in Instructions(cmds)
  {
    if cmds != [] {
      var front := cmds[..|cmds| - 1];
      InstructionsComplete(front);
      assert forall k :: 0 <= k < |front| ==> front[k] == cmds[k];
    }
  }

  /** The word an instruction gets when encoded against a given table. */
  function InstructionWord(t: seq<string>, table: map<string, nat>): string
    requires WellFormedCommand(t) && !IsLabel(t)
  {
    if t[0] == "@" then EncodeA(Classify(t), table).0 else EncodeC(Classify(t))
  }

  /** Appends bin unless it is empty, as main does after each command. */
  function Emit(code: seq<string>, bin: string): (r: seq<string>)
    ensures |r| == |code| || |r| == |code| + 1
    ensures |r| == |code| + 1 <==> bin != ""
    ensures r[..|code|] == code
    ensures |r| == |code| + 1 ==> r[|code|] == bin
  {
    if bin != "" then code + [bin] else code
  }

  /** The variables of pass 1: the symbol table, icount, machineCode and
      mulligan (the pending slots). */
  datatype Pass1State = Pass1State(table: map<string, nat>, icount: nat, code: seq<string>, pending: seq<nat>)

  /** One iteration of pass 1. */
  function Step(s: Pass1State, cmd: seq<string>): (r: Pass1State)
    requires WellFormedCommand(cmd)
    ensures r.icount == s.icount + (if IsLabel(cmd) then 0 else 1)
    ensures Extends(r.table, s.table)
    ensures !IsLabel(cmd) ==> r.table == s.table
    ensures |s.code| == s.icount ==> |r.code| == r.icount
    ensures r.pending == s.pending || (cmd[0] == "@" && r.pending == s.pending + [s.icount])
  {
    var hc := Classify(cmd);
    match hc.kind
    case ACommand =>
      var (bin, redo) := EncodeA(hc, s.table);
      Pass1State(s.table, s.icount + 1, Emit(s.code, bin), if redo then s.pending + [s.icount] else s.pending)
    case LCommand =>
      Pass1State(Bind(s.table, cmd[1], s.icount), s.icount, s.code, s.pending)
    case CCommand =>
      Pass1State(s.table, s.icount + 1, Emit(s.code, EncodeC(hc)), s.pending)
  }

  /** Pass 1 over the commands, from the given table. icount counts the
      instructions, machineCode holds one word per instruction, every pending
      slot is one of them, and no binding is ever changed. */
  function Pass1(init: map<string, nat>, cmds: seq<seq<string>>): (r: Pass1State)
    requires WellFormedProgram(cmds)
    ensures r.icount == |Instructions(cmds)|
    ensures |r.code| == r.icount
    ensures forall j :: 0 <= j < |r.pending| ==> r.pending[j] < r.icount
    ensures Extends(r.table, init)
  {
    if cmds == [] then Pass1State(init, 0, [], [])
    else Step(Pass1(init, cmds[..|cmds| - 1]), cmds[|cmds| - 1])
  }

  /** The slots pass 2 may rewrite, with the command it re-encodes for each. */
  predicate PendingInRange(code: seq<string>, pending: seq<nat>, source: seq<seq<string>>)
  {
    forall j :: 0 <= j < |pending| ==>
      pending[j] < |code| && pending[j] < |source| && WellFormedCommand(source[pending[j]])
  }

  /** Pass 2: for each pending slot p in turn, the word A_CMDToBin gives for
      source[p] overwrites slot p; nothing else changes. */
  function Pass2(code: seq<string>, pending: seq<nat>, source: seq<seq<string>>, table: map<string, nat>): (r: seq<string>)
    requires PendingInRange(code, pending, source)
    ensures |r| == |code|
    ensures forall k :: 0 <= k < |code| && k !in pending ==> r[k] == code[k]
    ensures forall j :: 0 <= j < |pending| ==>
      r[pending[j]] == EncodeA(Classify(source[pending[j]]), table).0
  {
    if pending == [] then code
    else
      var p := pending[|pending| - 1];
      var front := pending[..|pending| - 1];
      assert forall j :: 0 <= j < |front| ==> front[j] == pending[j];
      var rest := Pass2(code, front, source, table);
      rest[p := EncodeA(Classify(source[p]), table).0]
  }

  /** Both passes as written, from the table init: pass 2 re-encodes
      commands[p] for the pending output slot p, a command index and a slot
      index being mixed up. */
  function AssembleFrom(init: map<string, nat>, cmds: seq<seq<string>>): (out: seq<string>)
    requires WellFormedProgram(cmds)
    ensures |out| == |Instructions(cmds)|
  {
    var p := Pass1(init, cmds);
    Pass2(p.code, p.pending, cmds, p.table)
  }

  /** main as written, from the preloaded table. */
  function Assemble(cmds: seq<seq<string>>): (out: seq<string>)
    requires WellFormedProgram(cmds)
    ensures |out| == |Instructions(cmds)|
  {
    AssembleFrom(InitialTable(), cmds)
  }

  /** Both passes from the table init, with pass 2 re-encoding the
      instruction that owns slot p. */
  function AssembleIntendedFrom(init: map<string, nat>, cmds: seq<seq<string>>): (out: seq<string>)
    requires WellFormedProgram(cmds)
    ensures |out| == |Instructions(cmds)|
  {
    InstructionsWellFormed(cmds);
    var p := Pass1(init, cmds);
    Pass2(p.code, p.pending, Instructions(cmds), p.table)
  }

  /** main with the corrected pass 2, from the preloaded table. */
  function AssembleIntended(cmds: seq<seq<string>>): (out: seq<string>)
    requires WellFormedProgram(cmds)
    ensures |out| == |Instructions(cmds)|
  {
    AssembleIntendedFrom(InitialTable(), cmds)
  }

  lemma InstructionsWellFormed(cmds: seq<seq<string>>)
    requires WellFormedProgram(cmds)
    ensures WellFormedProgram(Instructions(cmds))
  {
  }

  /** Without labels every command is an instruction. */
  lemma {:induction false} InstructionsNoLabels(cmds: seq<seq<string>>)
    requires forall k :: 0 <= k < |cmds| ==> !IsLabel(cmds[k])
    ensures Instructions(cmds) == cmds
  {
    if cmds != [] {
      InstructionsNoLabels(cmds[..|cmds| - 1]);
      assert cmds[..|cmds| - 1] + [cmds[|cmds| - 1]] == cmds;
    }
  }

  /** Instructions of a prefix are a prefix of the instructions. */
  lemma {:induction false} InstructionsPrefix(cmds: seq<seq<string>>, n: nat)
    requires n <= |cmds|
    ensures |Instructions(cmds[..n])| <= |Instructions(cmds)|
    ensures Instructions(cmds[..n]) == Instructions(cmds)[..|Instructions(cmds[..n])|]
    decreases |cmds| - n
  {
    if n < |cmds| {
      var m := |cmds| - 1;
      assert cmds[..m][..n] == cmds[..n];
      InstructionsPrefix(cmds[..m], n);
    } else {
      assert cmds[..n] == cmds;
    }
  }

  /** Pass 1's table only grows: the table after any prefix is extended by
      the final one. */
  lemma {:induction false} Pass1Grows(init: map<string, nat>, cmds: seq<seq<string>>, n: nat)
    requires WellFormedProgram(cmds) && n <= |cmds|
    ensures Extends(Pass1(init, cmds).table, Pass1(init, cmds[..n]).table)
    decreases |cmds| - n
  {
    if n < |cmds| {
      Pass1Grows(init, cmds, n + 1);
      assert cmds[..n + 1][..n] == cmds[..n];
      var before := Pass1(init, cmds[..n]).table;
      var after := Pass1(init, cmds[..n + 1]).table;
      assert Extends(after, before);
    } else {
      assert cmds[..n] == cmds;
    }
  }

  /** Labels: a label at position k ends up bound; if it was not bound when
      pass 1 reached it, its address is the number of instructions before it;
      otherwise the earlier binding stands. */
  lemma LabelAddress(init: map<string, nat>, cmds: seq<seq<string>>, k: nat)
    requires WellFormedProgram(cmds) && k < |cmds| && IsLabel(cmds[k])
    ensures cmds[k][1] in Pass1(init, cmds).table
    ensures cmds[k][1] !in Pass1(init, cmds[..k]).table ==>
      Pass1(init, cmds).table[cmds[k][1]] == |Instructions(cmds[..k])|
    ensures cmds[k][1] in Pass1(init, cmds[..k]).table ==>
      Pass1(init, cmds).table[cmds[k][1]] == Pass1(init, cmds[..k]).table[cmds[k][1]]
  {
    assert cmds[..k + 1][..k] == cmds[..k];
    Pass1Grows(init, cmds, k + 1);
  }

  /** What pass 1 leaves in each slot, given the instructions read so far. A
      pending slot belongs to an A command and holds the placeholder word;
      every other slot holds its instruction's word under the current table,
      an A operand there being resolved. */
  predicate SlotsInvariant(s: Pass1State, instrs: seq<seq<string>>)
  {
    && |s.code| == |instrs|
    && (forall p :: 0 <= p < |instrs| ==> WellFormedCommand(instrs[p]) && !IsLabel(instrs[p]))
    && (forall j :: 0 <= j < |s.pending| ==>
         s.pending[j] < |instrs| && instrs[s.pending[j]][0] == "@" && s.code[s.pending[j]] == "0000000000000000")
    && (forall p :: 0 <= p < |instrs| && p !in s.pending ==>
         && s.code[p] == InstructionWord(instrs[p], s.table)
         && (instrs[p][0] == "@" ==> !EncodeA(Classify(instrs[p]), s.table).1))
  }

  /** A label only adds a binding, which leaves every resolved word as it is. */
  lemma StepLabelSlots(s: Pass1State, instrs: seq<seq<string>>, cmd: seq<string>)
    requires SlotsInvariant(s, instrs) && WellFormedCommand(cmd) && IsLabel(cmd)
    ensures SlotsInvariant(Step(s, cmd), instrs)
  {
    var r := Step(s, cmd);
    forall p | 0 <= p < |instrs| && p !in r.pending
      ensures r.code[p] == InstructionWord(instrs[p], r.table)
      ensures instrs[p][0] == "@" ==> !EncodeA(Classify(instrs[p]), r.table).1
    {
      if instrs[p][0] == "@" {
        EncodeAStable(Classify(instrs[p]), s.table, r.table);
      }
    }
  }

  /** An instruction takes the next slot, pending or resolved. */
  lemma StepInstructionSlots(s: Pass1State, instrs: seq<seq<string>>, cmd: seq<string>)
    requires SlotsInvariant(s, instrs) && WellFormedCommand(cmd) && !IsLabel(cmd)
    requires s.icount == |s.code|
    ensures SlotsInvariant(Step(s, cmd), instrs + [cmd])
  {
    var r := Step(s, cmd);
    var next := instrs + [cmd];
    assert r.code == s.code + [r.code[|s.code|]];
    forall p | 0 <= p < |next| && p !in r.pending
      ensures r.code[p] == InstructionWord(next[p], r.table)
      ensures next[p][0] == "@" ==> !EncodeA(Classify(next[p]), r.table).1
    {
      if p < |instrs| {
        assert p !in s.pending;
        assert next[p] == instrs[p];
      }
    }
    forall j | 0 <= j < |r.pending|
      ensures r.pending[j] < |next| && next[r.pending[j]][0] == "@" && r.code[r.pending[j]] == "0000000000000000"
    {
      if j < |s.pending| {
        assert r.pending[j] == s.pending[j];
      }
    }
  }

  /** Pass 1 keeps the slot invariant over the instructions it has read. */
  lemma {:induction false} Pass1Slots(init: map<string, nat>, cmds: seq<seq<string>>)
    requires WellFormedProgram(cmds)
    ensures SlotsInvariant(Pass1(init, cmds), Instructions(cmds))
  {
    if cmds != [] {
      var m := |cmds| - 1;
      Pass1Slots(init, cmds[..m]);
      if IsLabel(cmds[m]) {
        StepLabelSlots(Pass1(init, cmds[..m]), Instructions(cmds[..m]), cmds[m]);
      } else {
        StepInstructionSlots(Pass1(init, cmds[..m]), Instructions(cmds[..m]), cmds[m]);
      }
    }
  }

  /** With pass 2 reading the instruction that owns each slot, every word is
      that instruction's word under the completed table: forward references
      to labels are resolved, and an operand still unknown is 0. */
  lemma IntendedResolvesReferences(cmds: seq<seq<string>>)
    requires WellFormedProgram(cmds)
    ensures forall p :: 0 <= p < |AssembleIntended(cmds)| ==>
      && WellFormedCommand(Instructions(cmds)[p])
      && AssembleIntended(cmds)[p] == InstructionWord(Instructions(cmds)[p], Pass1(InitialTable(), cmds).table)
  {
    InstructionsWellFormed(cmds);
    Pass1Slots(InitialTable(), cmds);
  }

  /** Without labels, slot and command indices coincide and the code as
      written produces the intended output. */
  lemma AssembleNoLabels(cmds: seq<seq<string>>)
    requires WellFormedProgram(cmds)
    requires forall k :: 0 <= k < |cmds| ==> !IsLabel(cmds[k])
    ensures Assemble(cmds) == AssembleIntended(cmds)
  {
    InstructionsNoLabels(cmds);
  }

  /** Pass 1 over one more command is one more step. */
  lemma Pass1Append(init: map<string, nat>, cmds: seq<seq<string>>, cmd: seq<string>)
    requires WellFormedProgram(cmds) && WellFormedCommand(cmd)
    ensures WellFormedProgram(cmds + [cmd])
    ensures Pass1(init, cmds + [cmd]) == Step(Pass1(init, cmds), cmd)
  {
    assert (cmds + [cmd])[..|cmds|] == cmds;
  }

  /** A label "(L)", a forward reference "@F", the label "(F)" and "0;JMP". */
  const ForwardReference: seq<seq<string>> := [["(", "L", ")"], ["@", "F"], ["(", "F", ")"], ["0", ";", "JMP"]]

  /** A label not yet bound is bound to the instruction count. */
  lemma StepFreshLabel(s: Pass1State, name: string)
    requires WellFormedCommand(["(", name, ")"]) && name !in s.table
    ensures Step(s, ["(", name, ")"]) == Pass1State(s.table[name := s.icount], s.icount, s.code, s.pending)
  {
  }

  /** An operand that is neither a literal nor bound takes a slot with the
      placeholder word and is remembered as pending. */
  lemma StepUnresolved(s: Pass1State, symbol: string)
    requires WellFormedCommand(["@", symbol]) && !IsNumeral(symbol) && symbol !in s.table
    ensures Step(s, ["@", symbol])
      == Pass1State(s.table, s.icount + 1, s.code + ["0000000000000000"], s.pending + [s.icount])
  {
  }

  /** A C command takes a slot with its word. */
  lemma StepCompute(s: Pass1State, cmd: seq<string>)
    requires WellFormedCommand(cmd) && cmd[0] != "@" && cmd[0] != "("
    ensures Step(s, cmd) == Pass1State(s.table, s.icount + 1, s.code + [EncodeC(Classify(cmd))], s.pending)
  {
  }

  /** "0;JMP", an unconditional jump, is well formed and has this word. */
  lemma UnconditionalJumpWord()
    ensures WellFormedCommand(["0", ";", "JMP"])
    ensures EncodeC(Classify(["0", ";", "JMP"])) == "1110000101010111"
  {
    var t := ["0", ";", "JMP"];
    assert !IsNumeral(";") by { assert !IsDigit(";"[0]); }
    assert CWellFormed(t);
    assert Classify(t) == HackCommand(CCommand, t);
    UnconditionalJumpFields();
  }

  /** "0;JMP" has the default dest, comp "0" and jump "JMP". */
  lemma UnconditionalJumpFields()
    ensures CWellFormed(["0", ";", "JMP"])
    ensures EncodeC(HackCommand(CCommand, ["0", ";", "JMP"])) == "1110000101010111"
  {
    var t := ["0", ";", "JMP"];
    assert DestToken(t) == "null" && CompToken(t) == "0" && JumpToken(t) == "JMP";
  }

  /** ForwardReference is well formed, and pass 1 over it is four steps. */
  lemma ForwardReferenceSteps(init: map<string, nat>)
    ensures WellFormedProgram(ForwardReference)
    ensures WellFormedCommand(["(", "L", ")"]) && WellFormedCommand(["@", "F"])
    ensures WellFormedCommand(["(", "F", ")"]) && WellFormedCommand(["0", ";", "JMP"])
    ensures !IsNumeral("L") && !IsNumeral("F")
    ensures Pass1(init, ForwardReference) == Step(Step(Step(Step(Pass1State(init, 0, [], []),
      ["(", "L", ")"]), ["@", "F"]), ["(", "F", ")"]), ["0", ";", "JMP"])
  {
    var c0, c1, c2, c3 := ["(", "L", ")"], ["@", "F"], ["(", "F", ")"], ["0", ";", "JMP"];
    assert !IsNumeral("L") && !IsNumeral("F") && !IsNumeral(";") by {
      assert !IsDigit("L"[0]) && !IsDigit("F"[0]) && !IsDigit(";"[0]);
    }
    assert WellFormedCommand(c0) && WellFormedCommand(c1) && WellFormedCommand(c2) && WellFormedCommand(c3);
    var p0: seq<seq<string>> := [];
    var p1 := p0 + [c0];
    var p2 := p1 + [c1];
    var p3 := p2 + [c2];
    assert p3 + [c3] == ForwardReference;
    Pass1Append(init, p0, c0);
    Pass1Append(init, p1, c1);
    Pass1Append(init, p2, c2);
    Pass1Append(init, p3, c3);
  }

  /** Pass 1 over ForwardReference from any table without L and F: "@F" is
      pending in slot 0, L is bound to 0 and F to 1. */
  lemma ForwardReferencePass1(init: map<string, nat>)
    requires "L" !in init && "F" !in init
    ensures WellFormedProgram(ForwardReference)
    ensures Pass1(init, ForwardReference)
      == Pass1State(init["L" := 0]["F" := 1], 2, ["0000000000000000", "1110000101010111"], [0])
  {
    ForwardReferenceSteps(init);
    UnconditionalJumpWord();
    var s0 := Pass1State(init, 0, [], []);
    StepFreshLabel(s0, "L");
    var s1 := Pass1State(init["L" := 0], 0, [], []);
    StepUnresolved(s1, "F");
    var s2 := Pass1State(init["L" := 0], 1, ["0000000000000000"], [0]);
    StepFreshLabel(s2, "F");
    var s3 := Pass1State(init["L" := 0]["F" := 1], 1, ["0000000000000000"], [0]);
    StepCompute(s3, ["0", ";", "JMP"]);
  }

  /** The instructions of ForwardReference are "@F" and "0;JMP". */
  lemma ForwardReferenceInstructions()
    ensures Instructions(ForwardReference) == [["@", "F"], ["0", ";", "JMP"]]
  {
    var c := ForwardReference;
    assert c[..1][..0] == [] && c[..2][..1] == c[..1] && c[..3][..2] == c[..2] && c[..4][..3] == c[..3];
    assert Instructions(c[..1]) == [];
    assert Instructions(c[..2]) == [c[1]];
    assert Instructions(c[..3]) == [c[1]];
    assert c[..4] == c;
  }

  /** Pass 2 over a single pending slot. */
  lemma Pass2Single(code: seq<string>, p: nat, source: seq<seq<string>>, table: map<string, nat>)
    requires p < |code| && p < |source| && WellFormedCommand(source[p])
    ensures PendingInRange(code, [p], source)
    ensures Pass2(code, [p], source, table) == code[p := EncodeA(Classify(source[p]), table).0]
  {
    assert [p][..0] == [];
  }

  /** The word of a bound symbol is the word of its address. */
  lemma BoundSymbolWord(cmd: seq<string>, table: map<string, nat>)
    requires |cmd| >= 2 && !IsNumeral(cmd[1]) && cmd[1] in table
    ensures EncodeA(Classify(cmd), table).0 == AWord(table[cmd[1]])
  {
  }

  /** Both passes as written over ForwardReference, from any table without L
      and F: slot 0 gets the address of L. */
  lemma ForwardReferenceAsWritten(init: map<string, nat>)
    requires "L" !in init && "F" !in init
    ensures WellFormedProgram(ForwardReference)
    ensures AssembleFrom(init, ForwardReference) == ["0000000000000000", "1110000101010111"]
  {
    ForwardReferencePass1(init);
    ForwardReferenceSteps(init);
    var table := init["L" := 0]["F" := 1];
    var code := ["0000000000000000", "1110000101010111"];
    Pass2Single(code, 0, ForwardReference, table);
    BoundSymbolWord(["(", "L", ")"], table);
    AWordSmall();
  }

  /** Both passes with the corrected pass 2 over ForwardReference, from any
      table without L and F: slot 0 gets the address of F. */
  lemma ForwardReferenceIntended(init: map<string, nat>)
    requires "L" !in init && "F" !in init
    ensures WellFormedProgram(ForwardReference)
    ensures AssembleIntendedFrom(init, ForwardReference) == ["0000000000000001", "1110000101010111"]
  {
    ForwardReferencePass1(init);
    ForwardReferenceSteps(init);
    ForwardReferenceInstructions();
    var table := init["L" := 0]["F" := 1];
    var code := ["0000000000000000", "1110000101010111"];
    Pass2Single(code, 0, Instructions(ForwardReference), table);
    BoundSymbolWord(["@", "F"], table);
    AWordSmall();
  }

  /** The slot of "@F" is 0 but command 0 is the label "(L)": as written,
      pass 2 encodes L's address 0 where F's address 1 belongs. */
  lemma SlotIndexMixup()
    ensures WellFormedProgram(ForwardReference)
    ensures Assemble(ForwardReference) == ["0000000000000000", "1110000101010111"]
    ensures AssembleIntended(ForwardReference) == ["0000000000000001", "1110000101010111"]
  {
    InitialNameLengths();
    ForwardReferenceAsWritten(InitialTable());
    ForwardReferenceIntended(InitialTable());
  }

  /** The body of main without its printing: pass 1 over the commands with a
      fresh symbol table, then pass 2 over the pending slots. */
  method AssembleProgram(commands: seq<seq<string>>) returns (machineCode: seq<string>)
    requires WellFormedProgram(commands)
    ensures machineCode == Assemble(commands)
    ensures |machineCode| == |Instructions(commands)|
  {
    var symtab := new SymbolTable.Init();
    machineCode := TwoPasses(commands, symtab);
  }

  /** Both passes of main over the commands, with the symbol table symtab. */
  method TwoPasses(commands: seq<seq<string>>, symtab: SymbolTable) returns (machineCode: seq<string>)
    requires WellFormedProgram(commands)
    modifies symtab
    ensures machineCode == AssembleFrom(old(symtab.table), commands)
    ensures symtab.table == Pass1(old(symtab.table), commands).table
  {
    ghost var init := symtab.table;
    var mulligan: seq<nat> := [];
    machineCode := [];
    var icount: nat := 0;
    var i := 0;
    while i < |commands|
      invariant 0 <= i <= |commands|
      invariant Pass1(init, commands[..i]) == Pass1State(symtab.table, icount, machineCode, mulligan)
    {
      assert commands[..i + 1][..i] == commands[..i];
      var cmd := Classify(commands[i]);
      var bin, redo := "", false;
      match cmd.kind {
        case ACommand =>
          var encoded := EncodeA(cmd, symtab.table);
          bin, redo := encoded.0, encoded.1;
          if redo {
            mulligan := mulligan + [icount];
          }
          icount := icount + 1;
        case LCommand =>
          BindLabel(cmd, symtab, icount);
        case CCommand =>
          bin := EncodeC(cmd);
          icount := icount + 1;
      }
      if bin != "" {
        machineCode := machineCode + [bin];
      }
      i := i + 1;
    }
    assert commands[..i] == commands;
    ghost var firstPass := machineCode;
    var j := 0;
    while j < |mulligan|
      invariant 0 <= j <= |mulligan|
      invariant machineCode == Pass2(firstPass, mulligan[..j], commands, symtab.table)
    {
      assert mulligan[..j + 1][..j] == mulligan[..j];
      var slot := mulligan[j];
      var encoded := EncodeA(Classify(commands[slot]), symtab.table);
      machineCode := machineCode[slot := encoded.0];
      j := j + 1;
    }
    assert mulligan[..j] == mulligan;
  }
}
