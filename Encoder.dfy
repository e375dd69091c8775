/** Classification of a token list (createHCFromTokens) and the three
    per-command encoders: C_CMDToBin, A_CMDToBin and L_CMDToBin. */
module Encoder {
  import opened Numerals
  import opened HackTables
  import opened Symbols

  /** The three command types A_COMMAND, C_COMMAND and L_COMMAND. */
  datatype Kind = ACommand | CCommand | LCommand

  /** A HackCommand: its type and the token list it was made from. */
  datatype HackCommand = HackCommand(kind: Kind, tokens: seq<string>)

  /** createHCFromTokens: the first token decides the type; the tokens are
      kept as they are. */
  function Classify(tokens: seq<string>): (hc: HackCommand)
    requires |tokens| > 0
    ensures hc.tokens == tokens
    ensures hc.kind == ACommand <==> tokens[0] == "@"
    ensures hc.kind == LCommand <==> tokens[0] == "("
    ensures hc.kind == CCommand <==> tokens[0] != "@" && tokens[0] != "("
  {
    if tokens[0] == "@" then HackCommand(ACommand, tokens)
    else if tokens[0] == "(" then HackCommand(LCommand, tokens)
    else HackCommand(CCommand, tokens)
  }

  // ---------------------------------------------------------------- C commands

  /** Where the comp token is: after "dest =" if the second token is "=",
      else first. */
  function CompOffset(t: seq<string>): nat
    requires |t| >= 2
  {
    if t[1] == "=" then 2 else 0
  }

  /** The token lists C_CMDToBin can index without going out of range: a
      second token, a comp token after "=", and a jump token whenever
      anything follows the comp token. */
  predicate CWellFormed(t: seq<string>)
  {
    && |t| >= 2
    && (t[1] == "=" ==> |t| >= 3)
    && (|t| > CompOffset(t) + 1 ==> |t| >= CompOffset(t) + 3)
  }

  /** The dest mnemonic the encoder looks up: the first token before "=", or "null". */
  function DestToken(t: seq<string>): string
    requires CWellFormed(t)
  {
    if t[1] == "=" then t[0] else "null"
  }

  function CompToken(t: seq<string>): string
    requires CWellFormed(t)
  {
    t[CompOffset(t)]
  }

  /** The jump mnemonic: two tokens after comp (past the ";") if anything
      follows comp, or "null". */
  function JumpToken(t: seq<string>): string
    requires CWellFormed(t)
  {
    if |t| > CompOffset(t) + 1 then t[CompOffset(t) + 2] else "null"
  }

  /** All three mnemonics are keys of their tables. */
  predicate CFieldsKnown(t: seq<string>)
    requires CWellFormed(t)
  {
    IsDest(DestToken(t)) && IsComp(CompToken(t)) && IsJump(JumpToken(t))
  }

  /** C_CMDToBin, as written: "111", then the dest, comp and jump codes, each
      the empty string when its mnemonic is not in the table. */
  function EncodeC(hc: HackCommand): (word: string)
    requires CWellFormed(hc.tokens)
    ensures |word| >= 3 && word[..3] == "111"
    ensures |word| == 16 <==> CFieldsKnown(hc.tokens)
    ensures CFieldsKnown(hc.tokens) ==>
      && IsBits(word)
      && word[3..6] == DestLookup(DestToken(hc.tokens))
      && word[6..13] == CompLookup(CompToken(hc.tokens))
      && word[13..] == JumpLookup(JumpToken(hc.tokens))
  {
    var t := hc.tokens;
    DestBits();
    CompWidths();
    JumpBits();
    "111" + DestLookup(DestToken(t)) + CompLookup(CompToken(t)) + JumpLookup(JumpToken(t))
  }

  /** Reading the fields back from an encoded word, in the order EncodeC
      writes them, gives the dest and jump mnemonics and the comp mnemonic,
      except that "-M" reads back as "-A". */
  lemma EncodeCDecodes(hc: HackCommand)
    requires CWellFormed(hc.tokens) && CFieldsKnown(hc.tokens)
    ensures DestMnemonic(EncodeC(hc)[3..6]) == DestToken(hc.tokens)
    ensures JumpMnemonic(EncodeC(hc)[13..]) == JumpToken(hc.tokens)
    ensures CompToken(hc.tokens) != "-M" ==> CompMnemonic(EncodeC(hc)[6..13]) == CompToken(hc.tokens)
    ensures CompToken(hc.tokens) == "-M" ==> CompMnemonic(EncodeC(hc)[6..13]) == "-A"
  {
    DestBits();
    DestDecodes();
    JumpBits();
    CompDecodes();
  }

  /** Two commands with known fields and the same word agree on dest, jump
      and comp, save that "-A" and "-M" are not told apart. */
  lemma EncodeCUnambiguous(a: HackCommand, b: HackCommand)
    requires CWellFormed(a.tokens) && CFieldsKnown(a.tokens)
    requires CWellFormed(b.tokens) && CFieldsKnown(b.tokens)
    requires EncodeC(a) == EncodeC(b)
    ensures DestToken(a.tokens) == DestToken(b.tokens)
    ensures JumpToken(a.tokens) == JumpToken(b.tokens)
    ensures CompToken(a.tokens) == CompToken(b.tokens)
      || {CompToken(a.tokens), CompToken(b.tokens)} == {"-A", "-M"}
  {
    EncodeCDecodes(a);
    EncodeCDecodes(b);
  }

  /** The C-instruction as the Hack machine lays it out: "111", then the
      7-bit comp field (operand bit first), then dest, then jump; the comp
      code of "-M" is the M-operand one. */
  function EncodeCHack(hc: HackCommand): (word: string)
    requires CWellFormed(hc.tokens)
    ensures |word| >= 3 && word[..3] == "111"
  {
    var t := hc.tokens;
    "111" + CompLookupIntended(CompToken(t)) + DestLookup(DestToken(t)) + JumpLookup(JumpToken(t))
  }

  /** How the Hack CPU reads a C-instruction word: comp from bits 3 to 9,
      dest from bits 10 to 12 and jump from bits 13 to 15. */
  function DecodeCHack(word: string): (fields: (string, string, string))
    requires |word| == 16
  {
    (DestMnemonic(word[10..13]), CompMnemonic(word[3..10]), JumpMnemonic(word[13..]))
  }

  /** The Hack layout is a 16-bit word from which the CPU's reading recovers
      every field. */
  lemma EncodeCHackDecodes(hc: HackCommand)
    requires CWellFormed(hc.tokens) && CFieldsKnown(hc.tokens)
    ensures |EncodeCHack(hc)| == 16 && IsBits(EncodeCHack(hc))
    ensures DecodeCHack(EncodeCHack(hc)) == (DestToken(hc.tokens), CompToken(hc.tokens), JumpToken(hc.tokens))
  {
    var t := hc.tokens;
    DestBits();
    DestDecodes();
    JumpBits();
    IntendedCompDecodes();
    var w := EncodeCHack(hc);
    assert w[3..10] == CompLookupIntended(CompToken(t));
    assert w[10..13] == DestLookup(DestToken(t));
    assert w[13..] == JumpLookup(JumpToken(t));
  }

  /** "M=D" as written: dest lands where the CPU reads the operand bit and the
      first comp bits, so the CPU sees no valid comp and the dest A. */
  lemma EncodeCFieldOrder()
    ensures EncodeC(HackCommand(CCommand, ["M", "=", "D"])) == "1110010001100000"
    ensures DecodeCHack(EncodeC(HackCommand(CCommand, ["M", "=", "D"]))) == ("A", "", "null")
    ensures EncodeCHack(HackCommand(CCommand, ["M", "=", "D"])) == "1110001100001000"
  {
    var t := ["M", "=", "D"];
    assert DestToken(t) == "M" && CompToken(t) == "D" && JumpToken(t) == "null";
    var w := "1110010001100000";
    assert w[3..10] == "0010001";
    assert w[10..13] == "100";
    assert w[13..] == "000";
  }

  // ---------------------------------------------------------------- A commands

  /** A_CMDToBin: a base-10 literal is encoded as it is; any other operand is
      looked up; an operand not in the table is encoded as 0 and flagged for
      a second attempt (the second component, "redo"). */
  function EncodeA(hc: HackCommand, table: map<string, nat>): (result: (string, bool))
    requires |hc.tokens| >= 2 && OperandInScope(hc.tokens[1])
    ensures result.1 <==> !IsNumeral(hc.tokens[1]) && hc.tokens[1] !in table
    ensures IsBits(result.0) && |result.0| >= 16
    ensures IsNumeral(hc.tokens[1]) ==> BitsValue(result.0) == NumeralValue(hc.tokens[1])
    ensures !IsNumeral(hc.tokens[1]) && hc.tokens[1] in table ==> BitsValue(result.0) == table[hc.tokens[1]]
    ensures result.1 ==> result.0 == "0000000000000000"
  {
    var symbol := hc.tokens[1];
    var (i, redo) :=
      if IsNumeral(symbol) then (NumeralValue(symbol) as nat, false)
      else if symbol in table then (table[symbol], false)
      else (0, true);
    AWordDecodes(i);
    assert redo ==> AWord(i) == "0000000000000000";
    (AWord(i), redo)
  }

  /** A word of an operand whose value is below 2^16 is exactly 16 bits. */
  lemma EncodeAWidth(hc: HackCommand, table: map<string, nat>)
    requires |hc.tokens| >= 2 && OperandInScope(hc.tokens[1])
    requires IsNumeral(hc.tokens[1]) ==> NumeralValue(hc.tokens[1]) < 0x1_0000
    requires !IsNumeral(hc.tokens[1]) && hc.tokens[1] in table ==> table[hc.tokens[1]] < 0x1_0000
    ensures |EncodeA(hc, table).0| == 16
  {
    var symbol := hc.tokens[1];
    if IsNumeral(symbol) {
      AWordFormat(NumeralValue(symbol) as nat);
    } else if symbol in table {
      AWordFormat(table[symbol]);
    } else {
      AWordFormat(0);
    }
  }

  /** Once an operand is resolved, growing the table by new bindings does not
      change its word. */
  lemma EncodeAStable(hc: HackCommand, small: map<string, nat>, big: map<string, nat>)
    requires |hc.tokens| >= 2 && OperandInScope(hc.tokens[1])
    requires Extends(big, small)
    requires !EncodeA(hc, small).1
    ensures EncodeA(hc, big) == EncodeA(hc, small)
  {
    if !IsNumeral(hc.tokens[1]) {
      assert hc.tokens[1] in small;
    }
  }

  // ---------------------------------------------------------------- L commands

  /** L_CMDToBin on the table's value: the label gets the address only if it
      has none yet. */
  function Bind(table: map<string, nat>, symbol: string, address: nat): (r: map<string, nat>)
    ensures symbol in r
    ensures r[symbol] == if symbol in table then table[symbol] else address
    ensures Extends(r, table)
    ensures forall other :: other != symbol ==> (other in r <==> other in table)
  {
    if symbol in table then table else table[symbol := address]
  }

  /** L_CMDToBin: binds the label (the second token) to the instruction
      count i in the assembler's symbol table, unless it is already bound. */
  method BindLabel(hc: HackCommand, st: SymbolTable, i: nat)
    requires |hc.tokens| >= 2
    modifies st
    ensures st.table == Bind(old(st.table), hc.tokens[1], i)
  {
    var symbol := hc.tokens[1];
    if !st.Contains(symbol) {
      st.SetEntry(symbol, i);
    }
  }
}
