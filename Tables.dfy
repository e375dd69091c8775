/** The three fixed bit-field tables of the C-instruction (dest, comp, jump).
    Each table is the function k |-> xLookup[k] of the assembler's Go map: the
    code of a mnemonic in the table, or the empty string (Go's zero value)
    for any other string. No code in any table is empty, so "k is a key" is
    "the lookup is not empty". */
module HackTables {
  import opened Numerals

  function DestLookup(k: string): (code: string)
    ensures code != "" ==> |code| == 3 && IsBits(code) && DestMnemonic(code) == k
  {
    match k
    case "null" => "000"
    case "M"    => "001"
    case "D"    => "010"
    case "MD"   => "011"
    case "A"    => "100"
    case "AM"   => "101"
    case "AD"   => "110"
    case "AMD"  => "111"
    case _      => ""
  }

  /** The comp table as written: "-M" carries the code of "-A". */
  function CompLookup(k: string): (code: string)
    ensures code != "" ==> |code| == 7 && IsBits(code)
    ensures code != "" && k != "-M" ==> CompMnemonic(code) == k
  {
    match k
    case "0"   => "0101010"
    case "1"   => "0111111"
    case "-1"  => "0111010"
    case "D"   => "0001100"
    case "A"   => "0110000"
    case "M"   => "1110000"
    case "!D"  => "0001101"
    case "!A"  => "0110001"
    case "!M"  => "1110001"
    case "-D"  => "0001111"
    case "-A"  => "0110011"
    case "-M"  => "0110011"
    case "D+1" => "0011111"
    case "A+1" => "0110111"
    case "M+1" => "1110111"
    case "D-1" => "0001110"
    case "A-1" => "0110010"
    case "M-1" => "1110010"
    case "D+A" => "0000010"
    case "D+M" => "1000010"
    case "D-A" => "0010011"
    case "D-M" => "1010011"
    case "A-D" => "0000111"
    case "M-D" => "1000111"
    case "D&A" => "0000000"
    case "D&M" => "1000000"
    case "D|A" => "0010101"
    case "D|M" => "1010101"
    case _     => ""
  }

  function JumpLookup(k: string): (code: string)
    ensures code != "" ==> |code| == 3 && IsBits(code) && JumpMnemonic(code) == k
  {
    match k
    case "null" => "000"
    case "JGT"  => "001"
    case "JEQ"  => "010"
    case "JGE"  => "011"
    case "JLT"  => "100"
    case "JNE"  => "101"
    case "JLE"  => "110"
    case "JMP"  => "111"
    case _      => ""
  }

  predicate IsDest(k: string) { DestLookup(k) != "" }
  predicate IsComp(k: string) { CompLookup(k) != "" }
  predicate IsJump(k: string) { JumpLookup(k) != "" }

  /** The comp mnemonic that an operand-A or operand-M code stands for in the
      Hack instruction set (one mnemonic per code). */
  function CompMnemonic(code: string): string
  {
    match code
    case "0101010" => "0"
    case "0111111" => "1"
    case "0111010" => "-1"
    case "0001100" => "D"
    case "0110000" => "A"
    case "1110000" => "M"
    case "0001101" => "!D"
    case "0110001" => "!A"
    case "1110001" => "!M"
    case "0001111" => "-D"
    case "0110011" => "-A"
    case "1110011" => "-M"
    case "0011111" => "D+1"
    case "0110111" => "A+1"
    case "1110111" => "M+1"
    case "0001110" => "D-1"
    case "0110010" => "A-1"
    case "1110010" => "M-1"
    case "0000010" => "D+A"
    case "1000010" => "D+M"
    case "0010011" => "D-A"
    case "1010011" => "D-M"
    case "0000111" => "A-D"
    case "1000111" => "M-D"
    case "0000000" => "D&A"
    case "1000000" => "D&M"
    case "0010101" => "D|A"
    case "1010101" => "D|M"
    case _         => ""
  }

  /** The dest mnemonic a dest code stands for. */
  function DestMnemonic(code: string): string
  {
    match code
    case "000" => "null"
    case "001" => "M"
    case "010" => "D"
    case "011" => "MD"
    case "100" => "A"
    case "101" => "AM"
    case "110" => "AD"
    case "111" => "AMD"
    case _     => ""
  }

  /** The jump mnemonic a jump code stands for. */
  function JumpMnemonic(code: string): string
  {
    match code
    case "000" => "null"
    case "001" => "JGT"
    case "010" => "JEQ"
    case "011" => "JGE"
    case "100" => "JLT"
    case "101" => "JNE"
    case "110" => "JLE"
    case "111" => "JMP"
    case _     => ""
  }

  /** The comp table with "-M" given the M-operand code; every other entry is
      the one the assembler declares. */
  function CompLookupIntended(k: string): string
  {
    if k == "-M" then "1110011" else CompLookup(k)
  }

  predicate MentionsM(k: string) { 'M' in k }

  /** Every comp code is 7 binary digits. */
  lemma CompWidths()
    ensures forall k | IsComp(k) :: |CompLookup(k)| == 7 && IsBits(CompLookup(k))
  {
  }

  /** A dest code is 3 binary digits saying whether A, D and M (in that
      order) are written. */
  lemma DestBits()
    ensures forall k | IsDest(k) :: |DestLookup(k)| == 3 && IsBits(DestLookup(k))
    ensures forall k | IsDest(k) ::
      && (DestLookup(k)[0] == '1' <==> 'A' in k)
      && (DestLookup(k)[1] == '1' <==> 'D' in k)
      && (DestLookup(k)[2] == '1' <==> 'M' in k)
  {
  }

  /** A dest code decodes back to its mnemonic. */
  lemma DestDecodes()
    ensures forall k | IsDest(k) :: DestMnemonic(DestLookup(k)) == k
  {
  }

  /** Whether the jump with this mnemonic is taken when the ALU output is v. */
  predicate JumpTaken(mnemonic: string, v: int)
  {
    match mnemonic
    case "JGT" => v > 0
    case "JEQ" => v == 0
    case "JGE" => v >= 0
    case "JLT" => v < 0
    case "JNE" => v != 0
    case "JLE" => v <= 0
    case "JMP" => true
    case _ => false
  }

  /** A jump code is 3 binary digits selecting the outcomes "negative",
      "zero" and "positive" of the ALU output, and it decodes back to its
      mnemonic. */
  lemma JumpBits()
    ensures forall k | IsJump(k) :: |JumpLookup(k)| == 3 && IsBits(JumpLookup(k))
    ensures forall k, v | IsJump(k) :: JumpTaken(k, v) <==>
      || (v < 0 && JumpLookup(k)[0] == '1')
      || (v == 0 && JumpLookup(k)[1] == '1')
      || (v > 0 && JumpLookup(k)[2] == '1')
    ensures forall k | IsJump(k) :: JumpMnemonic(JumpLookup(k)) == k
  {
  }

  /** As written, the code of every comp mnemonic but "-M" decodes back to it;
      "-M" gets the code of "-A", whose operand bit selects A. */
  lemma CompDecodes()
    ensures forall k | IsComp(k) && k != "-M" :: CompMnemonic(CompLookup(k)) == k
    ensures CompLookup("-M") == CompLookup("-A") && CompMnemonic(CompLookup("-M")) == "-A"
    ensures CompLookup("-M")[0] == '0' && MentionsM("-M")
  {
  }

  /** As written, the operand bit of a comp code is '1' exactly for the
      mnemonics that read M, except for "-M". */
  lemma CompOperandBit()
    ensures forall k | IsComp(k) && k != "-M" :: (CompLookup(k)[0] == '1' <==> MentionsM(k))
  {
  }

  /** Corrected table: the same mnemonics, every code decodes back to its
      mnemonic, and the operand bit is '1' exactly for the mnemonics that read M. */
  lemma IntendedCompDecodes()
    ensures forall k :: (CompLookupIntended(k) != "") == IsComp(k)
    ensures forall k | IsComp(k) :: |CompLookupIntended(k)| == 7 && IsBits(CompLookupIntended(k))
    ensures forall k | IsComp(k) :: CompMnemonic(CompLookupIntended(k)) == k
    ensures forall k | IsComp(k) :: (CompLookupIntended(k)[0] == '1' <==> MentionsM(k))
  {
    CompWidths();
    CompDecodes();
    CompOperandBit();
    assert MentionsM("-M") by { assert "-M"[1] == 'M'; }
  }
}
