/** The symbol table: a map from symbol names to addresses, preloaded with the
    names the Hack platform defines, and updated in place by the assembler. */
module Symbols {
  import opened Numerals

  /** A map built from a list of (name, address) entries, as a map literal
      is: the first entry for a name is the one that counts. */
  function MapOf(entries: seq<(string, nat)>): map<string, nat>
  {
    if entries == [] then map[] else MapOf(entries[1..])[entries[0].0 := entries[0].1]
  }

  /** No name occurs twice among the entries (a Go map literal with a repeated
      constant key does not compile). */
  predicate DistinctKeys(entries: seq<(string, nat)>)
  {
    forall i, j :: 0 <= i < j < |entries| ==> entries[i].0 != entries[j].0
  }

  /** A name that no entry carries is not in the map. */
  lemma {:induction false} MapOfMiss(entries: seq<(string, nat)>, s: string)
    requires forall i :: 0 <= i < |entries| ==> entries[i].0 != s
    ensures s !in MapOf(entries)
  {
    if entries != [] {
      MapOfMiss(entries[1..], s);
    }
  }

  /** With distinct names, every entry is in the map with its own address,
      and the map has one key per entry. */
  lemma {:induction false} MapOfEntries(entries: seq<(string, nat)>)
    requires DistinctKeys(entries)
    ensures forall i :: 0 <= i < |entries| ==>
      entries[i].0 in MapOf(entries) && MapOf(entries)[entries[i].0] == entries[i].1
    ensures |MapOf(entries)| == |entries|
  {
    if entries != [] {
      MapOfEntries(entries[1..]);
      MapOfMiss(entries[1..], entries[0].0);
      forall i | 1 <= i < |entries|
        ensures MapOf(entries)[entries[i].0] == entries[i].1
      {
        assert entries[1..][i - 1] == entries[i];
      }
    }
  }

  /** Every address in the map is one of the entries' addresses, so a bound on
      those bounds the map. */
  lemma {:induction false} MapOfValues(entries: seq<(string, nat)>, bound: nat)
    requires forall i :: 0 <= i < |entries| ==> entries[i].1 < bound
    ensures forall s | s in MapOf(entries) :: MapOf(entries)[s] < bound
  {
    if entries != [] {
      MapOfValues(entries[1..], bound);
    }
  }

  /** A lower bound on the entries' name lengths bounds the map's keys. */
  lemma {:induction false} MapOfKeyLengths(entries: seq<(string, nat)>, n: nat)
    requires forall i :: 0 <= i < |entries| ==> |entries[i].0| >= n
    ensures forall s | s in MapOf(entries) :: |s| >= n
  {
    if entries != [] {
      MapOfKeyLengths(entries[1..], n);
    }
  }

  /** The 23 entries initSymbolTable preloads, in the order it lists them. The
      keyboard entry is spelled in lower case ("kbd"), as the assembler writes it. */
  const Preloaded: seq<(string, nat)> := [
    ("SP", 0), ("LCL", 1), ("ARG", 2), ("THIS", 3), ("THAT", 4),
    ("R0", 0), ("R1", 1), ("R2", 2), ("R3", 3), ("R4", 4), ("R5", 5), ("R6", 6), ("R7", 7),
    ("R8", 8), ("R9", 9), ("R10", 10), ("R11", 11), ("R12", 12), ("R13", 13), ("R14", 14), ("R15", 15),
    ("SCREEN", 16384), ("kbd", 24576)
  ]

  function InitialTable(): map<string, nat>
  {
    MapOf(Preloaded)
  }

  /** The decimal spelling of a number, most significant digit first. */
  function Decimal(n: nat): string
  {
    if n < 10 then ["0123456789"[n]] else Decimal(n / 10) + ["0123456789"[n % 10]]
  }

  /** The name of general register k: "R" followed by k in decimal. */
  function RegisterName(k: nat): string
  {
    "R" + Decimal(k)
  }

  /** The r-th decimal digit character stands for r. */
  lemma DigitChar(r: nat)
    requires r < 10
    ensures IsDigit("0123456789"[r]) && "0123456789"[r] as int - '0' as int == r
  {
  }

  /** The decimal spelling reads back as the number. */
  lemma {:induction false} DecimalValue(n: nat)
    ensures AllDigits(Decimal(n)) && DigitsValue(Decimal(n)) == n
  {
    var d := Decimal(n);
    DigitChar(n % 10);
    if n >= 10 {
      DecimalValue(n / 10);
      assert d[..|d| - 1] == Decimal(n / 10);
      assert d[|d| - 1] == "0123456789"[n % 10];
    } else {
      assert d == ["0123456789"[n]];
      assert d[..0] == [];
    }
  }

  /** Different registers have different names. */
  lemma RegisterNameInjective(k: nat, m: nat)
    requires RegisterName(k) == RegisterName(m)
    ensures k == m
  {
    assert Decimal(k) == RegisterName(k)[1..];
    assert Decimal(m) == RegisterName(m)[1..];
    DecimalValue(k);
    DecimalValue(m);
  }

  /** Only the register entries, 5 to 20, have a name starting with 'R'. */
  lemma PreloadedInitial(i: nat)
    requires i < |Preloaded|
    ensures |Preloaded[i].0| > 0 && (Preloaded[i].0[0] == 'R' <==> 5 <= i < 21)
  {
  }

  lemma PreloadedDistinct()
    ensures DistinctKeys(Preloaded)
  {
    forall i, j | 0 <= i < j < |Preloaded|
      ensures Preloaded[i].0 != Preloaded[j].0
    {
      if 5 <= i && j < 21 {
        RegisterEntry(i - 5);
        RegisterEntry(j - 5);
        if Preloaded[i].0 == Preloaded[j].0 {
          RegisterNameInjective(i - 5, j - 5);
        }
      } else if 5 <= i < 21 || 5 <= j < 21 {
        PreloadedInitial(i);
        PreloadedInitial(j);
      } else {
        assert i < 5 || 21 <= i;
        assert j < 5 || 21 <= j;
      }
    }
  }

  /** Entry 5 + k of the preloaded list is register k. */
  lemma RegisterEntry(k: nat)
    requires k < 16
    ensures Preloaded[5 + k] == (RegisterName(k), k)
  {
    var digits := "0123456789";
    if k < 10 {
      assert RegisterName(k) == ['R', digits[k]];
    } else {
      assert Decimal(k) == Decimal(1) + [digits[k - 10]];
      assert RegisterName(k) == ['R', '1', digits[k - 10]];
    }
    assert k == 0 || k == 1 || k == 2 || k == 3 || k == 4 || k == 5 || k == 6 || k == 7
      || k == 8 || k == 9 || k == 10 || k == 11 || k == 12 || k == 13 || k == 14 || k == 15;
  }

  /** Every preloaded entry is in the initial table with its own address. */
  lemma InitialEntry(i: nat)
    requires i < |Preloaded|
    ensures Preloaded[i].0 in InitialTable() && InitialTable()[Preloaded[i].0] == Preloaded[i].1
  {
    PreloadedDistinct();
    MapOfEntries(Preloaded);
  }

  /** The table starts with exactly 23 names. */
  lemma InitialSize()
    ensures |InitialTable()| == 23
  {
    PreloadedDistinct();
    MapOfEntries(Preloaded);
  }

  /** The virtual-machine pointers SP, LCL, ARG, THIS and THAT are 0 to 4. */
  lemma InitialPointers()
    ensures "SP" in InitialTable() && InitialTable()["SP"] == 0
    ensures "LCL" in InitialTable() && InitialTable()["LCL"] == 1
    ensures "ARG" in InitialTable() && InitialTable()["ARG"] == 2
    ensures "THIS" in InitialTable() && InitialTable()["THIS"] == 3
    ensures "THAT" in InitialTable() && InitialTable()["THAT"] == 4
  {
    InitialEntry(0);
    InitialEntry(1);
    InitialEntry(2);
    InitialEntry(3);
    InitialEntry(4);
  }

  /** Register k is in the initial table under its name. */
  lemma InitialRegister(k: nat)
    requires k < 16
    ensures RegisterName(k) in InitialTable() && InitialTable()[RegisterName(k)] == k
  {
    RegisterEntry(k);
    InitialEntry(5 + k);
  }

  /** R0 to R15 name addresses 0 to 15. */
  lemma InitialRegisters()
    ensures forall k :: 0 <= k < 16 ==> RegisterName(k) in InitialTable() && InitialTable()[RegisterName(k)] == k
  {
    forall k | 0 <= k < 16
      ensures RegisterName(k) in InitialTable() && InitialTable()[RegisterName(k)] == k
    {
      InitialRegister(k);
    }
  }

  /** The screen and keyboard maps, the keyboard under the lower-case "kbd". */
  lemma InitialDevices()
    ensures "SCREEN" in InitialTable() && InitialTable()["SCREEN"] == 0x4000
    ensures "kbd" in InitialTable() && InitialTable()["kbd"] == 0x6000
  {
    InitialEntry(21);
    InitialEntry(22);
  }

  /** The keyboard is not reachable under its upper-case name. */
  lemma InitialKeyboardCase()
    ensures "KBD" !in InitialTable()
  {
    MapOfMiss(Preloaded, "KBD");
  }

  /** Every preloaded address is below 2^15, so it fits an A-instruction. */
  lemma InitialBound()
    ensures forall s | s in InitialTable() :: InitialTable()[s] < 0x8000
  {
    MapOfValues(Preloaded, 0x8000);
  }

  /** Every binding of small is also in big, with the same address. */
  predicate Extends(big: map<string, nat>, small: map<string, nat>)
  {
    forall s :: s in small ==> s in big && big[s] == small[s]
  }

  /** Every preloaded name has at least two characters, so no one-character
      label or variable is preloaded. */
  lemma InitialNameLengths()
    ensures forall s | s in InitialTable() :: |s| >= 2
  {
    MapOfKeyLengths(Preloaded, 2);
  }

  /** The assembler's SymbolTable: the one map it holds is updated in place. */
  class SymbolTable {
    var table: map<string, nat>

    /** initSymbolTable */
    constructor Init()
      ensures table == InitialTable()
    {
      table := InitialTable();
    }

    predicate Contains(symbol: string)
      reads this
    {
      symbol in table
    }

    /** The address of a symbol; 0 (Go's zero value) for one not in the table. */
    function GetAddress(symbol: string): (address: nat)
      reads this
      ensures !Contains(symbol) ==> address == 0
      ensures Contains(symbol) ==> address == table[symbol]
    {
      if symbol in table then table[symbol] else 0
    }

    /** setEntry: binds or rebinds one symbol and leaves every other one alone. */
    method SetEntry(symbol: string, address: nat)
      modifies this
      ensures Contains(symbol) && GetAddress(symbol) == address
      ensures forall other :: other != symbol ==>
        Contains(other) == old(Contains(other)) && GetAddress(other) == old(GetAddress(other))
      ensures table == old(table)[symbol := address]
    {
      table := table[symbol := address];
    }
  }
}
