/** Splitting source lines into tokens (tokenizeLine) and dropping the lines
    that give none (the filter of readAndTokenize). A string is a sequence of
    characters; for ASCII lines that is the byte indexing the Go code uses. */
module Tokenizer {

  predicate IsWhitespace(c: char) { c == ' ' || c == '\t' }

  /** The five characters that always form a token of their own. */
  predicate IsPunct(c: char) { c == '@' || c == '=' || c == ';' || c == '(' || c == ')' }

  predicate IsSeparator(c: char) { IsWhitespace(c) || IsPunct(c) }

  /** The word read so far, as a token list: nothing if it is empty. */
  function Flush(word: string): seq<string>
  {
    if word == [] then [] else [word]
  }

  /** Reference tokenization, one character at a time, carrying the word read
      so far: whitespace ends the word, a punctuation mark ends it and is a
      token by itself, any other character extends it. */
  function Lex(s: string, word: string): seq<string>
  {
    if s == [] then Flush(word)
    else if IsWhitespace(s[0]) then Flush(word) + Lex(s[1..], [])
    else if IsPunct(s[0]) then Flush(word) + [[s[0]]] + Lex(s[1..], [])
    else Lex(s[1..], word + [s[0]])
  }

  function Tokens(s: string): seq<string>
  {
    Lex(s, [])
  }

  /** strings.Index(s, "//"): the first position of "//" in s, or -1. */
  function CommentIndex(s: string): (r: int)
    ensures r == -1 || (0 <= r < |s| - 1 && s[r] == '/' && s[r + 1] == '/')
    ensures forall j :: 0 <= j < |s| - 1 && (r == -1 || j < r) ==> !(s[j] == '/' && s[j + 1] == '/')
  {
    if |s| < 2 then -1
    else if s[0] == '/' && s[1] == '/' then 0
    else
      var r := CommentIndex(s[1..]);
      if r == -1 then -1 else r + 1
  }

  /** Where tokenizeLine stops reading: at the first "//", or else before the
      last character of the line. */
  function CutPosition(line: string): (end: nat)
    requires |line| > 0
    ensures end < |line|
  {
    var p := CommentIndex(line);
    if p > -1 then p else |line| - 1
  }

  /** The tokens of one line. */
  function LineTokens(line: string): seq<string>
    requires |line| > 0
  {
    Tokens(line[..CutPosition(line)])
  }

  /** Without a comment the cut drops the line's last character whatever it
      is: on a line ending in a newline alone, "@21" reads as "@2". */
  lemma LastCharacterDropped()
    ensures LineTokens("@21") == ["@", "2"]
    ensures Tokens("@21") == ["@", "21"]
  {
    assert CommentIndex("@21") == -1;
    assert "@21"[..2] == "@2";
    assert "@21"[1..] == "21" && "21"[1..] == "1" && "1"[1..] == [];
    assert "@2"[1..] == "2" && "2"[1..] == [];
    assert "2" + ['1'] == "21" && [] + ['2'] == "2";
    assert Lex([], "21") == ["21"];
    assert Lex("1", "2") == ["21"];
    assert Lex("21", []) == ["21"];
    assert Lex("2", []) == ["2"];
  }

  /** The cut that drops only a carriage return: at the first "//", or
      before a final '\r', or else at the end of the line. */
  function CutPositionIntended(line: string): (end: nat)
    ensures end <= |line|
  {
    var p := CommentIndex(line);
    if p > -1 then p
    else if |line| > 0 && line[|line| - 1] == '\r' then |line| - 1
    else |line|
  }

  function LineTokensIntended(line: string): seq<string>
  {
    Tokens(line[..CutPositionIntended(line)])
  }

  /** With the corrected cut, a line without comment reads the same with or
      without a carriage return at its end, and loses nothing. */
  lemma IntendedCut(line: string)
    requires CommentIndex(line) == -1
    requires |line| == 0 || line[|line| - 1] != '\r'
    ensures LineTokensIntended(line) == Tokens(line)
    ensures LineTokensIntended(line + "\r") == Tokens(line)
  {
    var s := line + "\r";
    assert line[..|line|] == line;
    assert s[..|line|] == line;
    forall j | 0 <= j < |s| - 1
      ensures !(s[j] == '/' && s[j + 1] == '/')
    {
      if j + 1 < |line| {
        assert s[j] == line[j] && s[j + 1] == line[j + 1];
      }
    }
  }

  /** tokenizeLine: a single left-to-right scan that keeps the start of the
      token being read. */
  method TokenizeLine(line: string) returns (tokens: seq<string>)
    requires |line| > 0
    ensures tokens == LineTokens(line)
  {
    var end := |line| - 1;
    var commentPos := CommentIndex(line);
    if commentPos > -1 {
      end := commentPos;
    }
    var start := 0;
    tokens := [];
    var i := 0;
    assert line[0..end] == line[..end];
    while i < end
      invariant 0 <= start <= i <= end
      invariant tokens + Lex(line[i..end], line[start..i]) == Tokens(line[..end])
    {
      var c := line[i];
      assert line[i..end][1..] == line[i + 1..end];
      if IsWhitespace(c) {
        if start < i {
          tokens := tokens + [line[start..i]];
        }
        start := i + 1;
      } else if IsPunct(c) {
        if start < i {
          tokens := tokens + [line[start..i]];
        }
        tokens := tokens + [[c]];
        start := i + 1;
      } else {
        assert line[start..i + 1] == line[start..i] + [c];
      }
      i := i + 1;
    }
    assert line[end..end] == [];
    if start < end {
      tokens := tokens + [line[start..end]];
    }
  }

  /** What a token looks like: non-empty, without whitespace, and either a
      single punctuation mark or free of punctuation. */
  predicate WellFormedToken(t: string)
  {
    && |t| > 0
    && (forall j :: 0 <= j < |t| ==> !IsWhitespace(t[j]))
    && ((|t| == 1 && IsPunct(t[0])) || (forall j :: 0 <= j < |t| ==> !IsPunct(t[j])))
  }

  /** No separator in the word read so far. */
  predicate PlainWord(word: string)
  {
    forall j :: 0 <= j < |word| ==> !IsSeparator(word[j])
  }

  lemma {:induction false} LexWellFormed(s: string, word: string)
    requires PlainWord(word)
    ensures forall k :: 0 <= k < |Lex(s, word)| ==> WellFormedToken(Lex(s, word)[k])
    decreases |s|
  {
    if s != [] {
      if IsSeparator(s[0]) {
        LexWellFormed(s[1..], []);
      } else {
        LexWellFormed(s[1..], word + [s[0]]);
      }
    }
  }

  /** Every token is non-empty and free of whitespace, and a token holding a
      punctuation mark is that mark alone. */
  lemma TokensWellFormed(s: string)
    ensures forall k :: 0 <= k < |Tokens(s)| ==> WellFormedToken(Tokens(s)[k])
  {
    LexWellFormed(s, []);
  }

  function Concat(ts: seq<string>): string
  {
    if ts == [] then "" else ts[0] + Concat(ts[1..])
  }

  function StripWhitespace(s: string): string
  {
    if s == [] then ""
    else (if IsWhitespace(s[0]) then "" else [s[0]]) + StripWhitespace(s[1..])
  }

  lemma {:induction false} ConcatAppend(a: seq<string>, b: seq<string>)
    ensures Concat(a + b) == Concat(a) + Concat(b)
  {
    if a != [] {
      assert (a + b)[1..] == a[1..] + b;
      ConcatAppend(a[1..], b);
    } else {
      assert a + b == b;
    }
  }

  lemma {:induction false} LexConcat(s: string, word: string)
    ensures Concat(Lex(s, word)) == word + StripWhitespace(s)
    decreases |s|
  {
    if s == [] {
      assert word + [] == word;
    } else if IsWhitespace(s[0]) {
      LexConcat(s[1..], []);
      ConcatAppend(Flush(word), Lex(s[1..], []));
    } else if IsPunct(s[0]) {
      LexConcat(s[1..], []);
      ConcatAppend(Flush(word) + [[s[0]]], Lex(s[1..], []));
      ConcatAppend(Flush(word), [[s[0]]]);
    } else {
      LexConcat(s[1..], word + [s[0]]);
    }
  }

  /** Nothing but whitespace is lost: the tokens, put back together, are the
      input with its spaces and tabs removed. */
  lemma TokensConcat(s: string)
    ensures Concat(Tokens(s)) == StripWhitespace(s)
  {
    LexConcat(s, []);
  }

  function Occurrences(s: string, c: char): nat
  {
    if s == [] then 0 else (if s[0] == c then 1 else 0) + Occurrences(s[1..], c)
  }

  function CountToken(ts: seq<string>, t: string): nat
  {
    if ts == [] then 0 else (if ts[0] == t then 1 else 0) + CountToken(ts[1..], t)
  }

  lemma {:induction false} CountTokenAppend(a: seq<string>, b: seq<string>, t: string)
    ensures CountToken(a + b, t) == CountToken(a, t) + CountToken(b, t)
  {
    if a != [] {
      assert (a + b)[1..] == a[1..] + b;
      CountTokenAppend(a[1..], b, t);
    } else {
      assert a + b == b;
    }
  }

  lemma {:induction false} LexPunctuation(s: string, word: string, c: char)
    requires PlainWord(word) && IsPunct(c)
    ensures CountToken(Lex(s, word), [c]) == Occurrences(s, c)
    decreases |s|
  {
    if s == [] {
      assert word != [] ==> word[0] != c;
    } else {
      assert word != [] ==> word != [c] by {
        if word != [] { assert !IsSeparator(word[0]); }
      }
      if IsWhitespace(s[0]) {
        LexPunctuation(s[1..], [], c);
        CountTokenAppend(Flush(word), Lex(s[1..], []), [c]);
      } else if IsPunct(s[0]) {
        LexPunctuation(s[1..], [], c);
        CountTokenAppend(Flush(word) + [[s[0]]], Lex(s[1..], []), [c]);
        CountTokenAppend(Flush(word), [[s[0]]], [c]);
      } else {
        LexPunctuation(s[1..], word + [s[0]], c);
      }
    }
  }

  /** Each punctuation mark of the input is a one-character token: there are
      as many tokens "c" as there are characters c. */
  lemma TokensPunctuation(s: string, c: char)
    requires IsPunct(c)
    ensures CountToken(Tokens(s), [c]) == Occurrences(s, c)
  {
    LexPunctuation(s, [], c);
  }

  /** The properties of tokenizeLine's output for any line. */
  lemma LineTokensProperties(line: string)
    requires |line| > 0
    ensures forall k :: 0 <= k < |LineTokens(line)| ==> WellFormedToken(LineTokens(line)[k])
    ensures Concat(LineTokens(line)) == StripWhitespace(line[..CutPosition(line)])
  {
    TokensWellFormed(line[..CutPosition(line)]);
    TokensConcat(line[..CutPosition(line)]);
  }

  /** The token lists of the non-empty lines that give at least one token, in
      line order. */
  function ProgramTokens(lines: seq<string>): (cmds: seq<seq<string>>)
    ensures |cmds| <= |lines|
    ensures forall k :: 0 <= k < |cmds| ==> cmds[k] != []
  {
    if lines == [] then []
    else
      var rest := ProgramTokens(lines[..|lines| - 1]);
      var line := lines[|lines| - 1];
      if |line| > 0 && LineTokens(line) != [] then rest + [LineTokens(line)] else rest
  }

  /** The per-line filter of readAndTokenize, after the file is split into lines. */
  method TokenizeLines(lines: seq<string>) returns (cmds: seq<seq<string>>)
    ensures cmds == ProgramTokens(lines)
  {
    cmds := [];
    var i := 0;
    while i < |lines|
      invariant 0 <= i <= |lines|
      invariant cmds == ProgramTokens(lines[..i])
    {
      assert lines[..i + 1][..i] == lines[..i];
      if |lines[i]| > 0 {
        var tmp := TokenizeLine(lines[i]);
        if |tmp| > 0 {
          cmds := cmds + [tmp];
        }
      }
      i := i + 1;
    }
    assert lines[..i] == lines;
  }

  /** Every command the filter keeps is a non-empty list of well-formed tokens. */
  lemma {:induction false} ProgramTokensWellFormed(lines: seq<string>)
    ensures forall k, m :: 0 <= k < |ProgramTokens(lines)| && 0 <= m < |ProgramTokens(lines)[k]| ==>
      WellFormedToken(ProgramTokens(lines)[k][m])
  {
    if lines != [] {
      ProgramTokensWellFormed(lines[..|lines| - 1]);
      var line := lines[|lines| - 1];
      if |line| > 0 {
        LineTokensProperties(line);
      }
    }
  }
}
