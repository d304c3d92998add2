/**
 * The line lexer used by the validator: tokenize (parse.c:9-74).
 *
 * The lexer is specified as a left fold of TokStep over the characters of
 * the line. Its state is the tokens pushed so far (in push order), the
 * token being built and whether the scan is inside a quoted string. The
 * list it returns has the LAST token at its head.
 */
module Tokenize {
  import opened Util
  import Lists

  predicate IsSeparator(c: char) {
    c == ',' || c == ':' || c == '(' || c == ')'
  }

  datatype TokState = TokState(pushed: seq<string>, tok: string, inStr: bool)

  /** The tokens pushed once the pending token, if any, is saved. */
  function Flush(st: TokState): seq<string> {
    if |st.tok| > 0 then st.pushed + [st.tok] else st.pushed
  }

  /** A quote saves the pending token (closed with a quote inside a string) and toggles the mode. */
  function AtQuote(st: TokState): TokState {
    TokState(if |st.tok| > 0 then st.pushed + [if st.inStr then st.tok + ['"'] else st.tok] else st.pushed,
             [], !st.inStr)
  }

  /** One iteration of the character loop. */
  function TokStep(st: TokState, c: char): TokState {
    var st1 := if c == '"' then AtQuote(st) else st;
    if !st1.inStr then
      if IsSeparator(c) then TokState(Flush(st1) + [[c]], [], false)
      else if IsSpace(c) then TokState(Flush(st1), [], false)
      else if c != '"' then st1.(tok := st1.tok + [c])
      else st1
    else st1.(tok := st1.tok + [c])
  }

  /** The lexer state after reading line. */
  function TokRun(line: string): TokState {
    if line == [] then TokState([], [], false)
    else TokStep(TokRun(line[..|line| - 1]), line[|line| - 1])
  }

  /** The tokens of line in the order they are pushed (the list's tail-to-head order). */
  function Tokens(line: string): seq<string> {
    Flush(TokRun(line))
  }

  /** tokenize: the returned list holds Tokens(line), last token at the head. */
  method Tokenize(line: string) returns (tokens: Lists.DList<string>)
    ensures tokens.Valid() && fresh(tokens.Repr)
    ensures tokens.contents == Lists.Reverse(Tokens(line))
  {
    tokens := new Lists.DList<string>();
    var tok: string := [];
    var inStr := false;
    ghost var pushed: seq<string> := [];
    var i := 0;
    while i < |line|
      invariant 0 <= i <= |line|
      invariant TokRun(line[..i]) == TokState(pushed, tok, inStr)
      invariant tokens.Valid() && fresh(tokens.Repr)
      invariant tokens.contents == Lists.Reverse(pushed)
    {
      assert line[..i + 1][..i] == line[..i];
      pushed, tok, inStr := Step(tokens, pushed, tok, inStr, line[i]);
      i := i + 1;
    }
    assert line[..|line|] == line;
    if |tok| > 0 {
      pushed := Save(tokens, pushed, tok);
    }
  }

  /** One pass of tokenize's loop body over the character c. */
  method Step(tokens: Lists.DList<string>, ghost pushed: seq<string>, tok: string, inStr: bool, c: char)
    returns (ghost pushed': seq<string>, tok': string, inStr': bool)
    requires tokens.Valid() && tokens.contents == Lists.Reverse(pushed)
    modifies tokens, tokens.Repr
    ensures tokens.Valid() && fresh(tokens.Repr - old(tokens.Repr))
    ensures tokens.contents == Lists.Reverse(pushed')
    ensures TokState(pushed', tok', inStr') == TokStep(TokState(pushed, tok, inStr), c)
  {
    pushed', tok', inStr' := pushed, tok, inStr;
    if c == '"' {
      if |tok'| > 0 {
        pushed' := Save(tokens, pushed', if inStr' then tok' + ['"'] else tok');
      }
      tok' := [];
      inStr' := !inStr';
    }
    if !inStr' {
      if c == ',' || c == ':' || c == '(' || c == ')' {
        if |tok'| > 0 {
          pushed' := Save(tokens, pushed', tok');
        }
        tok' := [];
        pushed' := Save(tokens, pushed', [c]);
      } else if IsSpace(c) {
        if |tok'| > 0 {
          pushed' := Save(tokens, pushed', tok');
        }
        tok' := [];
      } else if c != '"' {
        tok' := tok' + [c];
      }
    } else {
      tok' := tok' + [c];
    }
  }

  /** l_push of a finished token. */
  method Save(tokens: Lists.DList<string>, ghost pushed: seq<string>, t: string) returns (ghost pushed': seq<string>)
    requires tokens.Valid() && tokens.contents == Lists.Reverse(pushed)
    modifies tokens, tokens.Repr
    ensures tokens.Valid() && fresh(tokens.Repr - old(tokens.Repr))
    ensures pushed' == pushed + [t] && tokens.contents == Lists.Reverse(pushed')
  {
    tokens.Push(t);
    Lists.ReverseSnoc(pushed, t);
    pushed' := pushed + [t];
  }

  // ---------------------------------------------------------------------
  // What the lexer keeps: the line without the whitespace outside quotes
  // ---------------------------------------------------------------------

  /** Whether the end of s lies inside a quoted string (an odd number of quotes). */
  function InQuotes(s: string): bool {
    if s == [] then false else InQuotes(s[..|s| - 1]) != (s[|s| - 1] == '"')
  }

  /** s without the whitespace that lies outside quoted strings. */
  function Stripped(s: string): string {
    if s == [] then []
    else
      var c := s[|s| - 1];
      if IsSpace(c) && !InQuotes(s[..|s| - 1]) then Stripped(s[..|s| - 1])
      else Stripped(s[..|s| - 1]) + [c]
  }

  lemma ConcatFlush(st: TokState)
    ensures Concat(Flush(st)) == Concat(st.pushed) + st.tok
  {
    if |st.tok| > 0 {
      ConcatSnoc(st.pushed, st.tok);
    } else {
      assert st.tok == [];
    }
  }

  /** The lexer state tracks the quote parity, and nothing but outside whitespace is dropped. */
  lemma {:induction false} TokRunKeeps(line: string)
    ensures TokRun(line).inStr == InQuotes(line)
    ensures Concat(TokRun(line).pushed) + TokRun(line).tok == Stripped(line)
  {
    if line != [] {
      var p, c := line[..|line| - 1], line[|line| - 1];
      assert line == p + [c];
      TokRunKeeps(p);
      TokRunShape(p);
      Snoc(p, c);
      StepKeeps(c, TokRun(p));
      TokRunSnoc(p, c);
    }
  }

  /** The lexer state after one more character. */
  lemma TokRunSnoc(p: string, c: char)
    ensures TokRun(p + [c]) == TokStep(TokRun(p), c)
  {
    assert (p + [c])[..|p|] == p;
  }

  /** InQuotes and Stripped after one more character. */
  lemma Snoc(p: string, c: char)
    ensures InQuotes(p + [c]) == (InQuotes(p) != (c == '"'))
    ensures Stripped(p + [c]) == if IsSpace(c) && !InQuotes(p) then Stripped(p) else Stripped(p) + [c]
  {
    assert (p + [c])[..|p|] == p;
  }

  /** One step keeps the parity flag and adds c to the kept text unless it is outside whitespace. */
  lemma StepKeeps(c: char, st: TokState)
    requires st.inStr ==> |st.tok| > 0
    ensures TokStep(st, c).inStr == (st.inStr != (c == '"'))
    ensures Concat(TokStep(st, c).pushed) + TokStep(st, c).tok ==
      if IsSpace(c) && !st.inStr then Concat(st.pushed) + st.tok else Concat(st.pushed) + st.tok + [c]
  {
    if c == '"' {
      QuoteKeeps(st);
    } else if st.inStr || !(IsSeparator(c) || IsSpace(c)) {
      AppendKeeps(st, c);
    } else if IsSeparator(c) {
      SeparatorKeeps(st, c);
    } else {
      ConcatFlush(st);
    }
  }

  lemma AppendKeeps(st: TokState, c: char)
    requires c != '"' && (st.inStr || !(IsSeparator(c) || IsSpace(c)))
    ensures TokStep(st, c) == st.(tok := st.tok + [c])
    ensures Concat(TokStep(st, c).pushed) + TokStep(st, c).tok == Concat(st.pushed) + st.tok + [c]
  {
  }

  lemma SeparatorKeeps(st: TokState, c: char)
    requires !st.inStr && IsSeparator(c)
    ensures TokStep(st, c) == TokState(Flush(st) + [[c]], [], false)
    ensures Concat(TokStep(st, c).pushed) + TokStep(st, c).tok == Concat(st.pushed) + st.tok + [c]
  {
    ConcatFlush(st);
    ConcatSnoc(Flush(st), [c]);
  }

  lemma QuoteKeeps(st: TokState)
    requires st.inStr ==> |st.tok| > 0
    ensures TokStep(st, '"') == AtQuote(st).(tok := if st.inStr then [] else ['"'])
    ensures Concat(AtQuote(st).pushed) == Concat(st.pushed) + st.tok + (if st.inStr then ['"'] else [])
  {
    var saved := if st.inStr then st.tok + ['"'] else st.tok;
    if |st.tok| > 0 {
      ConcatSnoc(st.pushed, saved);
    } else {
      assert st.tok == [];
    }
  }

  /** A character outside the whitespace survives in Stripped. */
  lemma {:induction false} StrippedKeepsNonSpace(s: string, j: nat)
    requires j < |s| && !IsSpace(s[j])
    ensures |Stripped(s)| > 0
  {
    if j < |s| - 1 {
      StrippedKeepsNonSpace(s[..|s| - 1], j);
    }
  }

  /** A line with a non-whitespace character yields at least one token. */
  lemma TokensNonEmpty(line: string, j: nat)
    requires j < |line| && !IsSpace(line[j])
    ensures |Tokens(line)| > 0
  {
    TokensRoundTrip(line);
    StrippedKeepsNonSpace(line, j);
  }

  /** tokenize round trip: the tokens, tail to head, spell the line without its outside whitespace. */
  lemma TokensRoundTrip(line: string)
    ensures Concat(Tokens(line)) == Stripped(line)
  {
    TokRunKeeps(line);
    ConcatFlush(TokRun(line));
  }

  // ---------------------------------------------------------------------
  // The shape of every token
  // ---------------------------------------------------------------------

  /** Characters that may make up a token outside quotes. */
  predicate PlainChar(c: char) {
    !IsSpace(c) && !IsSeparator(c) && c != '"'
  }

  /**
   * A token is never empty, and is one of: a single separator; a quoted
   * string that starts with a quote and holds no other quote before its
   * last character; or a run of plain characters.
   */
  predicate WellFormedToken(t: string) {
    && |t| > 0
    && (|| (|t| == 1 && IsSeparator(t[0]))
        || (t[0] == '"' && forall j :: 1 <= j < |t| - 1 ==> t[j] != '"')
        || (forall j :: 0 <= j < |t| ==> PlainChar(t[j])))
  }

  ghost predicate StateShape(st: TokState) {
    && (forall j :: 0 <= j < |st.pushed| ==> WellFormedToken(st.pushed[j]))
    && (st.inStr ==> |st.tok| > 0 && st.tok[0] == '"' && forall j :: 1 <= j < |st.tok| ==> st.tok[j] != '"')
    && (!st.inStr ==> forall j :: 0 <= j < |st.tok| ==> PlainChar(st.tok[j]))
  }

  lemma {:induction false} TokRunShape(line: string)
    ensures StateShape(TokRun(line))
  {
    if line != [] {
      TokRunShape(line[..|line| - 1]);
    }
  }

  /** Every token tokenize produces is well formed; in particular whitespace outside quotes never occurs in one. */
  lemma TokensWellFormed(line: string)
    ensures forall j :: 0 <= j < |Tokens(line)| ==> WellFormedToken(Tokens(line)[j])
  {
    TokRunShape(line);
  }

  /** A line without quotes: every separator is a token of its own, and no token holds whitespace. */
  lemma UnquotedTokens(line: string)
    requires forall j :: 0 <= j < |line| ==> line[j] != '"'
    ensures forall j, k :: 0 <= j < |Tokens(line)| && 0 <= k < |Tokens(line)[j]| ==>
      !IsSpace(Tokens(line)[j][k]) && (IsSeparator(Tokens(line)[j][k]) ==> Tokens(line)[j] == [Tokens(line)[j][k]])
  {
    TokensWellFormed(line);
    NoQuoteNoString(line);
  }

  lemma {:induction false} NoQuoteNoString(line: string)
    requires forall j :: 0 <= j < |line| ==> line[j] != '"'
    ensures !TokRun(line).inStr
    ensures forall j, k :: 0 <= j < |TokRun(line).pushed| && 0 <= k < |TokRun(line).pushed[j]| ==>
      TokRun(line).pushed[j][k] != '"'
    ensures forall k :: 0 <= k < |TokRun(line).tok| ==> TokRun(line).tok[k] != '"'
  {
    if line != [] {
      NoQuoteNoString(line[..|line| - 1]);
    }
  }
}
