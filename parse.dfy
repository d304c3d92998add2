/**
 * The line classifier of parse.c: get_opcode, parse_tok and parse_line.
 * (tokenize, the lexer the validator uses, is in tokenize.dfy.)
 *
 * A C string is a `string`; a read at its terminator yields '\0' (CharAt).
 * The hidden state of strtok is made explicit: NextWord returns the word and
 * the index at which the next call resumes.
 */
module Parse {
  import opened Util

  // ---------------------------------------------------------------------
  // get_opcode
  // ---------------------------------------------------------------------

  /** The mnemonics in opcode order: the opcode is the index. */
  const MNEMONICS: seq<string> :=
    ["mov", "cmp", "add", "sub", "not", "clr", "lea", "inc",
     "dec", "jmp", "bne", "red", "prn", "jsr", "rts", "stop"]

  /**
   * get_opcode: the opcode whose mnemonic is a prefix of s (strncmp over 3
   * characters, 4 for stop), tried in opcode order, with the length the
   * caller skips; -1 when no mnemonic is a prefix.
   */
  function GetOpcode(s: string): (r: (int, nat))
    ensures -1 <= r.0 < |MNEMONICS|
    ensures r.0 == -1 <==> forall j :: 0 <= j < |MNEMONICS| ==> !(MNEMONICS[j] <= s)
    ensures r.0 >= 0 ==> MNEMONICS[r.0] <= s
    ensures r.1 == if r.0 == 15 then 4 else 3
  {
    if "mov" <= s then (0, 3)
    else if "cmp" <= s then (1, 3)
    else if "add" <= s then (2, 3)
    else if "sub" <= s then (3, 3)
    else if "not" <= s then (4, 3)
    else if "clr" <= s then (5, 3)
    else if "lea" <= s then (6, 3)
    else if "inc" <= s then (7, 3)
    else if "dec" <= s then (8, 3)
    else if "jmp" <= s then (9, 3)
    else if "bne" <= s then (10, 3)
    else if "red" <= s then (11, 3)
    else if "prn" <= s then (12, 3)
    else if "jsr" <= s then (13, 3)
    else if "rts" <= s then (14, 3)
    else if "stop" <= s then (15, 4)
    else (-1, 3)
  }

  /** A mnemonic followed by anything maps to its own opcode, and len is the mnemonic's length. */
  lemma GetOpcodeOfMnemonic(j: nat, suffix: string)
    requires j < |MNEMONICS|
    ensures GetOpcode(MNEMONICS[j] + suffix) == (j, |MNEMONICS[j]|)
  {
    var m := MNEMONICS[j];
    var s := m + suffix;
    assert s[0] == m[0] && s[1] == m[1] && s[2] == m[2];
    assert m <= s;
  }

  // ---------------------------------------------------------------------
  // parse_tok
  // ---------------------------------------------------------------------

  /** Characters parse_tok skips at the front of an operand. */
  predicate SkippedFront(c: char) {
    c == ',' || c == '(' || IsSpace(c)
  }

  /** The end index after `while (isspace(*end) && end > start) end--`. */
  function BackOver(w: string, start: nat, end: nat): (e: nat)
    requires start <= end <= |w|
    ensures start <= e <= end
    ensures forall j :: e < j <= end ==> IsSpace(CharAt(w, j))
    ensures e > start ==> !IsSpace(CharAt(w, e))
    decreases end
  {
    if IsSpace(CharAt(w, end)) && end > start then BackOver(w, start, end - 1) else end
  }

  /** The start index after `while ((*start == ',' || *start == '(' || isspace(*start)) && start < end) start++`. */
  function FrontOver(w: string, start: nat, end: nat): (s: nat)
    requires start <= end <= |w|
    ensures start <= s <= end
    ensures forall j :: start <= j < s ==> SkippedFront(w[j])
    ensures s < end ==> !SkippedFront(w[s])
    decreases end - start
  {
    if SkippedFront(CharAt(w, start)) && start < end then FrontOver(w, start + 1, end) else start
  }

  /** Which characters an operand of the given kind keeps after its type character. */
  predicate Keeps(kind: char, c: char) {
    if kind == 'r' then IsNum(c)
    else if kind == 'i' then IsAlphaNum(c) || c == '-'
    else IsAlphaNum(c)
  }

  /** The characters of s that an operand of the given kind keeps, in order. */
  function Kept(s: string, kind: char): (r: string)
    ensures |r| <= |s|
    ensures forall j :: 0 <= j < |r| ==> Keeps(kind, r[j])
  {
    if s == [] then []
    else if Keeps(kind, s[|s| - 1]) then Kept(s[..|s| - 1], kind) + [s[|s| - 1]]
    else Kept(s[..|s| - 1], kind)
  }

  /**
   * The type character: 'l' when the segment ends at '(' (a jump
   * target), else 'r' for a leading r, 'i' for a leading #, 'l' otherwise.
   */
  function OperandKind(w: string, s: nat, e: nat): (kind: char)
    ensures kind == 'l' || kind == 'r' || kind == 'i'
  {
    if CharAt(w, e) == '(' then 'l'
    else if CharAt(w, s) == 'r' then 'r'
    else if CharAt(w, s) == '#' then 'i'
    else 'l'
  }

  /** A type-value string: a type character and characters that kind keeps. */
  predicate IsTypeVal(t: string) {
    && |t| > 0
    && (t[0] == 'l' || t[0] == 'r' || t[0] == 'i')
    && forall j :: 1 <= j < |t| ==> Keeps(t[0], t[j])
  }

  /** What parse_tok writes into type_val for the segment w[start..end]. */
  function TypeVal(w: string, start: nat, end: nat): (r: string)
    requires start <= end <= |w|
    ensures IsTypeVal(r)
    ensures forall j :: 0 <= j < |r| ==> !IsSpace(r[j])
  {
    var e := BackOver(w, start, end);
    var s := FrontOver(w, start, e);
    var kind := OperandKind(w, s, e);
    [kind] + Kept(w[s..e], kind)
  }

  /** parse_tok(w + start, w + end, type_val). */
  method ParseTok(w: string, start: nat, end: nat) returns (typeVal: string)
    requires start <= end <= |w|
    ensures typeVal == TypeVal(w, start, end)
  {
    var e := end;
    while IsSpace(CharAt(w, e)) && e > start
      invariant start <= e <= end
      invariant BackOver(w, start, e) == BackOver(w, start, end)
    {
      e := e - 1;
    }
    var s := start;
    while SkippedFront(CharAt(w, s)) && s < e
      invariant start <= s <= e
      invariant FrontOver(w, s, e) == FrontOver(w, start, e)
    {
      s := s + 1;
    }
    var kind := OperandKind(w, s, e);
    var kept := KeepChars(w, s, e, kind);
    typeVal := [kind] + kept;
  }

  /** The copy loop of parse_tok: the characters of w[s..e] the kind keeps. */
  method KeepChars(w: string, s: nat, e: nat, kind: char) returns (kept: string)
    requires s <= e <= |w|
    ensures kept == Kept(w[s..e], kind)
  {
    kept := [];
    var i := s;
    while i < e
      invariant s <= i <= e
      invariant kept == Kept(w[s..i], kind)
    {
      KeptSnoc(w, s, i, kind);
      if Keeps(kind, w[i]) {
        kept := kept + [w[i]];
      }
      i := i + 1;
    }
  }

  lemma KeptSnoc(w: string, s: nat, i: nat, kind: char)
    requires s <= i < |w|
    ensures Kept(w[s..i + 1], kind) == if Keeps(kind, w[i]) then Kept(w[s..i], kind) + [w[i]] else Kept(w[s..i], kind)
  {
    assert w[s..i + 1][..i - s] == w[s..i];
  }

  lemma {:induction false} KeptAll(s: string, kind: char)
    requires forall j :: 0 <= j < |s| ==> Keeps(kind, s[j])
    ensures Kept(s, kind) == s
  {
    if s != [] {
      KeptAll(s[..|s| - 1], kind);
    }
  }

  lemma {:induction false} KeptAppend(a: string, b: string, kind: char)
    ensures Kept(a + b, kind) == Kept(a, kind) + Kept(b, kind)
    decreases |b|
  {
    if b == [] {
      assert a + b == a;
    } else {
      var b' := b[..|b| - 1];
      KeptAppend(a, b', kind);
      assert (a + b)[..|a + b| - 1] == a + b';
    }
  }

  /**
   * An operand x preceded by skipped characters p and ending the word:
   * parse_tok gives x's type character and the characters of x that type keeps.
   */
  lemma CleanOperand(p: string, x: string)
    requires forall j :: 0 <= j < |p| ==> SkippedFront(p[j])
    requires |x| > 0 && !SkippedFront(x[0])
    ensures var kind := if x[0] == 'r' then 'r' else if x[0] == '#' then 'i' else 'l';
      TypeVal(p + x, 0, |p + x|) == [kind] + Kept(x, kind)
  {
    var w := p + x;
    assert BackOver(w, 0, |w|) == |w|;
    FrontOverIs(w, 0, |w|, |p|);
    assert w[|p|..|w|] == x;
  }

  lemma {:induction false} FrontOverIs(w: string, start: nat, end: nat, s: nat)
    requires start <= s <= end <= |w|
    requires forall j :: start <= j < s ==> SkippedFront(w[j])
    requires s < end ==> !SkippedFront(w[s])
    ensures FrontOver(w, start, end) == s
    decreases s - start
  {
    if start < s {
      FrontOverIs(w, start + 1, end, s);
    }
  }

  /** A register operand: r and digits give back the same text. */
  lemma RegisterOperand(p: string, digits: string)
    requires forall j :: 0 <= j < |p| ==> SkippedFront(p[j])
    requires forall j :: 0 <= j < |digits| ==> IsDigit(digits[j])
    ensures TypeVal(p + ("r" + digits), 0, |p + ("r" + digits)|) == "r" + digits
  {
    CleanOperand(p, "r" + digits);
    KeptAppend("r", digits, 'r');
    KeptAll(digits, 'r');
    assert Kept("r", 'r') == [] by { assert "r"[..0] == []; }
  }

  /** An immediate operand: # and a signed number give i and the number. */
  lemma ImmediateOperand(p: string, num: string)
    requires forall j :: 0 <= j < |p| ==> SkippedFront(p[j])
    requires forall j :: 0 <= j < |num| ==> IsNum(num[j])
    ensures TypeVal(p + ("#" + num), 0, |p + ("#" + num)|) == "i" + num
  {
    var x := "#" + num;
    CleanOperand(p, x);
    assert x[0] == '#';
    KeptAppend("#", num, 'i');
    assert forall j :: 0 <= j < |num| ==> Keeps('i', num[j]);
    KeptAll(num, 'i');
    assert Kept("#", 'i') == [] by { assert "#"[..0] == []; }
  }

  /** A label operand that does not start with r gives l and the label. */
  lemma LabelOperand(p: string, name: string)
    requires forall j :: 0 <= j < |p| ==> SkippedFront(p[j])
    requires |name| > 0 && name[0] != 'r'
    requires forall j :: 0 <= j < |name| ==> IsAlphaNum(name[j])
    ensures TypeVal(p + name, 0, |p + name|) == "l" + name
  {
    CleanOperand(p, name);
    KeptAll(name, 'l');
  }

  /** The jump target in front of '(' is a label, even when it starts with r. */
  lemma JumpTarget(name: string, rest: string)
    requires |name| > 0
    requires forall j :: 0 <= j < |name| ==> IsAlphaNum(name[j])
    ensures TypeVal(name + "(" + rest, 0, |name|) == "l" + name
  {
    var w := name + "(" + rest;
    assert CharAt(w, |name|) == '(';
    assert BackOver(w, 0, |name|) == |name|;
    FrontOverIs(w, 0, |name|, 0);
    assert w[0..|name|] == name;
    KeptAll(name, 'l');
  }

  // ---------------------------------------------------------------------
  // strtok
  // ---------------------------------------------------------------------

  /** A word strtok returns, and the index at which the following call resumes. */
  datatype Word = Word(text: string, rest: nat)

  /** The first index at or after p that does not hold a delimiter, or |line|. */
  function SkipDelims(line: string, p: nat, delims: string): (q: nat)
    requires p <= |line|
    ensures p <= q <= |line|
    ensures forall j :: p <= j < q ==> line[j] in delims
    ensures q < |line| ==> line[q] !in delims
    decreases |line| - p
  {
    if p == |line| || line[p] !in delims then p else SkipDelims(line, p + 1, delims)
  }

  /** The first index at or after q that holds a delimiter, or |line|. */
  function WordEnd(line: string, q: nat, delims: string): (e: nat)
    requires q <= |line|
    ensures q <= e <= |line|
    ensures forall j :: q <= j < e ==> line[j] !in delims
    ensures e < |line| ==> line[e] in delims
    decreases |line| - q
  {
    if q == |line| || line[q] in delims then q else WordEnd(line, q + 1, delims)
  }

  /**
   * strtok with its saved position p: delimiters are skipped; None (NULL)
   * when only delimiters remain; otherwise the word runs to the next
   * delimiter, which is overwritten by the terminator, and the following
   * call resumes just after it (or at the end of the line).
   */
  function NextWord(line: string, p: nat, delims: string): (r: Option<Word>)
    requires p <= |line|
    ensures r.None? <==> forall j :: p <= j < |line| ==> line[j] in delims
    ensures r.Some? ==> p < r.value.rest <= |line| && |r.value.text| > 0
    ensures r.Some? ==> forall j :: 0 <= j < |r.value.text| ==> r.value.text[j] !in delims
    ensures r.Some? ==> var q := SkipDelims(line, p, delims);
      q < r.value.rest && q + |r.value.text| <= |line| && r.value.text == line[q..q + |r.value.text|]
  {
    var q := SkipDelims(line, p, delims);
    if q == |line| then None
    else
      var e := WordEnd(line, q, delims);
      Some(Word(line[q..e], if e < |line| then e + 1 else e))
  }

  // ---------------------------------------------------------------------
  // parse_line
  // ---------------------------------------------------------------------

  /** The line type (SYM_* bits) and the token array of parse_line. */
  datatype Parsed = Parsed(typ: bv8, tokens: seq<string>)

  /** Kind bits of a non-empty line: exactly one of these is set. */
  predicate OneKind(kind: bv8) {
    kind == SYM_EXT || kind == SYM_ENT || kind == SYM_STR || kind == SYM_DAT || kind == SYM_COD
  }

  /**
   * parse_line. None when the source would hand a NULL word to trim or
   * strncmp (a line of blanks only, or a label, directive or .string with
   * nothing after it), or copy a .string payload shorter than its quotes.
   */
  function ParsedLine(line: string): (r: Option<Parsed>)
    ensures r.Some? && r.value.typ == 0 ==> r.value.tokens == []
    ensures r.Some? && r.value.typ != 0 ==> OneKind(r.value.typ & !SYM_DEF)
    ensures r.Some? && r.value.typ & (SYM_EXT | SYM_ENT | SYM_STR) != 0 ==>
      |r.value.tokens| == if r.value.typ & SYM_DEF != 0 then 2 else 1
  {
    match NextWord(line, 0, " ")
    case None => None
    case Some(first) =>
      var t := Trimmed(first.text);
      if |t| == 0 || t[0] == ';' then Some(Parsed(0, []))
      else if t[|t| - 1] == ':' then
        match NextWord(line, first.rest, " ")
        case None => None
        case Some(w) => Statement(line, SYM_DEF, [t[..|t| - 1]], w)
      else Statement(line, 0, [], Word(t, first.rest))
  }

  /**
   * A label definition: SYM_DEF is set exactly when the trimmed first word
   * ends in ':', and the name without the colon is tokens[0].
   */
  lemma LabelDefinition(line: string)
    requires ParsedLine(line).Some?
    ensures var r := ParsedLine(line).value;
      var t := Trimmed(NextWord(line, 0, " ").value.text);
      && (r.typ & SYM_DEF != 0 <==> |t| > 0 && t[0] != ';' && t[|t| - 1] == ':')
      && (r.typ & SYM_DEF != 0 ==> |r.tokens| > 0 && r.tokens[0] + [':'] == t)
  {
    var first := NextWord(line, 0, " ").value;
    var t := Trimmed(first.text);
    var r := ParsedLine(line).value;
    if |t| > 0 && t[0] != ';' && t[|t| - 1] == ':' {
      var w := NextWord(line, first.rest, " ").value;
      var name := t[..|t| - 1];
      assert r == Statement(line, SYM_DEF, [name], w).value;
      assert r.tokens[0] == r.tokens[..1][0];
      DropLast(t);
    } else if |t| > 0 && t[0] != ';' {
      assert r == Statement(line, 0, [], Word(t, first.rest)).value;
    }
  }

  lemma DropLast(t: string)
    requires |t| > 0
    ensures t[..|t| - 1] + [t[|t| - 1]] == t
  {
  }

  /** A blank or comment line is type 0 with no tokens; every other line sets a kind bit. */
  lemma IgnoredLine(line: string)
    requires ParsedLine(line).Some?
    ensures var t := Trimmed(NextWord(line, 0, " ").value.text);
      ParsedLine(line).value.typ == 0 <==> |t| == 0 || t[0] == ';'
  {
  }

  /**
   * An instruction line: the opcode word follows the label token, if any,
   * and every later token is a type value longer than its type character.
   */
  lemma InstructionTokens(line: string)
    requires ParsedLine(line).Some? && ParsedLine(line).value.typ & SYM_COD != 0
    ensures var r := ParsedLine(line).value;
      var k := if r.typ & SYM_DEF != 0 then 1 else 0;
      && k < |r.tokens|
      && forall j :: k < j < |r.tokens| ==> IsTypeVal(r.tokens[j]) && |r.tokens[j]| > 1
  {
    var first := NextWord(line, 0, " ").value;
    var t := Trimmed(first.text);
    if t[|t| - 1] == ':' {
      var w := NextWord(line, first.rest, " ").value;
      assert ParsedLine(line) == Statement(line, SYM_DEF, [t[..|t| - 1]], w);
      assert ParsedLine(line).value.typ & SYM_DEF != 0;
    } else {
      assert ParsedLine(line) == Statement(line, 0, [], Word(t, first.rest));
    }
  }

  /** A .data line "5, -3, 7": the piece after a comma keeps its blank, loses its last digit, and the last piece is copied raw. */
  lemma DataAfterBlank()
    ensures DataWord("5, -3, 7\n", [], 0).0 == ["5", " -", " 7\n"]
  {
    var w := "5, -3, 7\n";
    DataAfterBlankHead();
    assert w[2..4] == " -";
    assert DataFold(w, 6, [], 0) == DataScan(["5", " -"], 0, 6);
    assert DataFold(w, 7, [], 0) == DataScan(["5", " -"], 0, 6);
    assert DataFold(w, 8, [], 0) == DataScan(["5", " -"], 1, 6);
    assert DataFold(w, 9, [], 0) == DataScan(["5", " -"], 1, 6);
    assert w[6..] == " 7\n";
  }

  /** The first five characters of the .data word "5, -3, 7\n": one piece stored, token_len 2. */
  lemma DataAfterBlankHead()
    ensures DataFold("5, -3, 7\n", 5, [], 0) == DataScan(["5"], 2, 2)
  {
    var w := "5, -3, 7\n";
    assert DataFold(w, 1, [], 0) == DataScan([], 1, 0);
    assert w[0..1] == "5";
    assert DataFold(w, 2, [], 0) == DataScan(["5"], 0, 2);
    assert DataFold(w, 3, [], 0) == DataScan(["5"], 0, 2);
    assert DataFold(w, 4, [], 0) == DataScan(["5"], 1, 2);
  }

  /** parse_line from the directive or opcode word w on, with the label's bit and token, if any. */
  function Statement(line: string, typ: bv8, toks: seq<string>, w: Word): (r: Option<Parsed>)
    requires w.rest <= |line|
    requires typ == 0 || typ == SYM_DEF
    ensures r.Some? ==> r.value.typ & !SYM_DEF != 0 && OneKind(r.value.typ & !SYM_DEF)
    ensures r.Some? ==> r.value.typ & SYM_DEF == typ
    ensures r.Some? ==> |r.value.tokens| >= |toks| && r.value.tokens[..|toks|] == toks
    ensures r.Some? && r.value.typ & SYM_DAT == 0 ==> |r.value.tokens| > |toks|
    ensures r.Some? && r.value.typ & (SYM_EXT | SYM_ENT | SYM_STR) != 0 ==> |r.value.tokens| == |toks| + 1
    ensures r.Some? && r.value.typ & SYM_COD != 0 ==>
      && r.value.tokens[|toks|] == w.text
      && forall j :: |toks| < j < |r.value.tokens| ==> IsTypeVal(r.value.tokens[j]) && |r.value.tokens[j]| > 1
  {
    if ".extern" <= w.text then KindBits(typ, SYM_EXT); Argument(line, typ | SYM_EXT, toks, w.rest, false)
    else if ".entry" <= w.text then KindBits(typ, SYM_ENT); Argument(line, typ | SYM_ENT, toks, w.rest, false)
    else if ".string" <= w.text then KindBits(typ, SYM_STR); Argument(line, typ | SYM_STR, toks, w.rest, true)
    else if ".data" <= w.text then
      KindBits(typ, SYM_DAT);
      Some(Parsed(typ | SYM_DAT, DataWords(line, NextWord(line, w.rest, "\""), toks, 0)))
    else
      KindBits(typ, SYM_COD);
      Some(Parsed(typ | SYM_COD, Instruction(line, toks, w)))
  }

  /** An instruction statement: the opcode word, then its operands. */
  function Instruction(line: string, toks: seq<string>, w: Word): (r: seq<string>)
    requires w.rest <= |line|
    ensures |r| > |toks| && r[..|toks|] == toks && r[|toks|] == w.text
    ensures forall j :: |toks| < j < |r| ==> IsTypeVal(r[j]) && |r[j]| > 1
  {
    var r := OperandWords(line, NextWord(line, w.rest, " "), toks + [w.text]);
    assert r[..|toks|] == r[..|toks| + 1][..|toks|];
    r
  }

  /** The label bit and a kind bit, set together, stay apart. */
  lemma KindBits(typ: bv8, kind: bv8)
    requires typ == 0 || typ == SYM_DEF
    requires OneKind(kind)
    ensures (typ | kind) & !SYM_DEF == kind && (typ | kind) & SYM_DEF == typ
  {
  }

  /**
   * The single argument of .extern, .entry (trimmed) or .string (trimmed, its
   * first and last characters dropped); None when there is no such word or
   * the string is shorter than two characters.
   */
  function Argument(line: string, typ: bv8, toks: seq<string>, from: nat, quoted: bool): (r: Option<Parsed>)
    requires from <= |line|
    ensures r.Some? ==> r.value.typ == typ && |r.value.tokens| == |toks| + 1 && r.value.tokens[..|toks|] == toks
  {
    match NextWord(line, from, " ")
    case None => None
    case Some(a) =>
      var s := Trimmed(a.text);
      if !quoted then Some(Parsed(typ, toks + [s]))
      else if |s| < 2 then None
      else Some(Parsed(typ, toks + [s[1..|s| - 1]]))
  }

  // .data: the words after the directive, split at commas ------------------

  /** The state of the .data scan: tokens so far, token_len, and the start i of the current segment. */
  datatype DataScan = DataScan(toks: seq<string>, tokenLen: nat, segStart: nat)

  /**
   * One character of a .data word: non-whitespace counts towards token_len;
   * a comma stores token_len - 1 characters from the segment start (fewer if
   * the word ends first) and starts a new segment after the comma.
   */
  function DataChar(w: string, j: nat, st: DataScan): (r: DataScan)
    requires j < |w| && st.segStart <= j
    ensures r.segStart <= j + 1
  {
    var tl := if IsSpace(w[j]) then st.tokenLen else st.tokenLen + 1;
    if w[j] == ',' then
      var n := if st.segStart + tl - 1 <= |w| then st.segStart + tl - 1 else |w|;
      DataScan(st.toks + [w[st.segStart..n]], 0, j + 1)
    else st.(tokenLen := tl)
  }

  /** The .data scan after the first n characters of w. */
  function DataFold(w: string, n: nat, toks: seq<string>, tokenLen: nat): (r: DataScan)
    requires n <= |w|
    ensures r.segStart <= n
    ensures |r.toks| >= |toks| && r.toks[..|toks|] == toks
  {
    if n == 0 then DataScan(toks, tokenLen, 0) else DataChar(w, n - 1, DataFold(w, n - 1, toks, tokenLen))
  }

  /** One .data word: the scan, then the unfinished segment copied as it is. token_len carries over. */
  function DataWord(w: string, toks: seq<string>, tokenLen: nat): (r: (seq<string>, nat))
    ensures |r.0| >= |toks| && r.0[..|toks|] == toks
  {
    var st := DataFold(w, |w|, toks, tokenLen);
    (if st.segStart < |w| then st.toks + [w[st.segStart..]] else st.toks, st.tokenLen)
  }

  /** The .data loop over the words strtok returns, starting with next. */
  function DataWords(line: string, next: Option<Word>, toks: seq<string>, tokenLen: nat): (r: seq<string>)
    requires next.Some? ==> next.value.rest <= |line|
    ensures |r| >= |toks| && r[..|toks|] == toks
    decreases if next.Some? then |line| - next.value.rest + 1 else 0
  {
    match next
    case None => toks
    case Some(w) =>
      var (toks', tl') := DataWord(w.text, toks, tokenLen);
      var r := DataWords(line, NextWord(line, w.rest, " "), toks', tl');
      assert r[..|toks|] == r[..|toks'|][..|toks|];
      r
  }

  /** Tokens written back with a comma after each. */
  function Joined(ts: seq<string>): string {
    if ts == [] then [] else Joined(ts[..|ts| - 1]) + ts[|ts| - 1] + [',']
  }

  /** What the .data scan keeps on a whitespace-free word: the stored pieces and the open segment spell the first n characters. */
  ghost predicate Spells(w: string, n: nat, st: DataScan) {
    && st.segStart <= n <= |w|
    && st.tokenLen == n - st.segStart
    && Joined(st.toks) + w[st.segStart..n] == w[..n]
    && (st.segStart > 0 ==> w[st.segStart - 1] == ',')
  }

  /** One non-blank character keeps Spells. */
  lemma DataCharSpells(w: string, j: nat, st: DataScan)
    requires j < |w| && !IsSpace(w[j]) && Spells(w, j, st)
    ensures Spells(w, j + 1, DataChar(w, j, st))
  {
    var st' := DataChar(w, j, st);
    assert w[..j + 1] == w[..j] + [w[j]];
    if w[j] == ',' {
      var piece := w[st.segStart..j];
      assert st' == DataScan(st.toks + [piece], 0, j + 1);
      JoinedSnoc(st.toks, piece);
      calc {
        Joined(st'.toks) + w[st'.segStart..j + 1];
        Joined(st.toks + [piece]) + [];
        (Joined(st.toks) + piece) + [','];
        w[..j] + [w[j]];
      }
    } else {
      assert st' == st.(tokenLen := st.tokenLen + 1);
      calc {
        Joined(st'.toks) + w[st'.segStart..j + 1];
        Joined(st.toks) + (w[st.segStart..j] + [w[j]]);
        (Joined(st.toks) + w[st.segStart..j]) + [w[j]];
        w[..j] + [w[j]];
      }
    }
  }

  /** The .data scan on a whitespace-free word: the pieces read so far and the open segment spell the prefix. */
  lemma {:induction false} DataFoldNoSpace(w: string, n: nat)
    requires n <= |w|
    requires forall j :: 0 <= j < |w| ==> !IsSpace(w[j])
    ensures Spells(w, n, DataFold(w, n, [], 0))
  {
    if n > 0 {
      DataFoldNoSpace(w, n - 1);
      var st := DataFold(w, n - 1, [], 0);
      DataCharSpells(w, n - 1, st);
      assert DataFold(w, n, [], 0) == DataChar(w, n - 1, st);
    }
  }

  /** s holds no comma. */
  predicate CommaFree(s: string) {
    forall i :: 0 <= i < |s| ==> s[i] != ','
  }

  /** Neither a stored piece nor the open segment of st holds a comma. */
  ghost predicate PiecesCommaFree(w: string, n: nat, st: DataScan)
    requires st.segStart <= n <= |w|
  {
    && (forall k :: 0 <= k < |st.toks| ==> CommaFree(st.toks[k]))
    && (forall i :: st.segStart <= i < n ==> w[i] != ',')
  }

  /** One non-blank character keeps the pieces comma-free. */
  lemma DataCharCommaFree(w: string, j: nat, st: DataScan)
    requires j < |w| && st.segStart <= j && st.tokenLen == j - st.segStart && PiecesCommaFree(w, j, st)
    ensures DataChar(w, j, st).segStart <= j + 1 && PiecesCommaFree(w, j + 1, DataChar(w, j, st))
  {
    if w[j] == ',' {
      var piece := w[st.segStart..j];
      assert DataChar(w, j, st) == DataScan(st.toks + [piece], 0, j + 1);
      assert CommaFree(piece);
    }
  }

  /** No piece the .data scan stores, nor the open segment, holds a comma. */
  lemma {:induction false} DataFoldCommaFree(w: string, n: nat)
    requires n <= |w|
    requires forall j :: 0 <= j < |w| ==> !IsSpace(w[j])
    ensures PiecesCommaFree(w, n, DataFold(w, n, [], 0))
  {
    if n > 0 {
      DataFoldCommaFree(w, n - 1);
      DataFoldNoSpace(w, n - 1);
      DataCharCommaFree(w, n - 1, DataFold(w, n - 1, [], 0));
    }
  }

  lemma JoinedSnoc(ts: seq<string>, piece: string)
    ensures Joined(ts + [piece]) == Joined(ts) + piece + [',']
  {
    assert (ts + [piece])[..|ts|] == ts;
  }

  /**
   * On a .data word without whitespace the stored tokens are the pieces
   * between commas: none holds a comma, and written back with a comma after
   * each they give the word (with a comma added if it did not end in one).
   */
  lemma DataWordSplitsAtCommas(w: string)
    requires forall j :: 0 <= j < |w| ==> !IsSpace(w[j])
    ensures var ts := DataWord(w, [], 0).0;
      && (forall k :: 0 <= k < |ts| ==> CommaFree(ts[k]))
      && Joined(ts) == if w == [] || w[|w| - 1] == ',' then w else w + [',']
  {
    DataFoldNoSpace(w, |w|);
    DataFoldCommaFree(w, |w|);
    FinishedScan(w, DataFold(w, |w|, [], 0));
  }

  /** The end of a .data word: the open segment, if any, becomes the last piece. */
  lemma FinishedScan(w: string, st: DataScan)
    requires Spells(w, |w|, st) && PiecesCommaFree(w, |w|, st)
    ensures var ts := if st.segStart < |w| then st.toks + [w[st.segStart..]] else st.toks;
      && (forall k :: 0 <= k < |ts| ==> CommaFree(ts[k]))
      && Joined(ts) == if w == [] || w[|w| - 1] == ',' then w else w + [',']
  {
    assert w[..|w|] == w;
    if st.segStart < |w| {
      var last := w[st.segStart..];
      var ts := st.toks + [last];
      JoinedSnoc(st.toks, last);
      assert Joined(ts) == w + [','];
      assert w[|w| - 1] != ',' by {
        assert w[|w| - 1] == last[|last| - 1];
      }
      forall k | 0 <= k < |ts|
        ensures CommaFree(ts[k])
      {
        if k == |st.toks| { assert ts[k] == last; } else { assert ts[k] == st.toks[k]; }
      }
    } else {
      assert w[st.segStart..|w|] == [];
    }
  }


  // instruction operands -----------------------------------------------

  /** Stores a parse_tok result unless its trim is a lone type character. */
  function Collect(toks: seq<string>, tv: string): (r: seq<string>)
    requires IsTypeVal(tv) && forall j :: 0 <= j < |tv| ==> !IsSpace(tv[j])
    ensures r == if |tv| > 1 then toks + [tv] else toks
  {
    TrimmedIdentity(tv);
    if |Trimmed(tv)| > 1 then toks + [tv] else toks
  }

  /** The operand scan of a word: tokens so far and where the current segment starts. */
  datatype OperandScan = OperandScan(toks: seq<string>, tokStart: nat)

  /** A '(' or ',' ends the segment before it; the next segment starts at the separator. */
  function OperandChar(w: string, j: nat, st: OperandScan): (r: OperandScan)
    requires j < |w| && st.tokStart <= j
    ensures r.tokStart <= j
  {
    if w[j] == '(' || w[j] == ',' then OperandScan(Collect(st.toks, TypeVal(w, st.tokStart, j)), j)
    else st
  }

  /** The operand scan after the first n characters of w. */
  function OperandFold(w: string, n: nat, toks: seq<string>): (r: OperandScan)
    requires n <= |w|
    ensures r.tokStart <= n && (n > 0 ==> r.tokStart < n)
    ensures |r.toks| >= |toks| && r.toks[..|toks|] == toks
    ensures forall j :: |toks| <= j < |r.toks| ==> IsTypeVal(r.toks[j]) && |r.toks[j]| > 1
  {
    if n == 0 then OperandScan(toks, 0) else OperandChar(w, n - 1, OperandFold(w, n - 1, toks))
  }

  /** One operand word: the scan, then the last segment. */
  function OperandWord(w: string, toks: seq<string>): (r: seq<string>)
    ensures |r| >= |toks| && r[..|toks|] == toks
    ensures forall j :: |toks| <= j < |r| ==> IsTypeVal(r[j]) && |r[j]| > 1
  {
    var st := OperandFold(w, |w|, toks);
    Collect(st.toks, TypeVal(w, st.tokStart, |w|))
  }

  /** Operand tokens stored by one word, then by the words after it. */
  lemma TypeValsKept(r: seq<string>, toks: seq<string>, toks': seq<string>)
    requires |toks| <= |toks'| <= |r| && r[..|toks'|] == toks' && toks'[..|toks|] == toks
    requires forall j :: |toks| <= j < |toks'| ==> IsTypeVal(toks'[j]) && |toks'[j]| > 1
    requires forall j :: |toks'| <= j < |r| ==> IsTypeVal(r[j]) && |r[j]| > 1
    ensures r[..|toks|] == toks
    ensures forall j :: |toks| <= j < |r| ==> IsTypeVal(r[j]) && |r[j]| > 1
  {
    assert r[..|toks|] == r[..|toks'|][..|toks|];
    forall j | |toks| <= j < |toks'|
      ensures IsTypeVal(r[j]) && |r[j]| > 1
    {
      assert r[j] == toks'[j];
    }
  }

  /** The operand loop over the words strtok returns, starting with next. */
  function OperandWords(line: string, next: Option<Word>, toks: seq<string>): (r: seq<string>)
    requires next.Some? ==> next.value.rest <= |line|
    ensures |r| >= |toks| && r[..|toks|] == toks
    ensures forall j :: |toks| <= j < |r| ==> IsTypeVal(r[j]) && |r[j]| > 1
    decreases if next.Some? then |line| - next.value.rest + 1 else 0
  {
    match next
    case None => toks
    case Some(w) =>
      var toks' := OperandWord(w.text, toks);
      var r := OperandWords(line, NextWord(line, w.rest, " "), toks');
      TypeValsKept(r, toks, toks');
      r
  }

  // ---------------------------------------------------------------------
  // The parse_line procedure
  // ---------------------------------------------------------------------

  /**
   * parse_line: fills the token array word by word, as ParsedLine describes.
   * Each row is taken to hold exactly the characters strncpy copies. That
   * holds in the first pass, which clears every row (address.c:51-55); the
   * second pass clears only rows 0-3 (assemble.c:233-237).
   */
  method ParseLine(line: string) returns (typ: bv8, tokens: seq<string>)
    requires ParsedLine(line).Some?
    ensures ParsedLine(line) == Some(Parsed(typ, tokens))
  {
    typ := 0;
    tokens := [];
    var first := NextWord(line, 0, " ").value;
    var tok := Trim(first.text);
    if |tok| == 0 || tok[0] == ';' {
      return;
    }
    var word := Word(tok, first.rest);
    if tok[|tok| - 1] == ':' {
      tokens := tokens + [tok[..|tok| - 1]];
      word := NextWord(line, first.rest, " ").value;
      typ := typ | SYM_DEF;
      assert typ == SYM_DEF && tokens == [tok[..|tok| - 1]];
      assert ParsedLine(line) == Statement(line, typ, tokens, word);
    } else {
      assert ParsedLine(line) == Statement(line, typ, tokens, word);
    }
    typ, tokens := ParseStatement(line, typ, tokens, word);
  }

  /** parse_line from the directive or opcode word on. */
  method ParseStatement(line: string, typ0: bv8, toks: seq<string>, word: Word) returns (typ: bv8, tokens: seq<string>)
    requires word.rest <= |line| && (typ0 == 0 || typ0 == SYM_DEF)
    requires Statement(line, typ0, toks, word).Some?
    ensures Statement(line, typ0, toks, word) == Some(Parsed(typ, tokens))
  {
    if ".extern" <= word.text {
      typ, tokens := ParseArgument(line, typ0 | SYM_EXT, toks, word.rest, false);
    } else if ".entry" <= word.text {
      typ, tokens := ParseArgument(line, typ0 | SYM_ENT, toks, word.rest, false);
    } else if ".string" <= word.text {
      typ, tokens := ParseArgument(line, typ0 | SYM_STR, toks, word.rest, true);
    } else if ".data" <= word.text {
      typ := typ0 | SYM_DAT;
      tokens := ParseData(line, word.rest, toks);
    } else {
      typ := typ0 | SYM_COD;
      tokens := ParseOperands(line, word.rest, toks + [word.text]);
      assert tokens == Instruction(line, toks, word);
    }
  }

  /** The argument of .extern, .entry or .string: trimmed, and for .string without its quotes. */
  method ParseArgument(line: string, typ0: bv8, toks: seq<string>, from: nat, quoted: bool) returns (typ: bv8, tokens: seq<string>)
    requires from <= |line|
    requires Argument(line, typ0, toks, from, quoted).Some?
    ensures Argument(line, typ0, toks, from, quoted) == Some(Parsed(typ, tokens))
  {
    var arg := NextWord(line, from, " ").value;
    var t := Trim(arg.text);
    typ := typ0;
    if quoted {
      tokens := toks + [t[1..|t| - 1]];
    } else {
      tokens := toks + [t];
    }
  }

  /** The .data branch of parse_line: strtok with '"' first, then with ' '. */
  method ParseData(line: string, p: nat, toks: seq<string>) returns (tokens: seq<string>)
    requires p <= |line|
    ensures tokens == DataWords(line, NextWord(line, p, "\""), toks, 0)
  {
    tokens := toks;
    var tokenLen: nat := 0;
    var next := NextWord(line, p, "\"");
    while next.Some?
      invariant next.Some? ==> next.value.rest <= |line|
      invariant DataWords(line, next, tokens, tokenLen) == DataWords(line, NextWord(line, p, "\""), toks, 0)
      decreases if next.Some? then |line| - next.value.rest + 1 else 0
    {
      var w := next.value;
      tokens, tokenLen := ScanData(w.text, tokens, tokenLen);
      next := NextWord(line, w.rest, " ");
    }
  }

  /** The character loop of one .data word, then the copy of its last segment. */
  method ScanData(w: string, toks: seq<string>, tokenLen: nat) returns (tokens: seq<string>, tokenLen': nat)
    ensures (tokens, tokenLen') == DataWord(w, toks, tokenLen)
  {
    tokens, tokenLen' := toks, tokenLen;
    var segStart: nat := 0;
    var j := 0;
    while j < |w|
      invariant 0 <= j <= |w|
      invariant DataScan(tokens, tokenLen', segStart) == DataFold(w, j, toks, tokenLen)
    {
      tokens, tokenLen', segStart := ScanDataChar(w, j, tokens, tokenLen', segStart);
      j := j + 1;
    }
    if segStart < |w| {
      tokens := tokens + [w[segStart..]];
    }
  }

  /** The body of the character loop of the .data branch, on character j. */
  method ScanDataChar(w: string, j: nat, toks: seq<string>, tokenLen: nat, segStart: nat)
    returns (toks': seq<string>, tokenLen': nat, segStart': nat)
    requires j < |w| && segStart <= j
    ensures DataScan(toks', tokenLen', segStart') == DataChar(w, j, DataScan(toks, tokenLen, segStart))
  {
    toks', tokenLen', segStart' := toks, tokenLen, segStart;
    if !IsSpace(w[j]) {
      tokenLen' := tokenLen' + 1;
    }
    if w[j] == ',' {
      var n := if segStart + tokenLen' - 1 <= |w| then segStart + tokenLen' - 1 else |w|;
      toks' := toks' + [w[segStart..n]];
      segStart' := j + 1;
      tokenLen' := 0;
    }
  }

  /** The operand loop of parse_line over the words after the opcode. */
  method ParseOperands(line: string, p: nat, toks: seq<string>) returns (tokens: seq<string>)
    requires p <= |line|
    ensures tokens == OperandWords(line, NextWord(line, p, " "), toks)
  {
    tokens := toks;
    var next := NextWord(line, p, " ");
    while next.Some?
      invariant next.Some? ==> next.value.rest <= |line|
      invariant OperandWords(line, next, tokens) == OperandWords(line, NextWord(line, p, " "), toks)
      decreases if next.Some? then |line| - next.value.rest + 1 else 0
    {
      var w := next.value;
      tokens := ScanOperands(w.text, tokens);
      next := NextWord(line, w.rest, " ");
    }
  }

  /** The character loop over one operand word: parse_tok on each segment ended by '(' or ','. */
  method ScanOperands(w: string, toks: seq<string>) returns (tokens: seq<string>)
    ensures tokens == OperandWord(w, toks)
  {
    tokens := toks;
    var tokStart: nat := 0;
    var i := 0;
    while i < |w|
      invariant 0 <= i <= |w|
      invariant OperandScan(tokens, tokStart) == OperandFold(w, i, toks)
    {
      if w[i] == '(' || w[i] == ',' {
        tokens := CollectSegment(w, tokStart, i, tokens);
        tokStart := i;
      }
      i := i + 1;
    }
    tokens := CollectSegment(w, tokStart, |w|, tokens);
  }

  /** parse_tok on the segment w[tokStart..end], kept when its trimmed value is longer than the type character. */
  method CollectSegment(w: string, tokStart: nat, end: nat, tokens: seq<string>) returns (tokens': seq<string>)
    requires tokStart <= end <= |w|
    ensures tokens' == Collect(tokens, TypeVal(w, tokStart, end))
  {
    var typeVal := ParseTok(w, tokStart, end);
    var t := Trim(typeVal);
    tokens' := if |t| > 1 then tokens + [typeVal] else tokens;
  }
}
