/**
 * assemble_code (assemble.c): the second pass over the expanded source.
 *
 * The line loop is specified by Passed, a left fold of LineStep over the
 * parsed lines: the symbol table after the external-use pushes, the
 * running IC, the word count instruction_to_bin last reported, the object
 * lines of the code so far and the data image in push order. The method
 * AssembleCode is proved to print the header, exactly those code lines and
 * then the data image, and to write the entry and extern records that the
 * table's chains hold, bucket by bucket.
 */
module SecondPass {
  import opened Util
  import opened Binary
  import Parse
  import Hashtable
  import Address
  import Lists
  import opened Assemble

  // ---------------------------------------------------------------------
  // The object file's lines
  // ---------------------------------------------------------------------

  /** The first line of the object file: the two counters of the first pass. */
  function Header(ic: int, dc: int): string {
    DecimalString(ic) + " " + DecimalString(dc) + "\n"
  }

  /** An object line: the address as a word, a blank, the text of the word stored there. */
  function ObjLine(r: Row): string {
    IntWordText(r.addr) + " " + r.word + "\n"
  }

  /** The two columns of an object line: an address and the text of the word stored there. */
  datatype Row = Row(addr: int, word: string)

  /** The text of the object lines of rows, in order. */
  function Render(rows: seq<Row>): string {
    Concat(Mapped(ObjLine, rows))
  }

  /** The rows an instruction prints: the first n words of the matrix bin, from address addr on. */
  function Rows(bin: seq<int>, addr: int, n: nat): (r: seq<Row>)
    requires |bin| == MATRIX && n <= WORDS
    ensures |r| == n
  {
    if n == 0 then [] else Rows(bin, addr, n - 1) + [Row(addr + n - 1, WordText(bin[Cell(n - 1, 0)..Cell(n, 0)]))]
  }

  /** The rows of the data image: word k at address addr + k. */
  function DataRows(data: seq<int>, addr: int): (r: seq<Row>)
    ensures |r| == |data|
  {
    if data == [] then [] else DataRows(data[..|data| - 1], addr) + [Row(addr + |data| - 1, IntWordText(data[|data| - 1]))]
  }

  /** Row k of an instruction holds the matrix's word k at address addr + k. */
  lemma {:induction false} RowsAt(bin: seq<int>, addr: int, n: nat)
    requires |bin| == MATRIX && n <= WORDS
    ensures forall k :: 0 <= k < n ==> Rows(bin, addr, n)[k] == Row(addr + k, WordText(bin[Cell(k, 0)..Cell(k + 1, 0)]))
  {
    if n > 0 {
      RowsAt(bin, addr, n - 1);
    }
  }

  /** Row k of the data image holds data word k at address addr + k. */
  lemma {:induction false} DataRowsAt(data: seq<int>, addr: int)
    ensures forall k :: 0 <= k < |data| ==> DataRows(data, addr)[k] == Row(addr + k, IntWordText(data[k]))
    decreases |data|
  {
    if data != [] {
      DataRowsAt(data[..|data| - 1], addr);
    }
  }

  /** Printing one more row appends its object line. */
  lemma RenderSnoc(rows: seq<Row>, r: Row)
    ensures Render(rows + [r]) == Render(rows) + ObjLine(r)
  {
    ConcatMappedSnoc(ObjLine, rows, r);
  }

  /** Printing two runs of rows is printing the first, then the second. */
  lemma RenderAppend(a: seq<Row>, b: seq<Row>)
    ensures Render(a + b) == Render(a) + Render(b)
  {
    ConcatMappedAppend(ObjLine, a, b);
  }

  // ---------------------------------------------------------------------
  // The line loop
  // ---------------------------------------------------------------------

  /** What the line loop has built: the table, curr_ic, num_words, the code's object lines and the data image. */
  datatype Pass = Pass(table: map<string, SymbolData>, ic: int, numWords: int, code: seq<Row>, data: seq<int>)

  /** The character codes of s, one word per character. */
  function Codes(s: string): (r: seq<int>)
    ensures |r| == |s| && forall k :: 0 <= k < |s| ==> r[k] == s[k] as int
  {
    if s == [] then [] else Codes(s[..|s| - 1]) + [s[|s| - 1] as int]
  }

  /** The character codes of a .string line's tokens[1] (empty when the line has no label), then a terminating 0. */
  function StringWords(tokens: seq<string>): (r: seq<int>)
    ensures |r| == (if |tokens| > 1 then |tokens[1]| else 0) + 1 && r[|r| - 1] == 0
  {
    Codes(if |tokens| > 1 then tokens[1] else "") + [0]
  }

  /** The numbers of tokens[1..n], as str_to_int reads them. */
  function Numbers(tokens: seq<string>, n: nat): (r: seq<int>)
    requires n <= |tokens|
    ensures |r| == if n > 0 then n - 1 else 0
    ensures forall k :: 0 <= k < |r| ==> r[k] == StrToIntValue(tokens[k + 1])
  {
    if n <= 1 then [] else Numbers(tokens, n - 1) + [StrToIntValue(tokens[n - 1])]
  }

  /** The numbers of a .data line: every token after tokens[0]. */
  function DataWords(tokens: seq<string>): seq<int> {
    Numbers(tokens, |tokens|)
  }

  /** The line takes the instruction branch: neither .string nor .data, and code. */
  predicate IsCode(p: Parse.Parsed) {
    p.typ & SYM_STR == 0 && p.typ & SYM_DAT == 0 && p.typ & SYM_COD != 0
  }

  /** Tokens before the opcode: the label of a label definition. */
  function Skip(p: Parse.Parsed): nat {
    if p.typ & SYM_DEF != 0 then 1 else 0
  }

  /** The opcode token of an instruction line. */
  function OpcodeOf(p: Parse.Parsed): string
    requires |p.tokens| > Skip(p)
  {
    p.tokens[Skip(p)]
  }

  /** The operand tokens of an instruction line. */
  function OperandsOf(p: Parse.Parsed): seq<string>
    requires |p.tokens| > Skip(p)
  {
    p.tokens[Skip(p) + 1..]
  }

  /**
   * An instruction line the encoder can take: an opcode token, at most
   * three operands, and no external or entry label as a jump's second
   * parameter (its ERA word would lie past the matrix).
   */
  predicate LineReady(m: map<string, SymbolData>, p: Parse.Parsed) {
    IsCode(p) ==> |p.tokens| > Skip(p) && |OperandsOf(p)| <= 3 && ThirdInMatrix(m, OperandsOf(p))
  }

  predicate Ready(m: map<string, SymbolData>, ps: seq<Parse.Parsed>) {
    forall k :: 0 <= k < |ps| ==> LineReady(m, ps[k])
  }

  /** Readiness reads only the names and type bits, which Resolve keeps. */
  lemma ReadySame(m: map<string, SymbolData>, m': map<string, SymbolData>, p: Parse.Parsed)
    requires SameSymbols(m, m') && LineReady(m, p)
    ensures LineReady(m', p)
  {
  }

  /**
   * The matrix after an instruction line: cleared, then filled by
   * instruction_to_bin when every operand converts, else left clear.
   */
  function LineMatrix(m: map<string, SymbolData>, ic: int, p: Parse.Parsed): (b: seq<int>)
    requires |p.tokens| > Skip(p) && |OperandsOf(p)| <= 3
    ensures |b| == MATRIX
  {
    var ops := OperandsOf(p);
    var rs := Resolve(m, ic, ops).1;
    ResolveResult(m, ic, ops);
    if rs.Some? then Layout(Parse.GetOpcode(OpcodeOf(p)).0, ops, rs.value) else Zeros(MATRIX)
  }

  /** One line of the loop: data lines push their words, an instruction line prints num_words rows of its matrix. */
  function LineStep(st: Pass, p: Parse.Parsed): (r: Pass)
    requires LineReady(st.table, p) && 0 <= st.numWords <= WORDS
    ensures SameSymbols(st.table, r.table) && 0 <= r.numWords <= WORDS
  {
    if p.typ & SYM_STR != 0 then st.(data := st.data + StringWords(p.tokens))
    else if p.typ & SYM_DAT != 0 then st.(data := st.data + DataWords(p.tokens))
    else if p.typ & SYM_COD != 0 then
      var ops := OperandsOf(p);
      var (m', rs) := Resolve(st.table, st.ic, ops);
      ResolveResult(st.table, st.ic, ops);
      NumWordsBounds(ops);
      var n := if rs.Some? then NumWords(ops) else st.numWords;
      Pass(m', st.ic + n, n, st.code + Rows(LineMatrix(st.table, st.ic, p), st.ic, n), st.data)
    else st
  }

  /** The loop over the lines ps, from curr_ic = BASE_ADDRESS and the uninitialised num_words numWords0. */
  function Passed(m: map<string, SymbolData>, ps: seq<Parse.Parsed>, numWords0: int): (st: Pass)
    requires Ready(m, ps) && 0 <= numWords0 <= WORDS
    ensures SameSymbols(m, st.table) && 0 <= st.numWords <= WORDS
  {
    if ps == [] then Pass(m, BASE_ADDRESS, numWords0, [], [])
    else
      var st := Passed(m, ps[..|ps| - 1], numWords0);
      ReadySame(m, st.table, ps[|ps| - 1]);
      LineStep(st, ps[|ps| - 1])
  }

  // ---------------------------------------------------------------------
  // The loop body
  // ---------------------------------------------------------------------

  /** One more push onto a list holding the pushed words, reversed, above init. */
  lemma PushOne(pushed: seq<int>, x: int, init: seq<int>)
    ensures [x] + (Lists.Reverse(pushed) + init) == Lists.Reverse(pushed + [x]) + init
  {
    Lists.ReverseSnoc(pushed, x);
  }

  /** The .string branch: one push per character of tokens[1], then a 0. */
  method PushString(data: Lists.DList<int>, tokens: seq<string>)
    requires data.Valid()
    modifies data, data.Repr
    ensures data.Valid() && fresh(data.Repr - old(data.Repr))
    ensures data.contents == Lists.Reverse(StringWords(tokens)) + old(data.contents)
  {
    var s := if |tokens| > 1 then tokens[1] else "";
    PushCodes(data, s);
    data.Push(0);
    PushOne(Codes(s), 0, old(data.contents));
  }

  /** The character loop of the .string branch. */
  method PushCodes(data: Lists.DList<int>, s: string)
    requires data.Valid()
    modifies data, data.Repr
    ensures data.Valid() && fresh(data.Repr - old(data.Repr))
    ensures data.contents == Lists.Reverse(Codes(s)) + old(data.contents)
  {
    var i := 0;
    while i < |s|
      invariant 0 <= i <= |s|
      invariant data.Valid() && fresh(data.Repr - old(data.Repr))
      invariant data.contents == Lists.Reverse(Codes(s[..i])) + old(data.contents)
    {
      data.Push(s[i] as int);
      PushOne(Codes(s[..i]), s[i] as int, old(data.contents));
      assert s[..i + 1][..i] == s[..i];
      i := i + 1;
    }
    assert s[..i] == s;
  }

  /** The .data branch: one push per token after the first, as str_to_int reads it. */
  method PushData(data: Lists.DList<int>, tokens: seq<string>)
    requires data.Valid()
    modifies data, data.Repr
    ensures data.Valid() && fresh(data.Repr - old(data.Repr))
    ensures data.contents == Lists.Reverse(DataWords(tokens)) + old(data.contents)
  {
    var i := 1;
    while i < |tokens|
      invariant 1 <= i && (i <= |tokens| || |tokens| == 0)
      invariant data.Valid() && fresh(data.Repr - old(data.Repr))
      invariant data.contents == Lists.Reverse(Numbers(tokens, if |tokens| == 0 then 0 else i)) + old(data.contents)
    {
      var j := StrToInt(tokens[i]);
      data.Push(j);
      PushOne(Numbers(tokens, i), j, old(data.contents));
      i := i + 1;
    }
  }

  /** The print loop of an instruction line: n object lines from address ic on. */
  method PrintRows(bin: array<int>, ic: int, n: int) returns (text: string)
    requires bin.Length == MATRIX && 0 <= n <= WORDS
    ensures text == Render(Rows(bin[..], ic, n))
  {
    text := [];
    var i := 0;
    while i < n
      invariant 0 <= i <= n
      invariant text == Render(Rows(bin[..], ic, i))
    {
      var line := PrintRow(bin, i, ic + i);
      RowsSnoc(bin[..], ic, i);
      text := text + line;
      i := i + 1;
    }
  }

  /** One object line of an instruction: the address, then row i of the matrix. */
  method PrintRow(bin: array<int>, i: nat, addr: int) returns (line: string)
    requires bin.Length == MATRIX && i < WORDS
    ensures line == ObjLine(Row(addr, WordText(bin[..][Cell(i, 0)..Cell(i + 1, 0)])))
  {
    var text := PrintIntAsWord(addr);
    var word := PrintWord(bin, Cell(i, 0));
    assert bin[Cell(i, 0)..Cell(i, 0) + ASM_WORD_SIZE] == bin[..][Cell(i, 0)..Cell(i + 1, 0)];
    line := text + " " + word + "\n";
  }

  /** One more row of the matrix prints one more object line. */
  lemma RowsSnoc(bin: seq<int>, ic: int, i: nat)
    requires |bin| == MATRIX && i < WORDS
    ensures Render(Rows(bin, ic, i + 1)) == Render(Rows(bin, ic, i)) + ObjLine(Row(ic + i, WordText(bin[Cell(i, 0)..Cell(i + 1, 0)])))
  {
    RenderSnoc(Rows(bin, ic, i), Row(ic + i, WordText(bin[Cell(i, 0)..Cell(i + 1, 0)])));
  }

  /** The instruction branch: clear the matrix, pick opcode and operands, encode, print num_words rows. */
  method EncodeLine(labels: Hashtable.HashTable<SymbolData>, bin: array<int>, typ: bv8, tokens: seq<string>,
                    ic0: int, numWords0: int, ghost code0: seq<Row>, ghost data0: seq<int>)
    returns (ic: int, numWords: int, text: string)
    requires labels.Valid() && bin.Length == MATRIX && 0 <= numWords0 <= WORDS
    requires IsCode(Parse.Parsed(typ, tokens)) && LineReady(labels.Contents, Parse.Parsed(typ, tokens))
    modifies labels, labels.entries, bin
    ensures labels.Valid() && labels.entries == old(labels.entries) && labels.size == old(labels.size)
    ensures var st := LineStep(Pass(old(labels.Contents), ic0, numWords0, code0, data0), Parse.Parsed(typ, tokens));
      && st.table == labels.Contents && st.ic == ic && st.numWords == numWords && st.data == data0
      && Render(st.code) == Render(code0) + text
  {
    ghost var st := Pass(labels.Contents, ic0, numWords0, code0, data0);
    ghost var p := Parse.Parsed(typ, tokens);
    numWords := EncodeMatrix(labels, bin, typ, tokens, ic0, numWords0);
    ghost var mat := bin[..];
    text := PrintRows(bin, ic0, numWords);
    ic := ic0 + numWords;
    CodeStep(st, p);
    RenderAppend(code0, Rows(mat, ic0, numWords));
  }

  /** Clearing the matrix and instruction_to_bin on the line's opcode and operands. */
  method EncodeMatrix(labels: Hashtable.HashTable<SymbolData>, bin: array<int>, typ: bv8, tokens: seq<string>,
                      ic0: int, numWords0: int) returns (numWords: int)
    requires labels.Valid() && bin.Length == MATRIX && 0 <= numWords0 <= WORDS
    requires IsCode(Parse.Parsed(typ, tokens)) && LineReady(labels.Contents, Parse.Parsed(typ, tokens))
    modifies labels, labels.entries, bin
    ensures labels.Valid() && labels.entries == old(labels.entries) && labels.size == old(labels.size)
    ensures var ops := OperandsOf(Parse.Parsed(typ, tokens));
      var res := Resolve(old(labels.Contents), ic0, ops);
      && labels.Contents == res.0
      && numWords == (if res.1.Some? then NumWords(ops) else numWords0)
      && 0 <= numWords <= WORDS
      && bin[..] == LineMatrix(old(labels.Contents), ic0, Parse.Parsed(typ, tokens))
  {
    var i := 0;
    while i < MATRIX
      invariant 0 <= i <= MATRIX
      modifies bin
      invariant forall j :: 0 <= j < i ==> bin[j] == 0
    {
      bin[i] := 0;
      i := i + 1;
    }
    assert bin[..] == Zeros(MATRIX);
    var d := if typ & SYM_DEF != 0 then 1 else 0;
    var opcode := tokens[d];
    var operands := tokens[d + 1..];
    ghost var p := Parse.Parsed(typ, tokens);
    assert OpcodeOf(p) == opcode && OperandsOf(p) == operands;
    ghost var m0 := labels.Contents;
    ghost var z := bin[..];
    numWords := InstructionToBin(ic0, labels, opcode, operands, bin, numWords0);
    ResolveResult(m0, ic0, operands);
    NumWordsBounds(operands);
    assert bin[..] == LineMatrix(m0, ic0, p) by {
      assert z == Zeros(MATRIX);
    }
  }

  /** LineStep on an instruction line, spelled out. */
  lemma CodeStep(st: Pass, p: Parse.Parsed)
    requires IsCode(p) && LineReady(st.table, p) && 0 <= st.numWords <= WORDS
    ensures var ops := OperandsOf(p);
      var res := Resolve(st.table, st.ic, ops);
      var n := if res.1.Some? then NumWords(ops) else st.numWords;
      LineStep(st, p) == Pass(res.0, st.ic + n, n, st.code + Rows(LineMatrix(st.table, st.ic, p), st.ic, n), st.data)
  {
  }

  // ---------------------------------------------------------------------
  // assemble_code
  // ---------------------------------------------------------------------

  /**
   * assemble_code over the lines of the expanded source. ps names what
   * parse_line makes of each line and numWords0 the value num_words holds
   * before the first instruction line. obj is the object file: the header,
   * the code lines, then the data image from the address after the code.
   * ent and ext are the entry and extern files (empty when the source
   * creates neither).
   */
  method AssembleCode(labels: Hashtable.HashTable<SymbolData>, ic: int, dc: int, lines: seq<string>,
                      ghost ps: seq<Parse.Parsed>, numWords0: int) returns (obj: string, ent: string, ext: string)
    requires labels.Valid()
    requires |ps| == |lines| && forall i :: 0 <= i < |lines| ==> Parse.ParsedLine(lines[i]) == Some(ps[i])
    requires Ready(labels.Contents, ps) && 0 <= numWords0 <= WORDS
    modifies labels, labels.entries
    ensures labels.Valid() && labels.entries == old(labels.entries) && labels.size == old(labels.size)
    ensures var st := Passed(old(labels.Contents), ps, numWords0);
      && labels.Contents == st.table
      && obj == Header(ic, dc) + Render(st.code + DataRows(st.data, st.ic))
    ensures ent == RecordText(EntRecords(labels.entries[..]))
    ensures ext == RecordText(ExtRecords(labels.entries[..]))
  {
    var data := new Lists.DList<int>();
    var bin := new int[MATRIX];
    obj := Header(ic, dc);
    var code, currIc := AssembleLines(labels, data, bin, lines, ps, numWords0);
    ghost var st := Passed(old(labels.Contents), ps, numWords0);
    Lists.ReverseReverse(st.data);
    var image := PrintData(data, currIc);
    assert image == Render(DataRows(st.data, st.ic));
    RenderAppend(st.code, DataRows(st.data, st.ic));
    obj := obj + (code + image);
    ent, ext := Linkage(labels);
  }

  /** The line loop of assemble_code, from curr_ic = BASE_ADDRESS: the code lines it prints and the final curr_ic. */
  method AssembleLines(labels: Hashtable.HashTable<SymbolData>, data: Lists.DList<int>, bin: array<int>,
                       lines: seq<string>, ghost ps: seq<Parse.Parsed>, numWords0: int) returns (code: string, currIc: int)
    requires labels.Valid() && data.Valid() && data.contents == [] && bin.Length == MATRIX
    requires labels !in data.Repr && labels.entries !in data.Repr && bin !in data.Repr
    requires |ps| == |lines| && forall i :: 0 <= i < |lines| ==> Parse.ParsedLine(lines[i]) == Some(ps[i])
    requires Ready(labels.Contents, ps) && 0 <= numWords0 <= WORDS
    modifies labels, labels.entries, bin, data, data.Repr
    ensures labels.Valid() && labels.entries == old(labels.entries) && labels.size == old(labels.size)
    ensures data.Valid() && fresh(data.Repr - old(data.Repr))
    ensures var st := Passed(old(labels.Contents), ps, numWords0);
      && labels.Contents == st.table && currIc == st.ic && code == Render(st.code)
      && data.contents == Lists.Reverse(st.data)
  {
    ghost var init := labels.Contents;
    currIc := BASE_ADDRESS;
    var numWords := numWords0;
    code := [];
    ghost var st := Pass(init, BASE_ADDRESS, numWords0, [], []);
    var n := 0;
    while n < |lines|
      invariant 0 <= n <= |lines|
      invariant labels.Valid() && labels.entries == old(labels.entries) && labels.size == old(labels.size)
      invariant data.Valid() && fresh(data.Repr - old(data.Repr))
      invariant labels !in data.Repr && labels.entries !in data.Repr && bin !in data.Repr
      invariant st == Passed(init, ps[..n], numWords0)
      invariant st.table == labels.Contents && st.ic == currIc && st.numWords == numWords && code == Render(st.code)
      invariant data.contents == Lists.Reverse(st.data)
    {
      PassedStep(init, ps, n, numWords0);
      var text;
      currIc, numWords, text := AssembleNext(labels, data, bin, lines[n], currIc, numWords, ps[n], st);
      code := code + text;
      st := LineStep(st, ps[n]);
      n := n + 1;
    }
    assert ps[..n] == ps;
  }

  /** parse_line on the next line, then its branch of the loop body. */
  method AssembleNext(labels: Hashtable.HashTable<SymbolData>, data: Lists.DList<int>, bin: array<int>,
                      line: string, ic0: int, numWords0: int, ghost p: Parse.Parsed, ghost st: Pass)
    returns (ic: int, numWords: int, text: string)
    requires labels.Valid() && data.Valid() && bin.Length == MATRIX && 0 <= st.numWords <= WORDS
    requires labels !in data.Repr && labels.entries !in data.Repr && bin !in data.Repr
    requires Parse.ParsedLine(line) == Some(p) && LineReady(st.table, p)
    requires st.table == labels.Contents && st.ic == ic0 && st.numWords == numWords0 && data.contents == Lists.Reverse(st.data)
    modifies labels, labels.entries, bin, data, data.Repr
    ensures labels.Valid() && labels.entries == old(labels.entries) && labels.size == old(labels.size)
    ensures data.Valid() && fresh(data.Repr - old(data.Repr))
    ensures labels !in data.Repr && labels.entries !in data.Repr && bin !in data.Repr
    ensures var st' := LineStep(st, p);
      && st'.table == labels.Contents && st'.ic == ic && st'.numWords == numWords
      && Render(st'.code) == Render(st.code) + text && data.contents == Lists.Reverse(st'.data)
  {
    var typ, tokens := Parse.ParseLine(line);
    ic, numWords, text := AssembleLine(labels, data, bin, typ, tokens, ic0, numWords0, st.code, st.data);
  }

  /** One more line of the loop. */
  lemma PassedStep(m: map<string, SymbolData>, ps: seq<Parse.Parsed>, n: nat, numWords0: int)
    requires Ready(m, ps) && n < |ps| && 0 <= numWords0 <= WORDS
    ensures Ready(m, ps[..n]) && Ready(m, ps[..n + 1])
    ensures LineReady(Passed(m, ps[..n], numWords0).table, ps[n])
    ensures Passed(m, ps[..n + 1], numWords0) == LineStep(Passed(m, ps[..n], numWords0), ps[n])
  {
    assert ps[..n + 1][..n] == ps[..n];
    ReadySame(m, Passed(m, ps[..n], numWords0).table, ps[n]);
  }

  /** The body of the line loop: parse_line's type bits choose the .string, .data or instruction branch. */
  method AssembleLine(labels: Hashtable.HashTable<SymbolData>, data: Lists.DList<int>, bin: array<int>,
                      typ: bv8, tokens: seq<string>, ic0: int, numWords0: int, ghost code0: seq<Row>, ghost data0: seq<int>)
    returns (ic: int, numWords: int, text: string)
    requires labels.Valid() && data.Valid() && bin.Length == MATRIX && 0 <= numWords0 <= WORDS
    requires labels !in data.Repr && labels.entries !in data.Repr && bin !in data.Repr
    requires LineReady(labels.Contents, Parse.Parsed(typ, tokens)) && data.contents == Lists.Reverse(data0)
    modifies labels, labels.entries, bin, data, data.Repr
    ensures labels.Valid() && labels.entries == old(labels.entries) && labels.size == old(labels.size)
    ensures data.Valid() && fresh(data.Repr - old(data.Repr))
    ensures labels !in data.Repr && labels.entries !in data.Repr && bin !in data.Repr
    ensures var st := LineStep(Pass(old(labels.Contents), ic0, numWords0, code0, data0), Parse.Parsed(typ, tokens));
      && st.table == labels.Contents && st.ic == ic && st.numWords == numWords && Render(st.code) == Render(code0) + text
      && data.contents == Lists.Reverse(st.data)
  {
    ic, numWords, text := ic0, numWords0, [];
    if typ & SYM_STR != 0 {
      PushString(data, tokens);
      Lists.ReverseAppend(data0, StringWords(tokens));
    } else if typ & SYM_DAT != 0 {
      PushData(data, tokens);
      Lists.ReverseAppend(data0, DataWords(tokens));
    } else if typ & SYM_COD != 0 {
      ic, numWords, text := EncodeLine(labels, bin, typ, tokens, ic0, numWords0, code0, data0);
    } else {
      assert Render(code0) + text == Render(code0);
    }
  }

  /**
   * The walk from the data list's tail through the prev links: each word
   * with its address, from ic on. The walk collects the words in push
   * order first (Lists.WalkFromTail), then prints them.
   */
  method PrintData(data: Lists.DList<int>, ic: int) returns (text: string)
    requires data.Valid()
    ensures text == Render(DataRows(Lists.Reverse(data.contents), ic))
  {
    var words := Lists.WalkFromTail(data);
    text := PrintWords(words, ic);
  }

  /** The printing half of the data walk: word k at address ic + k. */
  method PrintWords(words: seq<int>, ic: int) returns (text: string)
    ensures text == Render(DataRows(words, ic))
  {
    text := [];
    var currIc := ic;
    var k := 0;
    while k < |words|
      invariant 0 <= k <= |words| && currIc == ic + k
      invariant text == Render(DataRows(words[..k], ic))
    {
      DataRowsSnoc(words, ic, k);
      var addr := PrintIntAsWord(currIc);
      currIc := currIc + 1;
      var word := PrintIntAsWord(words[k]);
      text := text + (addr + " " + word + "\n");
      k := k + 1;
    }
    assert words[..k] == words;
  }

  /** One more data word prints one more object line. */
  lemma DataRowsSnoc(words: seq<int>, ic: int, k: nat)
    requires k < |words|
    ensures Render(DataRows(words[..k + 1], ic)) == Render(DataRows(words[..k], ic)) + ObjLine(Row(ic + k, IntWordText(words[k])))
  {
    assert words[..k + 1][..k] == words[..k];
    RenderSnoc(DataRows(words[..k], ic), Row(ic + k, IntWordText(words[k])));
  }

  // ---------------------------------------------------------------------
  // The entry and extern files
  // ---------------------------------------------------------------------

  /** A line of the .ent or .ext file: a label name and a value printed as a word. */
  datatype Record = Record(name: string, value: int)

  function RecordLine(r: Record): string {
    r.name + " " + IntWordText(r.value) + "\n"
  }

  /** The lines of the records, in order. */
  function RecordText(rs: seq<Record>): string {
    Concat(Mapped(RecordLine, rs))
  }

  /** The .ent line of one entry: present when the symbol is marked entry. */
  function EntryOf(e: Hashtable.Entry<SymbolData>): seq<Record> {
    if e.value.typ & SYM_ENT != 0 then [Record(e.key, e.value.addr)] else []
  }

  /** One .ext line per recorded use of name, in list order. */
  function UseRecords(name: string, uses: seq<int>): (r: seq<Record>)
    ensures |r| == |uses| && forall k :: 0 <= k < |uses| ==> r[k] == Record(name, uses[k])
  {
    if uses == [] then [] else UseRecords(name, uses[..|uses| - 1]) + [Record(name, uses[|uses| - 1])]
  }

  /** The .ext lines of one entry: the uses of an external symbol. */
  function ExternOf(e: Hashtable.Entry<SymbolData>): seq<Record> {
    if e.value.typ & SYM_EXT != 0 then UseRecords(e.key, e.value.other) else []
  }

  /** The .ent lines of one chain, in chain order. */
  function EntryRecords(chain: seq<Hashtable.Entry<SymbolData>>): seq<Record> {
    if chain == [] then [] else EntryRecords(chain[..|chain| - 1]) + EntryOf(chain[|chain| - 1])
  }

  /** The .ext lines of one chain, in chain order. */
  function ExternRecords(chain: seq<Hashtable.Entry<SymbolData>>): seq<Record> {
    if chain == [] then [] else ExternRecords(chain[..|chain| - 1]) + ExternOf(chain[|chain| - 1])
  }

  /** The .ent lines of the whole table, bucket by bucket. */
  function EntRecords(chains: seq<seq<Hashtable.Entry<SymbolData>>>): seq<Record> {
    if chains == [] then [] else EntRecords(chains[..|chains| - 1]) + EntryRecords(chains[|chains| - 1])
  }

  /** The .ext lines of the whole table, bucket by bucket. */
  function ExtRecords(chains: seq<seq<Hashtable.Entry<SymbolData>>>): seq<Record> {
    if chains == [] then [] else ExtRecords(chains[..|chains| - 1]) + ExternRecords(chains[|chains| - 1])
  }

  /** The linkage loop of assemble_code: every bucket, every entry of its chain. */
  method Linkage(labels: Hashtable.HashTable<SymbolData>) returns (ent: string, ext: string)
    requires labels.Valid()
    ensures ent == RecordText(EntRecords(labels.entries[..]))
    ensures ext == RecordText(ExtRecords(labels.entries[..]))
  {
    ent, ext := [], [];
    var i := 0;
    while i < labels.size
      invariant 0 <= i <= labels.size
      invariant ent == RecordText(EntRecords(labels.entries[..i]))
      invariant ext == RecordText(ExtRecords(labels.entries[..i]))
    {
      var chain := labels.entries[i];
      assert labels.entries[..i + 1][..i] == labels.entries[..i];
      var e, x := LinkChain(chain);
      RecordTextAppend(EntRecords(labels.entries[..i]), EntryRecords(chain));
      RecordTextAppend(ExtRecords(labels.entries[..i]), ExternRecords(chain));
      ent := ent + e;
      ext := ext + x;
      i := i + 1;
    }
    assert labels.entries[..i] == labels.entries[..];
  }

  /** The walk along one chain. */
  method LinkChain(chain: seq<Hashtable.Entry<SymbolData>>) returns (ent: string, ext: string)
    ensures ent == RecordText(EntryRecords(chain)) && ext == RecordText(ExternRecords(chain))
  {
    ent, ext := [], [];
    var j := 0;
    while j < |chain|
      invariant 0 <= j <= |chain|
      invariant ent == RecordText(EntryRecords(chain[..j])) && ext == RecordText(ExternRecords(chain[..j]))
    {
      assert chain[..j + 1][..j] == chain[..j];
      var e, x := LinkEntry(chain[j]);
      RecordTextAppend(EntryRecords(chain[..j]), EntryOf(chain[j]));
      RecordTextAppend(ExternRecords(chain[..j]), ExternOf(chain[j]));
      ent := ent + e;
      ext := ext + x;
      j := j + 1;
    }
    assert chain[..j] == chain;
  }

  /** One entry of a chain: its .ent line when marked entry, its use lines when external. */
  method LinkEntry(e: Hashtable.Entry<SymbolData>) returns (ent: string, ext: string)
    ensures ent == RecordText(EntryOf(e)) && ext == RecordText(ExternOf(e))
  {
    ent, ext := [], [];
    var sd := e.value;
    if sd.typ & SYM_ENT != 0 {
      var addr := PrintIntAsWord(sd.addr);
      ent := e.key + " " + addr + "\n";
      ConcatMappedSnoc(RecordLine, [], Record(e.key, sd.addr));
    }
    if sd.typ & SYM_EXT != 0 {
      ext := LinkUses(e.key, sd.other);
    }
  }

  /** The walk along an external symbol's list of uses, from its head. */
  method LinkUses(name: string, other: seq<int>) returns (ext: string)
    ensures ext == RecordText(UseRecords(name, other))
  {
    ext := [];
    var k := 0;
    while k < |other|
      invariant 0 <= k <= |other|
      invariant ext == RecordText(UseRecords(name, other[..k]))
    {
      assert UseRecords(name, other[..k + 1]) == UseRecords(name, other[..k]) + [Record(name, other[k])];
      ConcatMappedSnoc(RecordLine, UseRecords(name, other[..k]), Record(name, other[k]));
      var use := PrintIntAsWord(other[k]);
      ext := ext + (name + " " + use + "\n");
      k := k + 1;
    }
    assert other[..k] == other;
  }

  /** The text of two runs of records is the text of the first, then of the second. */
  lemma RecordTextAppend(a: seq<Record>, b: seq<Record>)
    ensures RecordText(a + b) == RecordText(a) + RecordText(b)
  {
    ConcatMappedAppend(RecordLine, a, b);
  }

  /** The runs f(x) of the elements x of xs, one after another. */
  function Flatten<T, U>(f: T -> seq<U>, xs: seq<T>): seq<U> {
    if xs == [] then [] else Flatten(f, xs[..|xs| - 1]) + f(xs[|xs| - 1])
  }

  /** An element of the runs belongs to the run of one of the elements. */
  lemma {:induction false} FlattenHas<T, U>(f: T -> seq<U>, xs: seq<T>, r: U)
    ensures r in Flatten(f, xs) <==> exists j :: 0 <= j < |xs| && r in f(xs[j])
    decreases |xs|
  {
    if xs != [] {
      var init := xs[..|xs| - 1];
      FlattenHas(f, init, r);
      if exists j :: 0 <= j < |init| && r in f(init[j]) {
        var j :| 0 <= j < |init| && r in f(init[j]);
        assert xs[j] == init[j];
      }
      if exists j :: 0 <= j < |xs| && r in f(xs[j]) {
        var j :| 0 <= j < |xs| && r in f(xs[j]);
        if j < |init| {
          assert init[j] == xs[j];
        }
      }
    }
  }

  lemma {:induction false} EntryRecordsFlat(chain: seq<Hashtable.Entry<SymbolData>>)
    ensures EntryRecords(chain) == Flatten(EntryOf, chain)
    decreases |chain|
  {
    if chain != [] {
      EntryRecordsFlat(chain[..|chain| - 1]);
    }
  }

  lemma {:induction false} ExternRecordsFlat(chain: seq<Hashtable.Entry<SymbolData>>)
    ensures ExternRecords(chain) == Flatten(ExternOf, chain)
    decreases |chain|
  {
    if chain != [] {
      ExternRecordsFlat(chain[..|chain| - 1]);
    }
  }

  lemma {:induction false} EntRecordsFlat(chains: seq<seq<Hashtable.Entry<SymbolData>>>)
    ensures EntRecords(chains) == Flatten(EntryRecords, chains)
    decreases |chains|
  {
    if chains != [] {
      EntRecordsFlat(chains[..|chains| - 1]);
    }
  }

  lemma {:induction false} ExtRecordsFlat(chains: seq<seq<Hashtable.Entry<SymbolData>>>)
    ensures ExtRecords(chains) == Flatten(ExternRecords, chains)
    decreases |chains|
  {
    if chains != [] {
      ExtRecordsFlat(chains[..|chains| - 1]);
    }
  }

  /** A record is a .ent line of the table exactly when it is the .ent line of an entry of some bucket. */
  lemma EntRecordsHas(chains: seq<seq<Hashtable.Entry<SymbolData>>>, r: Record)
    ensures r in EntRecords(chains) <==>
      exists b, j :: 0 <= b < |chains| && 0 <= j < |chains[b]| && r in EntryOf(chains[b][j])
  {
    EntRecordsFlat(chains);
    FlattenHas(EntryRecords, chains, r);
    forall b | 0 <= b < |chains|
      ensures r in EntryRecords(chains[b]) <==> exists j :: 0 <= j < |chains[b]| && r in EntryOf(chains[b][j])
    {
      EntryRecordsFlat(chains[b]);
      FlattenHas(EntryOf, chains[b], r);
    }
  }

  /** A record is a .ext line of the table exactly when it is a .ext line of an entry of some bucket. */
  lemma ExtRecordsHas(chains: seq<seq<Hashtable.Entry<SymbolData>>>, r: Record)
    ensures r in ExtRecords(chains) <==>
      exists b, j :: 0 <= b < |chains| && 0 <= j < |chains[b]| && r in ExternOf(chains[b][j])
  {
    ExtRecordsFlat(chains);
    FlattenHas(ExternRecords, chains, r);
    forall b | 0 <= b < |chains|
      ensures r in ExternRecords(chains[b]) <==> exists j :: 0 <= j < |chains[b]| && r in ExternOf(chains[b][j])
    {
      ExternRecordsFlat(chains[b]);
      FlattenHas(ExternOf, chains[b], r);
    }
  }

  /** Entry j of bucket b of a consistent table is the symbol with its key, and its value is the symbol's. */
  lemma TableEntry(chains: seq<seq<Hashtable.Entry<SymbolData>>>, size: nat, m: map<string, SymbolData>, b: nat, j: nat)
    requires Hashtable.TableOf(chains, size, m)
    requires b < |chains| && j < |chains[b]|
    ensures chains[b][j].key in m && m[chains[b][j].key] == chains[b][j].value
  {
    var e := chains[b][j];
    assert Hashtable.BucketOf(e.key, size) == b;
    assert Hashtable.DistinctKeys(chains[b]);
    Hashtable.LookupAt(chains[b], j);
    assert Hashtable.MapGet(m, e.key) == Some(e.value);
  }

  /** Every symbol of a consistent table is an entry of some bucket. */
  lemma TableHas(chains: seq<seq<Hashtable.Entry<SymbolData>>>, size: nat, m: map<string, SymbolData>, k: string)
    requires Hashtable.TableOf(chains, size, m) && k in m
    ensures exists b, j :: 0 <= b < |chains| && 0 <= j < |chains[b]| && chains[b][j] == Hashtable.Entry(k, m[k])
  {
    var b := Hashtable.BucketOf(k, size);
    assert Hashtable.Lookup(chains[b], k) == Some(m[k]);
    var j :| 0 <= j < |chains[b]| && chains[b][j] == Hashtable.Entry(k, m[k]);
  }

  /**
   * The .ent file of a label table holds, for every symbol marked entry and
   * for nothing else, a line with the symbol's name and address.
   */
  lemma EntRecordsOfTable(chains: seq<seq<Hashtable.Entry<SymbolData>>>, size: nat, m: map<string, SymbolData>, r: Record)
    requires Hashtable.TableOf(chains, size, m)
    ensures r in EntRecords(chains) <==> exists k :: k in m && m[k].typ & SYM_ENT != 0 && r == Record(k, m[k].addr)
  {
    EntRecordsHas(chains, r);
    if r in EntRecords(chains) {
      var b, j :| 0 <= b < |chains| && 0 <= j < |chains[b]| && r in EntryOf(chains[b][j]);
      TableEntry(chains, size, m, b, j);
      var k := chains[b][j].key;
      assert k in m && m[k].typ & SYM_ENT != 0 && r == Record(k, m[k].addr);
    }
    if exists k :: k in m && m[k].typ & SYM_ENT != 0 && r == Record(k, m[k].addr) {
      var k :| k in m && m[k].typ & SYM_ENT != 0 && r == Record(k, m[k].addr);
      TableHas(chains, size, m, k);
      var b, j :| 0 <= b < |chains| && 0 <= j < |chains[b]| && chains[b][j] == Hashtable.Entry(k, m[k]);
      assert r in EntryOf(chains[b][j]);
    }
  }

  /**
   * The .ext file of a label table holds, for every symbol marked external
   * and every recorded use of it, a line with the symbol's name and the
   * address of the use, and nothing else.
   */
  lemma ExtRecordsOfTable(chains: seq<seq<Hashtable.Entry<SymbolData>>>, size: nat, m: map<string, SymbolData>, r: Record)
    requires Hashtable.TableOf(chains, size, m)
    ensures r in ExtRecords(chains) <==>
      exists k, u :: k in m && m[k].typ & SYM_EXT != 0 && 0 <= u < |m[k].other| && r == Record(k, m[k].other[u])
  {
    ExtRecordsHas(chains, r);
    if r in ExtRecords(chains) {
      var b, j :| 0 <= b < |chains| && 0 <= j < |chains[b]| && r in ExternOf(chains[b][j]);
      TableEntry(chains, size, m, b, j);
      var k := chains[b][j].key;
      var rs := UseRecords(k, m[k].other);
      var u :| 0 <= u < |rs| && rs[u] == r;
      assert k in m && m[k].typ & SYM_EXT != 0 && 0 <= u < |m[k].other| && r == Record(k, m[k].other[u]);
    }
    if exists k, u :: k in m && m[k].typ & SYM_EXT != 0 && 0 <= u < |m[k].other| && r == Record(k, m[k].other[u]) {
      var k, u :| k in m && m[k].typ & SYM_EXT != 0 && 0 <= u < |m[k].other| && r == Record(k, m[k].other[u]);
      TableHas(chains, size, m, k);
      var b, j :| 0 <= b < |chains| && 0 <= j < |chains[b]| && chains[b][j] == Hashtable.Entry(k, m[k]);
      assert UseRecords(k, m[k].other)[u] == r;
      assert r in ExternOf(chains[b][j]);
    }
  }

  // ---------------------------------------------------------------------
  // The object file's address column
  // ---------------------------------------------------------------------

  /** rows holds one row per address from BASE_ADDRESS up to ic, in address order. */
  predicate Numbered(rows: seq<Row>, ic: int) {
    && |rows| == ic - BASE_ADDRESS
    && forall k :: 0 <= k < |rows| ==> rows[k].addr == BASE_ADDRESS + k
  }

  /** Rows numbered on from ic continue a numbering that stops at ic. */
  lemma AppendNumbered(code: seq<Row>, rows: seq<Row>, ic: int)
    requires Numbered(code, ic) && forall k :: 0 <= k < |rows| ==> rows[k].addr == ic + k
    ensures Numbered(code + rows, ic + |rows|)
  {
    forall k | 0 <= k < |code + rows| ensures (code + rows)[k].addr == BASE_ADDRESS + k {
      if k >= |code| {
        assert (code + rows)[k] == rows[k - |code|];
      }
    }
  }

  /** The rows of an instruction are numbered from addr on. */
  lemma {:induction false} RowsAddr(bin: seq<int>, addr: int, n: nat)
    requires |bin| == MATRIX && n <= WORDS
    ensures forall k :: 0 <= k < n ==> Rows(bin, addr, n)[k].addr == addr + k
  {
    if n > 0 {
      RowsAddr(bin, addr, n - 1);
    }
  }

  /** One line of the loop keeps the code rows numbered up to curr_ic. */
  lemma StepNumbered(st: Pass, p: Parse.Parsed)
    requires LineReady(st.table, p) && 0 <= st.numWords <= WORDS && Numbered(st.code, st.ic)
    ensures Numbered(LineStep(st, p).code, LineStep(st, p).ic)
  {
    if IsCode(p) {
      CodeStep(st, p);
      var ops := OperandsOf(p);
      var res := Resolve(st.table, st.ic, ops);
      var n := if res.1.Some? then NumWords(ops) else st.numWords;
      RowsAddr(LineMatrix(st.table, st.ic, p), st.ic, n);
      AppendNumbered(st.code, Rows(LineMatrix(st.table, st.ic, p), st.ic, n), st.ic);
    }
  }

  /** The code rows of the line loop run from BASE_ADDRESS up to the final IC, one row per address. */
  lemma {:induction false} PassedAddresses(m: map<string, SymbolData>, ps: seq<Parse.Parsed>, numWords0: int)
    requires Ready(m, ps) && 0 <= numWords0 <= WORDS
    ensures Numbered(Passed(m, ps, numWords0).code, Passed(m, ps, numWords0).ic)
  {
    if ps != [] {
      PassedStep(m, ps, |ps| - 1, numWords0);
      assert ps[..|ps| - 1 + 1] == ps;
      PassedAddresses(m, ps[..|ps| - 1], numWords0);
      StepNumbered(Passed(m, ps[..|ps| - 1], numWords0), ps[|ps| - 1]);
    }
  }

  /** The rows of the data image are numbered from addr on. */
  lemma {:induction false} DataRowsAddr(data: seq<int>, addr: int)
    ensures forall k :: 0 <= k < |data| ==> DataRows(data, addr)[k].addr == addr + k
    decreases |data|
  {
    if data != [] {
      DataRowsAddr(data[..|data| - 1], addr);
    }
  }

  /**
   * The object file below its header: one row per address from
   * BASE_ADDRESS on, without gap or repeat, the code first and the data
   * image right after it.
   */
  lemma ObjectAddresses(m: map<string, SymbolData>, ps: seq<Parse.Parsed>, numWords0: int)
    requires Ready(m, ps) && 0 <= numWords0 <= WORDS
    ensures var st := Passed(m, ps, numWords0);
      Numbered(st.code + DataRows(st.data, st.ic), st.ic + |st.data|)
  {
    PassedAddresses(m, ps, numWords0);
    var st := Passed(m, ps, numWords0);
    DataRowsAddr(st.data, st.ic);
    AppendNumbered(st.code, DataRows(st.data, st.ic), st.ic);
  }

  /** The data image follows the code: data word k is printed at the final IC plus k. */
  lemma DataImage(m: map<string, SymbolData>, ps: seq<Parse.Parsed>, numWords0: int)
    requires Ready(m, ps) && 0 <= numWords0 <= WORDS
    ensures var st := Passed(m, ps, numWords0);
      forall k :: 0 <= k < |st.data| ==>
        (st.code + DataRows(st.data, st.ic))[|st.code| + k] == Row(st.ic + k, IntWordText(st.data[k]))
  {
    var st := Passed(m, ps, numWords0);
    DataRowsAt(st.data, st.ic);
  }
}
