/**
 * The syntax check of validate.c: the token validators, validate_tokens and
 * the per-line rules of validate_code.
 *
 * validate_tokens walks the token list from its tail through the `prev`
 * links, that is, in the order tokenize pushed the tokens; here it reads
 * that same sequence (Tokenize.Tokens). Each error is reported by its code;
 * the message text after the code is not modelled.
 */
module Validate {
  import opened Util
  import Parse
  import Tokenize
  import Lists

  // ---------------------------------------------------------------------
  // is_valid_opcode
  // ---------------------------------------------------------------------

  /** The operand class of an opcode. */
  function OpType(op: int): (t: int)
    ensures t == OPTYPE_INS || t == OPTYPE_UNI || t == OPTYPE_BIN || t == OPTYPE_JMP
  {
    if op == 6 || (0 <= op <= 3) then OPTYPE_BIN
    else if op == 4 || op == 5 || op == 7 || op == 8 || op == 11 || op == 12 then OPTYPE_UNI
    else if op == 9 || op == 10 || op == 13 then OPTYPE_JMP
    else OPTYPE_INS
  }

  /** is_valid_opcode: the opcode and its operand class, or None when get_opcode gives -1. */
  function ValidOpcode(s: string): (r: Option<(int, int)>)
    ensures r.None? <==> Parse.GetOpcode(s).0 == -1
    ensures r.Some? ==> 0 <= r.value.0 < |Parse.MNEMONICS| && Parse.MNEMONICS[r.value.0] <= s
  {
    var op := Parse.GetOpcode(s).0;
    if op == -1 then None else Some((op, OpType(op)))
  }

  /**
   * The operand classes by mnemonic: mov, cmp, add, sub and lea take two
   * operands; not, clr, inc, dec, red and prn one; jmp, bne and jsr are
   * jumps; rts and stop take none.
   */
  lemma OpTypeByMnemonic(op: nat)
    requires op < |Parse.MNEMONICS|
    ensures var m := Parse.MNEMONICS[op];
      && (OpType(op) == OPTYPE_BIN <==> m in ["mov", "cmp", "add", "sub", "lea"])
      && (OpType(op) == OPTYPE_UNI <==> m in ["not", "clr", "inc", "dec", "red", "prn"])
      && (OpType(op) == OPTYPE_JMP <==> m in ["jmp", "bne", "jsr"])
      && (OpType(op) == OPTYPE_INS <==> m in ["rts", "stop"])
  {
  }

  // ---------------------------------------------------------------------
  // is_valid_reg
  // ---------------------------------------------------------------------

  /** is_valid_reg: 'r', then a digit 0-7 at index 1, and at most two characters. */
  predicate ValidReg(s: string) {
    CharAt(s, 0) == 'r' && '0' <= CharAt(s, 1) <= '7' && |s| <= 2
  }

  /** A register is exactly r0 to r7. */
  lemma ValidRegExactly(s: string)
    ensures ValidReg(s) <==> |s| == 2 && s[0] == 'r' && '0' <= s[1] <= '7'
  {
  }

  // ---------------------------------------------------------------------
  // is_valid_label
  // ---------------------------------------------------------------------

  /** The label rule: 1 to LABEL_SIZE characters, a letter first, then letters, digits or signs. */
  predicate LabelRule(s: string) {
    && 0 < |s| <= LABEL_SIZE
    && IsAlpha(s[0])
    && forall i :: 1 <= i < |s| ==> IsAlphaNum(s[i])
  }

  /** is_valid_label: the length check, the first letter, then a scan of the rest. */
  method IsValidLabel(s: string) returns (ok: bool)
    ensures ok <==> LabelRule(s)
  {
    if |s| > LABEL_SIZE || |s| == 0 {
      return false;
    }
    if !IsAlpha(s[0]) {
      return false;
    }
    var i := 1;
    while i < |s|
      invariant 1 <= i <= |s|
      invariant forall k :: 1 <= k < i ==> IsAlphaNum(s[k])
    {
      if !IsAlphaNum(s[i]) {
        return false;
      }
      i := i + 1;
    }
    return true;
  }

  // ---------------------------------------------------------------------
  // is_valid_imm
  // ---------------------------------------------------------------------

  /**
   * The accumulator of is_valid_imm: `num = num * 10 + str[i]` adds the
   * character code of each digit, not its value.
   */
  function CodeSum(d: string): int {
    if d == [] then 0 else CodeSum(d[..|d| - 1]) * 10 + d[|d| - 1] as int
  }

  /** Where the digits of an immediate start: after '#' unless no_prefix, then after one sign. */
  function DigitsStart(s: string, noPrefix: bool): (i: nat)
    requires IsNum(CharAt(s, if noPrefix then 0 else 1))
    ensures i <= |s|
  {
    var j := if noPrefix then 0 else 1;
    if CharAt(s, j) == '-' || CharAt(s, j) == '+' then j + 1 else j
  }

  /**
   * is_valid_imm: '#' first unless no_prefix; then a digit or sign; then
   * digits only; and the accumulator shifted right by ASM_WORD_SIZE - 3 bits
   * must be zero (the accumulator is never negative, so the shift is a
   * division by 2^11).
   */
  predicate ValidImm(s: string, noPrefix: bool) {
    var j := if noPrefix then 0 else 1;
    && (noPrefix || CharAt(s, 0) == '#')
    && IsNum(CharAt(s, j))
    && (forall k :: DigitsStart(s, noPrefix) <= k < |s| ==> IsDigit(s[k]))
    && CodeSum(s[DigitsStart(s, noPrefix)..]) / 2048 == 0
  }

  /** is_valid_imm, with its digit loop. */
  method IsValidImm(s: string, noPrefix: bool) returns (ok: bool)
    ensures ok == ValidImm(s, noPrefix)
  {
    var j := 0;
    if !noPrefix {
      if CharAt(s, 0) != '#' {
        return false;
      }
      j := 1;
    }
    if !IsNum(CharAt(s, j)) {
      return false;
    }
    var start := if CharAt(s, j) == '-' || CharAt(s, j) == '+' then j + 1 else j;
    assert start == DigitsStart(s, noPrefix);
    var digits, num := ScanDigits(s, start);
    return digits && num / 2048 == 0;
  }

  /** The digit loop of is_valid_imm: stops at the first non-digit, else accumulates every code. */
  method ScanDigits(s: string, start: nat) returns (digits: bool, num: int)
    requires start <= |s|
    ensures digits <==> forall k :: start <= k < |s| ==> IsDigit(s[k])
    ensures digits ==> num == CodeSum(s[start..])
  {
    num := 0;
    var i: nat := start;
    while i < |s|
      invariant start <= i <= |s|
      invariant forall k :: start <= k < i ==> IsDigit(s[k])
      invariant num == CodeSum(s[start..i])
    {
      if s[i] < '0' || s[i] > '9' {
        return false, num;
      }
      CodeSumSnoc(s, start, i);
      num := num * 10 + s[i] as int;
      i := i + 1;
    }
    assert s[start..i] == s[start..];
    digits := true;
  }

  lemma CodeSumSnoc(s: string, start: nat, i: nat)
    requires start <= i < |s|
    ensures CodeSum(s[start..i + 1]) == CodeSum(s[start..i]) * 10 + s[i] as int
  {
    assert s[start..i + 1][..i - start] == s[start..i];
  }

  lemma {:induction false} CodeSumGrows(d: string)
    requires forall k :: 0 <= k < |d| ==> IsDigit(d[k])
    ensures CodeSum(d) >= 0
    ensures |d| >= 3 ==> CodeSum(d) >= 5328
    ensures |d| <= 2 ==> CodeSum(d) <= 627
  {
    if d != [] {
      CodeSumGrows(d[..|d| - 1]);
      if |d| == 3 {
        assert CodeSum(d[..1]) >= 48 by { assert d[..1][..0] == []; }
        assert d[..2][..1] == d[..1];
      }
    }
  }

  /**
   * What is_valid_imm accepts: the prefix and sign rules, digits only, and
   * at most two digits. Because character codes are summed, every literal of
   * one or two digits passes and every literal of three or more fails.
   */
  lemma ValidImmDigits(s: string, noPrefix: bool)
    ensures ValidImm(s, noPrefix) <==>
      var j := if noPrefix then 0 else 1;
      && (noPrefix || CharAt(s, 0) == '#')
      && IsNum(CharAt(s, j))
      && (forall k :: DigitsStart(s, noPrefix) <= k < |s| ==> IsDigit(s[k]))
      && |s| - DigitsStart(s, noPrefix) <= 2
  {
    var j := if noPrefix then 0 else 1;
    if IsNum(CharAt(s, j)) {
      var d := s[DigitsStart(s, noPrefix)..];
      if forall k :: 0 <= k < |d| ==> IsDigit(d[k]) {
        CodeSumGrows(d);
      }
    }
  }

  // ---------------------------------------------------------------------
  // validate_tokens
  // ---------------------------------------------------------------------

  /** How an operand position treats an immediate or a register: refused with a code, or checked with a code. */
  datatype Rule = Refuse(code: int) | Check(code: int)

  /**
   * The check of one operand token: a leading '#' is an immediate, a
   * leading 'r' a register, anything else a label.
   */
  function OperandError(t: string, imm: Rule, reg: Rule, labelCode: int): Option<int> {
    if CharAt(t, 0) == '#' then
      match imm
      case Refuse(c) => Some(c)
      case Check(c) => if ValidImm(t, false) then None else Some(c)
    else if CharAt(t, 0) == 'r' then
      match reg
      case Refuse(c) => Some(c)
      case Check(c) => if ValidReg(t) then None else Some(c)
    else if LabelRule(t) then None
    else Some(labelCode)
  }

  /** The token at k, or None past the end (a NULL node). */
  function At(toks: seq<string>, k: nat): Option<string> {
    if k < |toks| then Some(toks[k]) else None
  }

  /**
   * validate_tokens: the first rule the tokens break, by its code, or None
   * when the line is accepted. The source dereferences the list's tail, so
   * the list is not empty.
   */
  function LineError(toks: seq<string>): (r: Option<int>)
    requires |toks| > 0
  {
    if |toks| > 1 && toks[1] == ":" then
      if !LabelRule(toks[0]) then Some(1) else StatementError(toks, 2)
    else StatementError(toks, 0)
  }

  /** validate_tokens from the cursor k on: the directive or instruction. */
  function StatementError(toks: seq<string>, k: nat): Option<int> {
    if k >= |toks| then Some(2)
    else if toks[k] == ".extern" || toks[k] == ".entry" then
      if k + 1 >= |toks| then Some(3)
      else if !LabelRule(toks[k + 1]) then Some(4)
      else if k + 2 < |toks| then Some(5)
      else None
    else if toks[k] == ".string" then
      if k + 1 >= |toks| then Some(8)
      else
        var t := toks[k + 1];
        if CharAt(t, 0) != '"' || CharAt(t, |t| - 1) != '"' then Some(9)
        else if k + 2 < |toks| then Some(10)
        else None
    else if toks[k] == ".data" then
      if k + 1 >= |toks| then Some(11) else DataError(toks, k + 1, false)
    else
      match ValidOpcode(toks[k])
      case None => Some(13)
      case Some(p) => OperandsError(toks, k + 1, p.0, p.1)
  }

  /** The .data loop: numbers without '#' alternating with commas, ending with a number. */
  function DataError(toks: seq<string>, k: nat, needComma: bool): Option<int>
    decreases |toks| - k
  {
    if k >= |toks| then (if !needComma then Some(52) else None)
    else if needComma then
      if CharAt(toks[k], 0) != ',' then Some(53) else DataError(toks, k + 1, false)
    else if !ValidImm(toks[k], true) then Some(12)
    else DataError(toks, k + 1, true)
  }

  /** The operands of an instruction with opcode op, from the cursor k on. */
  function OperandsError(toks: seq<string>, k: nat, op: int, optype: int): Option<int> {
    if optype == OPTYPE_INS then
      if k < |toks| then Some(14) else None
    else if optype == OPTYPE_UNI then
      if k >= |toks| then Some(15)
      else
        var e := OperandError(toks[k], if op == 12 then Check(16) else Refuse(17), Check(18), 19);
        if e.Some? then e
        else if k + 1 < |toks| then Some(20)
        else None
    else if optype == OPTYPE_BIN then
      if k >= |toks| then Some(21)
      else
        var src := OperandError(toks[k], if op == 6 then Refuse(22) else Check(23),
                                if op == 6 then Refuse(24) else Check(25), 26);
        if src.Some? then src
        else if k + 1 >= |toks| then Some(27)
        else if CharAt(toks[k + 1], 0) != ',' then Some(50)
        else if k + 2 >= |toks| then Some(42)
        else
          var dst := OperandError(toks[k + 2], if op == 1 then Check(28) else Refuse(29), Check(30), 31);
          if dst.Some? then dst
          else if k + 3 < |toks| then Some(32)
          else None
    else
      JumpError(toks, k)
  }

  /** A jump: a target, then optionally ( p1 , p2 ) and nothing after. */
  function JumpError(toks: seq<string>, k: nat): Option<int> {
    if k >= |toks| then Some(33)
    else
      var target := OperandError(toks[k], Check(34), Check(35), 36);
      if target.Some? then target
      else if k + 1 >= |toks| then None
      else if CharAt(toks[k + 1], 0) != '(' then Some(37)
      else if k + 2 >= |toks| then Some(38)
      else
        var p1 := OperandError(toks[k + 2], Check(39), Check(40), 41);
        if p1.Some? then p1
        else if k + 3 >= |toks| then Some(42)
        else if CharAt(toks[k + 3], 0) != ',' then Some(43)
        else if k + 4 >= |toks| then Some(44)
        else
          var p2 := OperandError(toks[k + 4], Check(45), Check(46), 47);
          if p2.Some? then p2
          else if k + 5 >= |toks| then Some(48)
          else if CharAt(toks[k + 5], 0) != ')' then Some(49)
          else if k + 6 < |toks| then Some(69)
          else None
  }

  /** The code of an operand that fails its check: base for '#', base + 1 for 'r', base + 2 for a label. */
  function OperandCode(t: string, base: int): int {
    if CharAt(t, 0) == '#' then base else if CharAt(t, 0) == 'r' then base + 1 else base + 2
  }

  /** Slot n of a jump's shape: target ( p1 , p2 ). */
  predicate JumpSlotOk(t: string, n: nat) {
    if n == 1 then CharAt(t, 0) == '('
    else if n == 3 then CharAt(t, 0) == ','
    else if n == 5 then CharAt(t, 0) == ')'
    else OperandOk(t, true, true)
  }

  /** The first n tokens from k fill the first n slots. */
  predicate JumpPrefix(toks: seq<string>, k: nat, n: nat)
    requires k + n <= |toks|
  {
    n == 0 || (JumpPrefix(toks, k, n - 1) && JumpSlotOk(toks[k + n - 1], n - 1))
  }

  /** Slot i of a filled prefix holds a token that fits it. */
  lemma {:induction false} JumpPrefixAt(toks: seq<string>, k: nat, n: nat, i: nat)
    requires k + n <= |toks| && JumpPrefix(toks, k, n) && i < n
    ensures JumpSlotOk(toks[k + i], i)
    decreases n
  {
    if i < n - 1 {
      JumpPrefixAt(toks, k, n - 1, i);
    }
  }

  /** The code for a jump whose tokens stop after n slots. */
  function MissingCode(n: nat): Option<int> {
    if n == 0 then Some(33)
    else if n == 2 then Some(38)
    else if n == 3 then Some(42)
    else if n == 4 then Some(44)
    else if n == 5 then Some(48)
    else None
  }

  /** The code for a jump whose slot n holds the wrong token t. */
  function WrongCode(t: string, n: nat): int {
    if n == 0 then OperandCode(t, 34)
    else if n == 1 then 37
    else if n == 2 then OperandCode(t, 39)
    else if n == 3 then 43
    else if n == 4 then OperandCode(t, 45)
    else 49
  }

  /**
   * A jump's error is decided at the first slot that goes wrong: a missing
   * token gives that slot's missing code, a wrong one its own code, and a
   * token after the closing ')' gives 69.
   */
  lemma JumpErrorCodes(toks: seq<string>, k: nat, n: nat)
    requires n <= 6 && k + n <= |toks| && JumpPrefix(toks, k, n)
    ensures k + n == |toks| ==> JumpError(toks, k) == MissingCode(n)
    ensures k + n < |toks| && n < 6 && !JumpSlotOk(toks[k + n], n) ==> JumpError(toks, k) == Some(WrongCode(toks[k + n], n))
    ensures k + n < |toks| && n == 6 ==> JumpError(toks, k) == Some(69)
  {
    if n > 0 { JumpPrefixAt(toks, k, n, 0); }
    if n > 1 { JumpPrefixAt(toks, k, n, 1); }
    if n > 2 { JumpPrefixAt(toks, k, n, 2); }
    if n > 3 { JumpPrefixAt(toks, k, n, 3); }
    if n > 4 { JumpPrefixAt(toks, k, n, 4); }
    if n > 5 { JumpPrefixAt(toks, k, n, 5); }
    if k < |toks| {
      OperandErrorIff(toks[k], Check(34), Check(35), 36);
    }
    if k + 2 < |toks| {
      OperandErrorIff(toks[k + 2], Check(39), Check(40), 41);
    }
    if k + 4 < |toks| {
      OperandErrorIff(toks[k + 4], Check(45), Check(46), 47);
    }
  }

  /** The .data loop of validate_tokens, walking the tokens with the need_comma flag. */
  method CheckData(toks: seq<string>, k0: nat) returns (err: Option<int>)
    requires k0 < |toks|
    ensures err == DataError(toks, k0, false)
  {
    var k := k0;
    var needComma := false;
    while k < |toks|
      invariant k0 <= k <= |toks|
      invariant DataError(toks, k, needComma) == DataError(toks, k0, false)
      decreases |toks| - k
    {
      var t := toks[k];
      if needComma {
        if CharAt(t, 0) != ',' {
          return Some(53);
        }
      } else {
        var ok := IsValidImm(t, true);
        if !ok {
          return Some(12);
        }
      }
      k := k + 1;
      needComma := !needComma;
    }
    if !needComma {
      return Some(52);
    }
    return None;
  }

  // ---------------------------------------------------------------------
  // The grammar validate_tokens accepts
  // ---------------------------------------------------------------------

  /** An operand admitted where immediates (immOk) and registers (regOk) may or may not appear. */
  predicate OperandOk(t: string, immOk: bool, regOk: bool) {
    if CharAt(t, 0) == '#' then immOk && ValidImm(t, false)
    else if CharAt(t, 0) == 'r' then regOk && ValidReg(t)
    else LabelRule(t)
  }

  /** number , number , ... , number: an odd count, numbers at even places, commas at odd places. */
  predicate DataList(xs: seq<string>) {
    && |xs| % 2 == 1
    && forall i :: 0 <= i < |xs| ==> if i % 2 == 0 then ValidImm(xs[i], true) else CharAt(xs[i], 0) == ','
  }

  /** The operand part of an instruction with opcode op. */
  predicate OperandsOk(xs: seq<string>, op: int) {
    var t := OpType(op);
    if t == OPTYPE_INS then xs == []
    else if t == OPTYPE_UNI then |xs| == 1 && OperandOk(xs[0], op == 12, true)
    else if t == OPTYPE_BIN then
      && |xs| == 3
      && OperandOk(xs[0], op != 6, op != 6)
      && CharAt(xs[1], 0) == ','
      && OperandOk(xs[2], op == 1, true)
    else
      && (|xs| == 1 || |xs| == 6)
      && OperandOk(xs[0], true, true)
      && (|xs| == 6 ==>
           && CharAt(xs[1], 0) == '(' && OperandOk(xs[2], true, true)
           && CharAt(xs[3], 0) == ',' && OperandOk(xs[4], true, true)
           && CharAt(xs[5], 0) == ')')
  }

  /** A statement: a directive with its argument(s), or an instruction with its operands. */
  predicate StatementOk(xs: seq<string>) {
    && |xs| > 0
    && if xs[0] == ".extern" || xs[0] == ".entry" then |xs| == 2 && LabelRule(xs[1])
       else if xs[0] == ".string" then
         |xs| == 2 && CharAt(xs[1], 0) == '"' && CharAt(xs[1], |xs[1]| - 1) == '"'
       else if xs[0] == ".data" then DataList(xs[1..])
       else Parse.GetOpcode(xs[0]).0 != -1 && OperandsOk(xs[1..], Parse.GetOpcode(xs[0]).0)
  }

  /** A line the grammar accepts: an optional `label :` definition, then a statement. */
  predicate Accepted(toks: seq<string>) {
    if |toks| > 1 && toks[1] == ":" then LabelRule(toks[0]) && StatementOk(toks[2..])
    else StatementOk(toks)
  }

  /** validate_tokens leaves the error empty exactly for the lines the grammar accepts. */
  lemma LineErrorIffRejected(toks: seq<string>)
    requires |toks| > 0
    ensures LineError(toks) == None <==> Accepted(toks)
  {
    if |toks| > 1 && toks[1] == ":" {
      if LabelRule(toks[0]) {
        StatementErrorIff(toks, 2);
      }
    } else {
      StatementErrorIff(toks, 0);
    }
  }

  lemma StatementErrorIff(toks: seq<string>, k: nat)
    requires k <= |toks|
    ensures StatementError(toks, k) == None <==> StatementOk(toks[k..])
  {
    if k < |toks| {
      var xs := toks[k..];
      if toks[k] == ".data" {
        if k + 1 < |toks| {
          DataErrorIff(toks, k + 1);
          assert xs[1..] == toks[k + 1..];
        }
      } else if toks[k] != ".extern" && toks[k] != ".entry" && toks[k] != ".string" {
        var op := Parse.GetOpcode(toks[k]).0;
        if op != -1 {
          OperandsErrorIff(toks, k + 1, op);
          assert xs[1..] == toks[k + 1..];
        }
      }
    }
  }

  lemma OperandErrorIff(t: string, imm: Rule, reg: Rule, labelCode: int)
    ensures OperandError(t, imm, reg, labelCode) == None <==> OperandOk(t, imm.Check?, reg.Check?)
  {
  }

  lemma OperandsErrorIff(toks: seq<string>, k: nat, op: int)
    requires k <= |toks| && 0 <= op < 16
    ensures OperandsError(toks, k, op, OpType(op)) == None <==> OperandsOk(toks[k..], op)
  {
    var xs := toks[k..];
    var t := OpType(op);
    if t == OPTYPE_UNI && k < |toks| {
      OperandErrorIff(toks[k], if op == 12 then Check(16) else Refuse(17), Check(18), 19);
    } else if t == OPTYPE_BIN && k < |toks| {
      OperandErrorIff(toks[k], if op == 6 then Refuse(22) else Check(23), if op == 6 then Refuse(24) else Check(25), 26);
      if k + 2 < |toks| {
        OperandErrorIff(toks[k + 2], if op == 1 then Check(28) else Refuse(29), Check(30), 31);
      }
    } else if t == OPTYPE_JMP && k < |toks| {
      OperandErrorIff(toks[k], Check(34), Check(35), 36);
      if k + 2 < |toks| {
        OperandErrorIff(toks[k + 2], Check(39), Check(40), 41);
      }
      if k + 4 < |toks| {
        OperandErrorIff(toks[k + 4], Check(45), Check(46), 47);
      }
    }
  }

  /** The .data loop accepts exactly a number list. */
  lemma DataErrorIff(toks: seq<string>, k: nat)
    requires k < |toks|
    ensures DataError(toks, k, false) == None <==> DataList(toks[k..])
  {
    DataLoop(toks, k, false);
    var xs := toks[k..];
    forall i | 0 <= i < |xs|
      ensures DataSlot(toks, k, false, k + i) == if i % 2 == 0 then ValidImm(xs[i], true) else CharAt(xs[i], 0) == ','
    {
    }
  }

  /**
   * Token i of a .data list read from the cursor k with the need_comma flag:
   * a number on the slots where no comma is due, a comma on the others.
   */
  predicate DataSlot(toks: seq<string>, k: nat, needComma: bool, i: nat)
    requires k <= i < |toks|
  {
    if (i - k) % 2 == (if needComma then 1 else 0) then ValidImm(toks[i], true) else CharAt(toks[i], 0) == ','
  }

  /**
   * From the cursor k with the need_comma flag: the loop ends without an
   * error exactly when the remaining tokens continue a number list.
   */
  lemma {:induction false} DataLoop(toks: seq<string>, k: nat, needComma: bool)
    requires k <= |toks|
    ensures DataError(toks, k, needComma) == None <==>
      && (|toks| - k) % 2 == (if needComma then 0 else 1)
      && forall i :: k <= i < |toks| ==> DataSlot(toks, k, needComma, i)
    decreases |toks| - k
  {
    if k < |toks| {
      var next, flag := k + 1, !needComma;
      DataLoop(toks, next, flag);
      assert DataSlot(toks, k, needComma, k) == if needComma then CharAt(toks[k], 0) == ',' else ValidImm(toks[k], true);
      forall i | next <= i < |toks|
        ensures DataSlot(toks, k, needComma, i) == DataSlot(toks, next, flag, i)
      {
      }
    }
  }

  // ---------------------------------------------------------------------
  // The codes for .data lists
  // ---------------------------------------------------------------------

  /** A .data list that ends with a comma is refused with code 52. */
  lemma DataTrailingComma(xs: seq<string>, comma: string)
    requires DataList(xs) && CharAt(comma, 0) == ','
    ensures LineError([".data"] + xs + [comma]) == Some(52)
  {
    var toks := [".data"] + xs + [comma];
    DataPrefix(toks, xs, 1);
    assert DataError(toks, 1 + |xs| + 1, false) == Some(52);
  }

  /** Two numbers without a comma between them: code 53. */
  lemma DataMissingComma(xs: seq<string>, t: string)
    requires DataList(xs) && CharAt(t, 0) != ','
    ensures LineError([".data"] + xs + [t]) == Some(53)
  {
    var toks := [".data"] + xs + [t];
    DataPrefix(toks, xs, 1);
  }

  /** Reading a number list leaves the loop at its end expecting a comma. */
  lemma {:induction false} DataPrefix(toks: seq<string>, xs: seq<string>, k: nat)
    requires DataList(xs) && k + |xs| < |toks| && toks[k..k + |xs|] == xs
    ensures DataError(toks, k, false) == DataError(toks, k + |xs|, true)
  {
    DataPrefixFrom(toks, xs, k, 0);
  }

  lemma {:induction false} DataPrefixFrom(toks: seq<string>, xs: seq<string>, k: nat, i: nat)
    requires DataList(xs) && k + |xs| < |toks| && toks[k..k + |xs|] == xs && i <= |xs|
    ensures DataError(toks, k + i, i % 2 == 1) == DataError(toks, k + |xs|, true)
    decreases |xs| - i
  {
    if i < |xs| {
      assert toks[k + i] == xs[i];
      DataPrefixFrom(toks, xs, k, i + 1);
    }
  }

  // ---------------------------------------------------------------------
  // validate_tokens over the token list, and validate_code
  // ---------------------------------------------------------------------

  /** validate_tokens on the list tokenize built: the error of its tokens in push order. */
  method ValidateTokens(tokens: Lists.DList<string>) returns (err: Option<int>)
    requires tokens.Valid() && |tokens.contents| > 0
    ensures err == LineError(Lists.Reverse(tokens.contents))
  {
    var toks := Lists.WalkFromTail(tokens);
    var k: nat := if |toks| > 1 && toks[1] == ":" then 2 else 0;
    if k + 1 < |toks| && toks[k] == ".data" && (k == 0 || LabelRule(toks[0])) {
      err := CheckData(toks, k + 1);
    } else {
      err := LineError(toks);
    }
  }

  /** What validate_code does with one line: too long, skipped, or checked with its error if any. */
  datatype Verdict = TooLong | Skipped | Checked(err: Option<int>)

  function LineVerdict(line: string): (v: Verdict)
    ensures v == TooLong <==> |line| > LINE_SIZE
    ensures v == Skipped <==>
      |line| <= LINE_SIZE && (CharAt(line, 0) == ';' || forall i :: 0 <= i < |line| ==> IsSpace(line[i]))
  {
    if |line| > LINE_SIZE then TooLong
    else if CharAt(line, 0) == ';' then Skipped
    else if FirstNonSpace(line, 0) == |line| then Skipped
    else
      Tokenize.TokensNonEmpty(line, FirstNonSpace(line, 0));
      Checked(LineError(Tokenize.Tokens(line)))
  }

  /** One pass of validate_code's loop body. */
  method CheckLine(line: string) returns (v: Verdict)
    ensures v == LineVerdict(line)
  {
    if |line| > LINE_SIZE {
      return TooLong;
    }
    if CharAt(line, 0) == ';' {
      return Skipped;
    }
    var i := 0;
    while i < |line| && IsSpace(line[i])
      invariant 0 <= i <= |line|
      invariant forall k :: 0 <= k < i ==> IsSpace(line[k])
    {
      i := i + 1;
    }
    if i >= |line| {
      return Skipped;
    }
    assert FirstNonSpace(line, 0) == i;
    var tokens := Tokenize.Tokenize(line);
    Tokenize.TokensNonEmpty(line, i);
    var err := ValidateTokens(tokens);
    Lists.ReverseReverse(Tokenize.Tokens(line));
    return Checked(err);
  }

  /** The state of validate_code: is_valid, the (line number, code) reports so far, and line_num. */
  datatype Report = Report(valid: bool, errors: seq<(nat, int)>, lineNum: nat)

  /**
   * One line's effect: a line that is too long is reported with code 99
   * without advancing the line number; skipped lines change nothing; every
   * checked line advances it, after reporting its error if it has one.
   */
  function Record(r: Report, line: string): Report {
    match LineVerdict(line)
    case TooLong => r.(valid := false, errors := r.errors + [(r.lineNum, 99)])
    case Skipped => r
    case Checked(None) => r.(lineNum := r.lineNum + 1)
    case Checked(Some(code)) => Report(false, r.errors + [(r.lineNum, code)], r.lineNum + 1)
  }

  /** validate_code over the lines fgets returns, starting from is_valid = 1 and line_num = 1. */
  function Validation(lines: seq<string>): Report {
    if lines == [] then Report(true, [], 1)
    else Record(Validation(lines[..|lines| - 1]), lines[|lines| - 1])
  }

  /** validate_code: is_valid and the reported errors, in order. */
  method ValidateCode(lines: seq<string>) returns (isValid: bool, errors: seq<(nat, int)>)
    ensures isValid == Validation(lines).valid && errors == Validation(lines).errors
  {
    isValid := true;
    errors := [];
    var lineNum: nat := 1;
    var n := 0;
    while n < |lines|
      invariant 0 <= n <= |lines|
      invariant Validation(lines[..n]) == Report(isValid, errors, lineNum)
    {
      assert lines[..n + 1][..n] == lines[..n];
      var v := CheckLine(lines[n]);
      match v {
        case TooLong =>
          isValid := false;
          errors := errors + [(lineNum, 99)];
        case Skipped =>
        case Checked(err) =>
          if err.Some? {
            isValid := false;
            errors := errors + [(lineNum, err.value)];
          }
          lineNum := lineNum + 1;
      }
      n := n + 1;
    }
    assert lines[..n] == lines;
  }

  /** A line validate_code lets through. */
  predicate LineOk(line: string) {
    match LineVerdict(line)
    case TooLong => false
    case Skipped => true
    case Checked(err) => Accepted(Tokenize.Tokens(line))
  }

  /**
   * The file is valid exactly when no error was reported, exactly when
   * every line is short enough and is a comment, blank, or accepted by
   * the grammar.
   */
  lemma {:induction false} ValidationValid(lines: seq<string>)
    ensures Validation(lines).valid <==> Validation(lines).errors == []
    ensures Validation(lines).valid <==> forall i :: 0 <= i < |lines| ==> LineOk(lines[i])
  {
    if lines != [] {
      var init := lines[..|lines| - 1];
      var last := lines[|lines| - 1];
      ValidationValid(init);
      assert Validation(lines) == Record(Validation(init), last);
      RecordOk(Validation(init), last);
      assert lines == init + [last];
      AllOkSnoc(init, last);
    }
  }

  /** Every line passes exactly when the lines before the last and the last one do. */
  lemma AllOkSnoc(init: seq<string>, last: string)
    ensures var lines := init + [last];
      (forall i :: 0 <= i < |lines| ==> LineOk(lines[i])) <==>
      (forall i :: 0 <= i < |init| ==> LineOk(init[i])) && LineOk(last)
  {
    var lines := init + [last];
    assert forall i :: 0 <= i < |init| ==> lines[i] == init[i];
    assert lines[|init|] == last;
  }

  /** One line keeps the report valid and error-free exactly when it is a line validate_code lets through. */
  lemma RecordOk(r: Report, line: string)
    ensures Record(r, line).valid == (r.valid && LineOk(line))
    ensures Record(r, line).errors == [] <==> r.errors == [] && LineOk(line)
  {
    if LineVerdict(line).Checked? {
      Tokenize.TokensNonEmpty(line, FirstNonSpace(line, 0));
      LineErrorIffRejected(Tokenize.Tokens(line));
    }
  }

  /**
   * The reports come in line order, each names a line number already
   * reached, and line_num counts one more than the lines checked.
   */
  lemma {:induction false} ValidationLineNumbers(lines: seq<string>)
    ensures Validation(lines).lineNum == 1 + CheckedCount(lines)
    ensures forall k :: 0 <= k < |Validation(lines).errors| ==> 1 <= Validation(lines).errors[k].0 <= Validation(lines).lineNum
    ensures forall k, l :: 0 <= k < l < |Validation(lines).errors| ==> Validation(lines).errors[k].0 <= Validation(lines).errors[l].0
  {
    if lines != [] {
      ValidationLineNumbers(lines[..|lines| - 1]);
    }
  }

  /** How many lines are neither too long nor skipped. */
  function CheckedCount(lines: seq<string>): nat {
    if lines == [] then 0
    else CheckedCount(lines[..|lines| - 1]) + if LineVerdict(lines[|lines| - 1]).Checked? then 1 else 0
  }
}
