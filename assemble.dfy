/**
 * The second pass of the assembler (assemble.c): get_addr_type,
 * instruction_to_bin and assemble_code.
 *
 * instruction_to_bin first resolves its operands against the symbol table
 * (Resolve), then fills a 4 x ASM_WORD_SIZE matrix of cells through a fixed
 * sequence of int_to_bin calls. That sequence is spelled out as nested Put
 * calls (Encoding), so the method is proved to leave exactly Encoding(..)
 * in the matrix, and the lemmas read the words' fields off it.
 *
 * assemble_code is a left fold over the classified lines (Assembled) that
 * builds the object lines of the code, the data image and the updated
 * table; the linkage records are then read off the table's chains.
 */
module Assemble {
  import opened Util
  import opened Binary
  import Parse
  import Hashtable
  import Address
  import Lists

  type SymbolData = Address.SymbolData

  /** The encoder's matrix: four words of ASM_WORD_SIZE cells, row after row. */
  const WORDS: int := 4
  const MATRIX: int := 56

  /** The index of cell col of word row. */
  function Cell(row: int, col: int): int {
    row * 14 + col
  }

  /** The first character of an operand token names its type: register, immediate or label. */
  predicate IsReg(t: string) {
    CharAt(t, 0) == 'r'
  }

  predicate IsLabel(t: string) {
    CharAt(t, 0) == 'l'
  }

  // ---------------------------------------------------------------------
  // get_addr_type
  // ---------------------------------------------------------------------

  /** get_addr_type: 0 for an immediate, 1 for a label, 3 for a register, -1 for anything else. */
  function AddrType(operand: string): int {
    match CharAt(operand, 0)
    case 'i' => 0
    case 'l' => 1
    case 'r' => 3
    case _ => -1
  }

  // ---------------------------------------------------------------------
  // The operand loop of instruction_to_bin
  // ---------------------------------------------------------------------

  /** An operand as the loop leaves it: its bin_operands value and its operands_type bits. */
  datatype Operand = Operand(value: int, typ: bv8)

  /** The operand text after its type character. */
  function Body(t: string): string {
    if |t| > 0 then t[1..] else []
  }

  /** The symbol a label operand names. */
  function LabelName(t: string): string {
    Trimmed(Body(t))
  }

  /** The loop can convert t against table m: a register, an immediate, or a label m holds. */
  predicate Resolvable(m: map<string, SymbolData>, t: string) {
    IsReg(t) || CharAt(t, 0) == 'i' || (IsLabel(t) && LabelName(t) in m)
  }

  /**
   * What the loop makes of a convertible operand: a register's number, an
   * immediate's number, or a label's address plus BASE_ADDRESS with the
   * label's type bits. Only a label sets the type bits; for the others the
   * source leaves operands_type unset, and the model reads 0.
   */
  function Meaning(m: map<string, SymbolData>, t: string): (x: Operand)
    requires Resolvable(m, t)
  {
    if IsReg(t) then Operand(StrToIntValue(Body(t)), 0)
    else if CharAt(t, 0) == 'i' then Operand(StrToIntValue(Trimmed(Body(t))), 0)
    else Operand(m[LabelName(t)].addr + BASE_ADDRESS, m[LabelName(t)].typ)
  }

  /** An external label operand pushes the instruction's address onto the head of the label's use list. */
  function Pushed(m: map<string, SymbolData>, ic: int, t: string): map<string, SymbolData> {
    if IsLabel(t) && LabelName(t) in m && m[LabelName(t)].typ & SYM_EXT != 0 then
      var sd := m[LabelName(t)];
      m[LabelName(t) := sd.(other := [ic] + sd.other)]
    else m
  }

  /**
   * The loop over ops from table m: the table after the pushes made, and
   * the operands, or None once an operand cannot be converted (the source
   * prints an error and returns; the pushes made before stay).
   */
  function Resolve(m: map<string, SymbolData>, ic: int, ops: seq<string>): (map<string, SymbolData>, Option<seq<Operand>>)
    decreases |ops|
  {
    if ops == [] then (m, Some([]))
    else
      var prev := Resolve(m, ic, ops[..|ops| - 1]);
      var t := ops[|ops| - 1];
      if prev.1.None? then prev
      else if !Resolvable(prev.0, t) then (prev.0, None)
      else (Pushed(prev.0, ic, t), Some(prev.1.value + [Meaning(prev.0, t)]))
  }

  /** m' has the symbols of m with the same addresses and type bits. */
  ghost predicate SameSymbols(m: map<string, SymbolData>, m': map<string, SymbolData>) {
    m'.Keys == m.Keys && forall k :: k in m ==> m'[k].addr == m[k].addr && m'[k].typ == m[k].typ
  }

  /** The index of the first operand that cannot be converted, or |ops|. */
  function Failing(m: map<string, SymbolData>, ops: seq<string>): (f: nat)
    ensures f <= |ops|
    ensures forall k :: 0 <= k < f ==> Resolvable(m, ops[k])
    ensures f < |ops| ==> !Resolvable(m, ops[f])
    decreases |ops|
  {
    if ops == [] then 0
    else if !Resolvable(m, ops[0]) then 0
    else 1 + Failing(m, ops[1..])
  }

  /** How many of ops are label operands naming key. */
  function Uses(ops: seq<string>, key: string): nat
    decreases |ops|
  {
    if ops == [] then 0
    else Uses(ops[..|ops| - 1], key) + (if IsLabel(ops[|ops| - 1]) && LabelName(ops[|ops| - 1]) == key then 1 else 0)
  }

  /** n copies of the address ic. */
  function Repeat(ic: int, n: nat): (r: seq<int>)
    ensures |r| == n && forall j :: 0 <= j < n ==> r[j] == ic
  {
    seq(n, _ => ic)
  }

  /**
   * The table after the loop: every symbol keeps its address and type
   * bits; an external one has ic pushed once for each reference to it
   * among the operands converted before the first failure.
   */
  lemma {:induction false} ResolveTable(m: map<string, SymbolData>, ic: int, ops: seq<string>)
    ensures TableAfter(m, ic, ops, Resolve(m, ic, ops).0)
    decreases |ops|
  {
    if ops == [] {
      assert ops[..0] == [];
    } else {
      var init := ops[..|ops| - 1];
      var t := ops[|ops| - 1];
      assert init + [t] == ops;
      ResolveTable(m, ic, init);
      ResolveResult(m, ic, init);
      FailingSnoc(m, init, t);
      if Resolve(m, ic, init).1.Some? && Resolvable(m, t) {
        ResolveTableGrows(m, ic, init, t);
      } else {
        ResolveTableStays(m, ic, init, t);
      }
    }
  }

  /**
   * m' is m after the loop over ops: same symbols, and each external one
   * has ic pushed once for each reference among the operands converted
   * before the first failure.
   */
  ghost predicate TableAfter(m: map<string, SymbolData>, ic: int, ops: seq<string>, m': map<string, SymbolData>) {
    && SameSymbols(m, m')
    && forall k :: k in m ==>
         m'[k].other == (if m[k].typ & SYM_EXT != 0 then Repeat(ic, Uses(ops[..Failing(m, ops)], k)) else []) + m[k].other
  }

  lemma ResolveTableGrows(m: map<string, SymbolData>, ic: int, init: seq<string>, t: string)
    requires TableAfter(m, ic, init, Resolve(m, ic, init).0)
    requires Resolve(m, ic, init).1.Some? && Failing(m, init) == |init| && Resolvable(m, t)
    requires SameSymbols(m, Resolve(m, ic, init).0)
    requires Failing(m, init + [t]) == |init| + 1
    ensures TableAfter(m, ic, init + [t], Resolve(m, ic, init + [t]).0)
  {
    var ops := init + [t];
    assert ops[..|ops| - 1] == init && ops[|ops| - 1] == t;
    var prev := Resolve(m, ic, init).0;
    assert init[..|init|] == init && ops[..|ops|] == ops;
    assert Resolvable(prev, t);
    PushedSymbols(prev, ic, t);
    var m' := Pushed(prev, ic, t);
    assert Resolve(m, ic, ops).0 == m';
    forall k | k in m
      ensures m'[k].other == (if m[k].typ & SYM_EXT != 0 then Repeat(ic, Uses(ops, k)) else []) + m[k].other
    {
      UsesSnoc(init, t, k);
      PushOnce(m[k], prev[k], m'[k], ic, Uses(init, k), IsLabel(t) && LabelName(t) == k);
    }
  }

  lemma ResolveTableStays(m: map<string, SymbolData>, ic: int, init: seq<string>, t: string)
    requires TableAfter(m, ic, init, Resolve(m, ic, init).0)
    requires Resolve(m, ic, init).1.Some? <==> Failing(m, init) == |init|
    requires SameSymbols(m, Resolve(m, ic, init).0)
    requires !(Resolve(m, ic, init).1.Some? && Resolvable(m, t))
    requires Failing(m, init + [t]) == if Failing(m, init) < |init| then Failing(m, init)
                                       else if Resolvable(m, t) then |init| + 1 else |init|
    ensures TableAfter(m, ic, init + [t], Resolve(m, ic, init + [t]).0)
  {
    var ops := init + [t];
    assert ops[..|ops| - 1] == init && ops[|ops| - 1] == t;
    var prev := Resolve(m, ic, init);
    assert Resolvable(prev.0, t) == Resolvable(m, t);
    assert Resolve(m, ic, ops).0 == prev.0;
    assert ops[..Failing(m, ops)] == init[..Failing(m, init)];
  }

  /** One more pass adds ic to an external symbol's uses when the operand names it. */
  lemma PushOnce(sd: SymbolData, before: SymbolData, after: SymbolData, ic: int, u: nat, named: bool)
    requires before.typ == sd.typ
    requires before.other == (if sd.typ & SYM_EXT != 0 then Repeat(ic, u) else []) + sd.other
    requires after.other == (if named && before.typ & SYM_EXT != 0 then [ic] else []) + before.other
    ensures after.other == (if sd.typ & SYM_EXT != 0 then Repeat(ic, u + if named then 1 else 0) else []) + sd.other
  {
    if named && sd.typ & SYM_EXT != 0 {
      assert Repeat(ic, u + 1) == [ic] + Repeat(ic, u);
    }
  }

  lemma UsesSnoc(init: seq<string>, t: string, key: string)
    ensures Uses(init + [t], key) == Uses(init, key) + (if IsLabel(t) && LabelName(t) == key then 1 else 0)
  {
    assert (init + [t])[..|init|] == init;
  }

  /** A pass of the loop keeps every symbol's address and type bits and pushes ic only for an external label. */
  lemma PushedSymbols(m: map<string, SymbolData>, ic: int, t: string)
    ensures SameSymbols(m, Pushed(m, ic, t))
    ensures forall k :: k in m ==>
      Pushed(m, ic, t)[k].other == (if IsLabel(t) && LabelName(t) == k && m[k].typ & SYM_EXT != 0 then [ic] else []) + m[k].other
  {
  }

  /** Extending ops by one operand extends the count of converted operands only when all before it converted. */
  lemma {:induction false} FailingSnoc(m: map<string, SymbolData>, init: seq<string>, t: string)
    ensures Failing(m, init + [t]) == if Failing(m, init) < |init| then Failing(m, init)
                                     else if Resolvable(m, t) then |init| + 1 else |init|
    decreases |init|
  {
    if init != [] {
      assert (init + [t])[1..] == init[1..] + [t];
      FailingSnoc(m, init[1..], t);
    } else {
      assert [t][1..] == [];
    }
  }

  /**
   * The loop succeeds exactly when every operand can be converted against
   * the table as it was before the loop, and then each operand's value and
   * type bits are its meaning in that table.
   */
  lemma {:induction false} ResolveResult(m: map<string, SymbolData>, ic: int, ops: seq<string>)
    ensures SameSymbols(m, Resolve(m, ic, ops).0)
    ensures Resolve(m, ic, ops).1.Some? <==> Failing(m, ops) == |ops|
    ensures Resolve(m, ic, ops).1.Some? ==>
      var rs := Resolve(m, ic, ops).1.value;
      |rs| == |ops| && forall k :: 0 <= k < |ops| ==> Resolvable(m, ops[k]) && rs[k] == Meaning(m, ops[k])
    decreases |ops|
  {
    if ops != [] {
      var init := ops[..|ops| - 1];
      var t := ops[|ops| - 1];
      ResolveResult(m, ic, init);
      FailingSnoc(m, init, t);
      assert init + [t] == ops;
      var prev := Resolve(m, ic, init);
      assert Resolvable(prev.0, t) == Resolvable(m, t);
      if prev.1.Some? && Resolvable(m, t) {
        assert Meaning(prev.0, t) == Meaning(m, t);
        var t' := t;
        if IsLabel(t) && LabelName(t) in m && m[LabelName(t)].typ & SYM_EXT != 0 {
          assert SameSymbols(m, Pushed(prev.0, ic, t'));
        }
      }
    }
  }

  /** The operand loop of instruction_to_bin on the table. */
  method ResolveOperands(ic: int, labels: Hashtable.HashTable<SymbolData>, ops: seq<string>) returns (rs: Option<seq<Operand>>)
    requires labels.Valid()
    modifies labels, labels.entries
    ensures labels.Valid() && labels.entries == old(labels.entries) && labels.size == old(labels.size)
    ensures labels.Contents == Resolve(old(labels.Contents), ic, ops).0
    ensures rs == Resolve(old(labels.Contents), ic, ops).1
  {
    ghost var m0 := labels.Contents;
    var acc: seq<Operand> := [];
    var k := 0;
    while k < |ops|
      invariant 0 <= k <= |ops|
      invariant labels.Valid() && labels.entries == old(labels.entries) && labels.size == old(labels.size)
      invariant Resolve(m0, ic, ops[..k]) == (labels.Contents, Some(acc))
    {
      assert ops[..k + 1][..k] == ops[..k];
      var x := ResolveOperand(ic, labels, ops[k]);
      if x.None? {
        ResolveStops(m0, ic, ops, k + 1);
        return None;
      }
      acc := acc + [x.value];
      k := k + 1;
    }
    assert ops[..|ops|] == ops;
    rs := Some(acc);
  }

  /** One pass of the operand loop of instruction_to_bin. */
  method ResolveOperand(ic: int, labels: Hashtable.HashTable<SymbolData>, t: string) returns (x: Option<Operand>)
    requires labels.Valid()
    modifies labels, labels.entries
    ensures labels.Valid() && labels.entries == old(labels.entries) && labels.size == old(labels.size)
    ensures Resolvable(old(labels.Contents), t) ==> labels.Contents == Pushed(old(labels.Contents), ic, t) && x == Some(Meaning(old(labels.Contents), t))
    ensures !Resolvable(old(labels.Contents), t) ==> labels.Contents == old(labels.Contents) && x == None
  {
    if CharAt(t, 0) == 'r' {
      var v := StrToInt(Body(t));
      x := Some(Operand(v, 0));
    } else if CharAt(t, 0) == 'i' {
      var s := Trim(Body(t));
      var v := StrToInt(s);
      x := Some(Operand(v, 0));
    } else if CharAt(t, 0) == 'l' {
      x := ResolveLabel(ic, labels, t);
    } else {
      x := None;
    }
  }
  /** The label branch of the operand loop: look the name up, and push ic onto an external label's uses. */
  method ResolveLabel(ic: int, labels: Hashtable.HashTable<SymbolData>, t: string) returns (x: Option<Operand>)
    requires labels.Valid() && IsLabel(t)
    modifies labels, labels.entries
    ensures labels.Valid() && labels.entries == old(labels.entries) && labels.size == old(labels.size)
    ensures labels.Contents == Pushed(old(labels.Contents), ic, t)
    ensures x == if LabelName(t) in old(labels.Contents) then Some(Meaning(old(labels.Contents), t)) else None
  {
    var name := Trim(Body(t));
    var data := labels.Get(name);
    if data.None? {
      return None;
    }
    if data.value.typ & SYM_EXT != 0 {
      var _ := labels.Put(name, data.value.(other := [ic] + data.value.other));
    }
    x := Some(Operand(data.value.addr + BASE_ADDRESS, data.value.typ));
  }

  /** Once the loop has failed on a prefix, the rest of the operands change nothing. */
  lemma {:induction false} ResolveStops(m: map<string, SymbolData>, ic: int, ops: seq<string>, k: nat)
    requires k <= |ops| && Resolve(m, ic, ops[..k]).1.None?
    ensures Resolve(m, ic, ops) == Resolve(m, ic, ops[..k])
    decreases |ops| - k
  {
    if k < |ops| {
      assert ops[..k + 1][..k] == ops[..k];
      ResolveStops(m, ic, ops, k + 1);
    } else {
      assert ops[..k] == ops;
    }
  }

  // ---------------------------------------------------------------------
  // The int_to_bin calls of instruction_to_bin
  // ---------------------------------------------------------------------

  /**
   * int_to_bin(num, bits, b + at) on the matrix b. The encoder only makes
   * calls that fit the matrix (InstructionToBin is proved to); a call that
   * would not fit is read as no change.
   */
  function Put(b: seq<int>, num: int, bits: nat, at: int): (r: seq<int>)
    ensures |r| == |b|
    ensures forall i :: 0 <= i < |b| && !(at <= i < at + bits) ==> r[i] == b[i]
  {
    if 0 < bits && 0 <= at && at + bits <= |b| then IntToBinAt(num, bits, b, at) else b
  }

  /** In a jump instruction the jump label is operand 0 and its two parameters follow. */
  function PairAt(n: int): nat {
    if n == 3 then 1 else 0
  }

  /** The word the first parameter's word lands in: after the opcode word, and after a jump label's. */
  function FirstWord(n: int): nat {
    if n == 3 then 2 else 1
  }

  /** The opcode into bits 6-9 of word 0. */
  function OpcodeLayout(b: seq<int>, opc: int): (r: seq<int>)
    ensures |r| == |b|
  {
    Put(b, opc, 4, Cell(0, 6))
  }

  /**
   * A jump: ERA 2 into bits 2-3 of word 0 and bits 0-1 of word 1, the
   * label's address into bits 2-13 of word 1, and the two parameters'
   * addressing modes into bits 10-11 and 12-13 of word 0.
   */
  function JumpLayout(b: seq<int>, ops: seq<string>, rs: seq<Operand>): (r: seq<int>)
    requires |ops| == |rs| == 3
    ensures |r| == |b|
    ensures forall i :: 0 <= i < |b| && !(Cell(0, 2) <= i < Cell(0, 4)) && !(Cell(0, 10) <= i < Cell(2, 0)) ==> r[i] == b[i]
  {
    var b4 := Put(JumpFront(b, rs[0].value), AddrType(ops[2]), 2, Cell(0, ASM_WORD_SIZE - 4));
    Put(b4, AddrType(ops[1]), 2, Cell(0, ASM_WORD_SIZE - 2))
  }

  /** Both operands of the pair are registers. */
  predicate RegisterPair(ops: seq<string>)
    requires 2 <= |ops| <= 3
  {
    IsReg(ops[PairAt(|ops|)]) && IsReg(ops[PairAt(|ops|) + 1])
  }

  /** For exactly two operands, their addressing modes into bits 4-5 and 2-3 of word 0. */
  function ModeLayout(b: seq<int>, ops: seq<string>): (r: seq<int>)
    requires 2 <= |ops| <= 3
    ensures |r| == |b|
    ensures forall i :: 0 <= i < |b| && !(Cell(0, 2) <= i < Cell(0, 6)) ==> r[i] == b[i]
  {
    if |ops| == 2 then Put(Put(b, AddrType(ops[0]), 2, Cell(0, 4)), AddrType(ops[1]), 2, Cell(0, 2))
    else b
  }

  /**
   * The pair's words: two registers share word w, the source in bits 8-12
   * and the destination in bits 2-6; otherwise each operand has its own
   * word, a register in bits 8-12 (source) or 2-6 (destination) and
   * anything else in bits 2-13.
   */
  function PairWordLayout(b: seq<int>, ops: seq<string>, rs: seq<Operand>): (r: seq<int>)
    requires 2 <= |ops| == |rs| <= 3
    ensures |r| == |b|
    ensures var w := FirstWord(|ops|);
      forall i :: 0 <= i < |b| && !(Cell(w, 2) <= i < Cell(w + 1, 0)) && !(Cell(w + 1, 2) <= i < Cell(w + 2, 0)) ==> r[i] == b[i]
    ensures var w := FirstWord(|ops|);
      RegisterPair(ops) ==> forall i :: 0 <= i < |b| && !(Cell(w, 2) <= i < Cell(w + 1, 0)) ==> r[i] == b[i]
  {
    var o, w := PairAt(|ops|), FirstWord(|ops|);
    var a, c := ops[o], ops[o + 1];
    if IsReg(a) && IsReg(c) then
      Put(Put(b, rs[o + 1].value, 5, Cell(w, 2)), rs[o].value, 5, Cell(w, 8))
    else if IsReg(a) then
      Put(Put(b, rs[o].value, 5, Cell(w, 8)), rs[o + 1].value, ASM_WORD_SIZE - 2, Cell(w + 1, 2))
    else if IsReg(c) then
      Put(Put(b, rs[o].value, ASM_WORD_SIZE - 2, Cell(w, 2)), rs[o + 1].value, 5, Cell(w + 1, 2))
    else
      Put(Put(b, rs[o].value, ASM_WORD_SIZE - 2, Cell(w, 2)), rs[o + 1].value, ASM_WORD_SIZE - 2, Cell(w + 1, 2))
  }

  /** ERA 2 into bits 0-1 of the word of each label operand of the pair. */
  function PairEraLayout(b: seq<int>, ops: seq<string>): (r: seq<int>)
    requires 2 <= |ops| <= 3
    ensures |r| == |b|
    ensures var w := FirstWord(|ops|);
      forall i :: 0 <= i < |b| && !(Cell(w, 0) <= i < Cell(w, 2)) && !(Cell(w + 1, 0) <= i < Cell(w + 1, 2)) ==> r[i] == b[i]
    ensures forall row: nat, col :: 2 <= col < 14 && Cell(row, col) < |b| ==> r[Cell(row, col)] == b[Cell(row, col)]
  {
    var o, w := PairAt(|ops|), FirstWord(|ops|);
    var b1 := if IsLabel(ops[o]) then Put(b, 2, 2, Cell(w, 0)) else b;
    if IsLabel(ops[o + 1]) then Put(b1, 2, 2, Cell(w + 1, 0)) else b1
  }

  /** The block for two operands, or for a jump's two parameters. */
  function PairLayout(b: seq<int>, ops: seq<string>, rs: seq<Operand>): (r: seq<int>)
    requires 2 <= |ops| == |rs| <= 3
    ensures |r| == |b|
  {
    PairEraLayout(PairWordLayout(ModeLayout(b, ops), ops, rs), ops)
  }

  /**
   * One operand: ERA 2 in word 1 for a label, the operand into bits 2-13
   * of word 1, and mode 2 into bits 2-3 of word 0 unless the opcode is 12.
   */
  function SingleLayout(b: seq<int>, opc: int, ops: seq<string>, rs: seq<Operand>): (r: seq<int>)
    requires |ops| == |rs| == 1
    ensures |r| == |b|
    ensures forall i :: 0 <= i < |b| && !(Cell(0, 2) <= i < Cell(0, 4)) && !(Cell(1, 0) <= i < Cell(2, 0)) ==> r[i] == b[i]
  {
    var b1 := if IsLabel(ops[0]) then Put(b, 2, 2, Cell(1, 0)) else b;
    var b2 := Put(b1, rs[0].value, ASM_WORD_SIZE - 2, Cell(1, 2));
    if opc != 12 then Put(b2, 2, 2, Cell(0, 2)) else b2
  }

  /** The operand's type bits name neither an external nor an entry symbol: the ERA loop leaves its word alone. */
  predicate Plain(x: Operand) {
    x.typ & SYM_EXT == 0 && x.typ & SYM_ENT == 0
  }

  /** The ERA loop's call for an operand on word row: 1 for external, else 2 for entry, else none. */
  function EraStep(b: seq<int>, x: Operand, row: int): (r: seq<int>)
    ensures |r| == |b|
    ensures forall i :: 0 <= i < |b| && !(Cell(row, 0) <= i < Cell(row, 2)) ==> r[i] == b[i]
    ensures Plain(x) ==> r == b
  {
    if x.typ & SYM_EXT != 0 then Put(b, 1, 2, Cell(row, 0))
    else if x.typ & SYM_ENT != 0 then Put(b, 2, 2, Cell(row, 0))
    else b
  }

  /** The ERA loop over operands 0 .. k - 1, operand j on word w + j. */
  function EraLayout(b: seq<int>, rs: seq<Operand>, w: int, k: nat): (r: seq<int>)
    requires k <= |rs|
    ensures |r| == |b|
    ensures forall i :: 0 <= i < |b| && !(Cell(w, 0) <= i < Cell(w + k, 0)) ==> r[i] == b[i]
    ensures forall row: nat, col :: 2 <= col < 14 && Cell(row, col) < |b| ==> r[Cell(row, col)] == b[Cell(row, col)]
  {
    if k == 0 then b else EraStep(EraLayout(b, rs, w, k - 1), rs[k - 1], w + k - 1)
  }

  /** Every int_to_bin call of instruction_to_bin once its operands are converted, in order, on the matrix b. */
  function Encoding(b: seq<int>, opc: int, ops: seq<string>, rs: seq<Operand>): (r: seq<int>)
    requires |ops| == |rs| <= 3
    ensures |r| == |b|
  {
    var n := |ops|;
    var b1 := OpcodeLayout(b, opc);
    var b2 := if n == 3 then JumpLayout(b1, ops, rs) else b1;
    var b3 := if n > 1 then PairLayout(b2, ops, rs) else if n == 1 then SingleLayout(b2, opc, ops, rs) else b2;
    EraLayout(b3, rs, FirstWord(n), n)
  }

  /** The count of words instruction_to_bin reports: one per operand plus the opcode word, one less for a register pair. */
  function NumWords(ops: seq<string>): int
    requires |ops| <= 3
  {
    var n := |ops|;
    var base := if n == 3 then 4 else if n == 2 then 3 else if n == 1 then 2 else 1;
    if n > 1 && RegisterPair(ops) then base - 1 else base
  }

  /**
   * The ERA loop writes word FirstWord + k for operand k; for a jump the
   * third operand's word would lie past the matrix, so it must be plain.
   */
  predicate InMatrix(rs: seq<Operand>) {
    |rs| == 3 ==> Plain(rs[2])
  }

  /**
   * The third operand of a jump, when it is a label the table holds, is
   * neither external nor entry (the ERA loop would otherwise write past
   * the matrix).
   */
  predicate ThirdInMatrix(m: map<string, SymbolData>, ops: seq<string>) {
    |ops| == 3 && IsLabel(ops[2]) && LabelName(ops[2]) in m ==>
      m[LabelName(ops[2])].typ & SYM_EXT == 0 && m[LabelName(ops[2])].typ & SYM_ENT == 0
  }

  // ---------------------------------------------------------------------
  // instruction_to_bin
  // ---------------------------------------------------------------------

  /**
   * instruction_to_bin on a matrix bin. When an operand cannot be
   * converted, bin and the word count are left as they were and only the
   * pushes made so far remain; otherwise the word count is NumWords and bin
   * holds the result of Encoding.
   */
  method InstructionToBin(ic: int, labels: Hashtable.HashTable<SymbolData>, opcode: string, operands: seq<string>,
                          bin: array<int>, numWords0: int) returns (numWords: int)
    requires labels.Valid() && bin.Length == MATRIX && |operands| <= 3
    requires ThirdInMatrix(labels.Contents, operands)
    modifies labels, labels.entries, bin
    ensures labels.Valid() && labels.entries == old(labels.entries) && labels.size == old(labels.size)
    ensures labels.Contents == Resolve(old(labels.Contents), ic, operands).0
    ensures Resolve(old(labels.Contents), ic, operands).1.None? ==> numWords == numWords0 && bin[..] == old(bin[..])
    ensures Resolve(old(labels.Contents), ic, operands).1.Some? ==>
      var rs := Resolve(old(labels.Contents), ic, operands).1.value;
      && |rs| == |operands| && InMatrix(rs)
      && numWords == NumWords(operands)
      && bin[..] == Encoding(old(bin[..]), Parse.GetOpcode(opcode).0, operands, rs)
  {
    var opc := Parse.GetOpcode(opcode).0;
    ghost var m0 := labels.Contents;
    var resolved := ResolveOperands(ic, labels, operands);
    if resolved.None? {
      return numWords0;
    }
    ResolveResult(m0, ic, operands);
    assert InMatrix(resolved.value) by {
      if |operands| == 3 {
        assert Resolvable(m0, operands[2]);
      }
    }
    numWords := EncodeInstruction(opc, operands, resolved.value, bin);
  }

  /** The encoding part of instruction_to_bin, once every operand is converted. */
  method EncodeInstruction(opc: int, operands: seq<string>, rs: seq<Operand>, bin: array<int>) returns (numWords: int)
    requires |operands| == |rs| <= 3 && InMatrix(rs) && bin.Length == MATRIX
    modifies bin
    ensures numWords == NumWords(operands)
    ensures bin[..] == Encoding(old(bin[..]), opc, operands, rs)
  {
    var n := |operands|;
    numWords := 1;
    IntToBin(opc, 4, bin, Cell(0, 6));
    var wordOffset := 1;
    if n == 3 {
      EncodeJump(operands, rs, bin);
      wordOffset := 2;
      numWords := 4;
    }
    if n > 1 {
      EncodeModes(operands, bin);
      if n == 2 {
        numWords := 3;
      }
      EncodePairWords(operands, rs, bin);
      var offset := PairAt(n);
      if CharAt(operands[offset], 0) == 'r' && CharAt(operands[offset + 1], 0) == 'r' {
        numWords := numWords - 1;
      }
      EncodePairEra(operands, bin);
    } else if n == 1 {
      numWords := 2;
      EncodeSingle(opc, operands, rs, bin);
    }
    EncodeEra(rs, wordOffset, bin);
  }

  /** The jump block of instruction_to_bin. */
  method EncodeJump(ops: seq<string>, rs: seq<Operand>, bin: array<int>)
    requires |ops| == |rs| == 3 && bin.Length == MATRIX
    modifies bin
    ensures bin[..] == JumpLayout(old(bin[..]), ops, rs)
  {
    IntToBin(2, 2, bin, Cell(0, 2));
    IntToBin(2, 2, bin, Cell(1, 0));
    IntToBin(rs[0].value, ASM_WORD_SIZE - 2, bin, Cell(1, 2));
    IntToBin(AddrType(ops[2]), 2, bin, Cell(0, ASM_WORD_SIZE - 4));
    IntToBin(AddrType(ops[1]), 2, bin, Cell(0, ASM_WORD_SIZE - 2));
  }

  /** The addressing-mode lines of the two-operand block. */
  method EncodeModes(ops: seq<string>, bin: array<int>)
    requires 2 <= |ops| <= 3 && bin.Length == MATRIX
    modifies bin
    ensures bin[..] == ModeLayout(old(bin[..]), ops)
  {
    if |ops| == 2 {
      IntToBin(AddrType(ops[0]), 2, bin, Cell(0, 4));
      IntToBin(AddrType(ops[1]), 2, bin, Cell(0, 2));
    }
  }

  /** The register and non-register cases of the two-operand block. */
  method EncodePairWords(ops: seq<string>, rs: seq<Operand>, bin: array<int>)
    requires 2 <= |ops| == |rs| <= 3 && bin.Length == MATRIX
    modifies bin
    ensures bin[..] == PairWordLayout(old(bin[..]), ops, rs)
  {
    var offset, wordOffset := PairAt(|ops|), FirstWord(|ops|);
    var a, b := ops[offset], ops[offset + 1];
    if CharAt(a, 0) == 'r' && CharAt(b, 0) == 'r' {
      IntToBin(rs[offset + 1].value, 5, bin, Cell(wordOffset, 2));
      IntToBin(rs[offset].value, 5, bin, Cell(wordOffset, 8));
    } else if CharAt(a, 0) == 'r' && CharAt(b, 0) != 'r' {
      IntToBin(rs[offset].value, 5, bin, Cell(wordOffset, 8));
      IntToBin(rs[offset + 1].value, ASM_WORD_SIZE - 2, bin, Cell(wordOffset + 1, 2));
    } else if CharAt(a, 0) != 'r' && CharAt(b, 0) == 'r' {
      IntToBin(rs[offset].value, ASM_WORD_SIZE - 2, bin, Cell(wordOffset, 2));
      IntToBin(rs[offset + 1].value, 5, bin, Cell(wordOffset + 1, 2));
    } else {
      IntToBin(rs[offset].value, ASM_WORD_SIZE - 2, bin, Cell(wordOffset, 2));
      IntToBin(rs[offset + 1].value, ASM_WORD_SIZE - 2, bin, Cell(wordOffset + 1, 2));
    }
  }

  /** The ERA lines for label operands of the two-operand block. */
  method EncodePairEra(ops: seq<string>, bin: array<int>)
    requires 2 <= |ops| <= 3 && bin.Length == MATRIX
    modifies bin
    ensures bin[..] == PairEraLayout(old(bin[..]), ops)
  {
    var offset, wordOffset := PairAt(|ops|), FirstWord(|ops|);
    if CharAt(ops[offset], 0) == 'l' {
      IntToBin(2, 2, bin, Cell(wordOffset, 0));
    }
    if CharAt(ops[offset + 1], 0) == 'l' {
      IntToBin(2, 2, bin, Cell(wordOffset + 1, 0));
    }
  }

  /** The block for a single operand of instruction_to_bin. */
  method EncodeSingle(opc: int, ops: seq<string>, rs: seq<Operand>, bin: array<int>)
    requires |ops| == |rs| == 1 && bin.Length == MATRIX
    modifies bin
    ensures bin[..] == SingleLayout(old(bin[..]), opc, ops, rs)
  {
    if CharAt(ops[0], 0) == 'l' {
      IntToBin(2, 2, bin, Cell(1, 0));
    }
    IntToBin(rs[0].value, ASM_WORD_SIZE - 2, bin, Cell(1, 2));
    if opc != 12 {
      IntToBin(2, 2, bin, Cell(0, 2));
    }
  }

  /** The ERA loop at the end of instruction_to_bin; only operands whose word lies in the matrix may be marked. */
  method EncodeEra(rs: seq<Operand>, wordOffset: nat, bin: array<int>)
    requires |rs| <= 3 && wordOffset == FirstWord(|rs|) && InMatrix(rs) && bin.Length == MATRIX
    modifies bin
    ensures bin[..] == EraLayout(old(bin[..]), rs, wordOffset, |rs|)
  {
    var k := 0;
    while k < |rs|
      invariant 0 <= k <= |rs|
      invariant bin[..] == EraLayout(old(bin[..]), rs, wordOffset, k)
    {
      if rs[k].typ & SYM_EXT != 0 {
        IntToBin(1, 2, bin, Cell(wordOffset + k, 0));
      } else if rs[k].typ & SYM_ENT != 0 {
        IntToBin(2, 2, bin, Cell(wordOffset + k, 0));
      }
      k := k + 1;
    }
  }

  // ---------------------------------------------------------------------
  // The words instruction_to_bin builds
  // ---------------------------------------------------------------------

  /** The matrix instruction_to_bin leaves when it starts from a cleared one, as assemble_code calls it. */
  function Layout(opc: int, ops: seq<string>, rs: seq<Operand>): (b: seq<int>)
    requires |ops| == |rs| <= 3
    ensures |b| == MATRIX
  {
    Encoding(Zeros(MATRIX), opc, ops, rs)
  }

  /** Bits col .. col + n - 1 of word row. */
  function Field(b: seq<int>, row: nat, col: nat, n: nat): seq<int>
    requires Cell(row, col) + n <= |b|
  {
    b[Cell(row, col)..Cell(row, col) + n]
  }

  /** A call into a window of zeros leaves there exactly what int_to_bin makes of num. */
  lemma PutZeroWindow(b: seq<int>, num: int, bits: nat, at: nat)
    requires 0 < bits && at + bits <= |b|
    requires forall i :: at <= i < at + bits ==> b[i] == 0
    ensures Put(b, num, bits, at)[at..at + bits] == Encoded(num, bits)
  {
    IntToBinZeroWindow(num, bits, b, at);
  }

  /** Cells lo .. hi - 1 that no later call touched read the same. */
  lemma SameWindow(b: seq<int>, c: seq<int>, lo: nat, hi: nat)
    requires lo <= hi <= |b| == |c|
    requires forall i :: lo <= i < hi ==> b[i] == c[i]
    ensures b[lo..hi] == c[lo..hi]
  {
  }

  /** A field below cell hi reads the same in two matrices that agree below hi. */
  lemma FieldKept(b: seq<int>, c: seq<int>, hi: nat, row: nat, col: nat, n: nat)
    requires hi <= |b| == |c| && Cell(row, col) + n <= hi
    requires forall i :: 0 <= i < hi ==> b[i] == c[i]
    ensures Field(b, row, col, n) == Field(c, row, col, n)
  {
    SameWindow(b, c, Cell(row, col), Cell(row, col) + n);
  }

  /** The opcode sits in bits 6-9 of the first word, whatever the operands. */
  lemma OpcodeField(opc: int, ops: seq<string>, rs: seq<Operand>)
    requires |ops| == |rs| <= 3
    ensures Field(Layout(opc, ops, rs), 0, 6, 4) == Encoded(opc, 4)
  {
    var z := Zeros(MATRIX);
    var b1 := OpcodeLayout(z, opc);
    PutZeroWindow(z, opc, 4, Cell(0, 6));
    var l := Layout(opc, ops, rs);
    if |ops| >= 2 {
      HeadKept(opc, ops, rs);
      FieldKept(l, PairInput(opc, ops, rs), Cell(1, 0), 0, 6, 4);
      SameWindow(PairInput(opc, ops, rs), b1, Cell(0, 6), Cell(0, 10));
    } else if |ops| == 1 {
      SingleKept(opc, ops, rs);
      SameWindow(l, b1, Cell(0, 6), Cell(0, 10));
    } else {
      assert l == EraLayout(b1, rs, 1, 0) == b1;
    }
  }

  /** The two-operand block and the ERA loop leave the words before the pair's as PairInput has them. */
  lemma HeadKept(opc: int, ops: seq<string>, rs: seq<Operand>)
    requires 2 <= |ops| == |rs| <= 3
    ensures forall i :: 0 <= i < Cell(FirstWord(|ops|), 0) ==> Layout(opc, ops, rs)[i] == PairInput(opc, ops, rs)[i]
  {
    PairStages(opc, ops, rs);
  }

  /**
   * A two-operand instruction carries the source operand's addressing
   * mode in bits 4-5 of the first word and the destination's in bits 2-3.
   */
  lemma ModeFields(opc: int, ops: seq<string>, rs: seq<Operand>)
    requires |ops| == |rs| == 2
    ensures Field(Layout(opc, ops, rs), 0, 4, 2) == Encoded(AddrType(ops[0]), 2)
    ensures Field(Layout(opc, ops, rs), 0, 2, 2) == Encoded(AddrType(ops[1]), 2)
  {
    var b1 := OpcodeLayout(Zeros(MATRIX), opc);
    TwoPuts(b1, AddrType(ops[0]), 2, Cell(0, 4), AddrType(ops[1]), 2, Cell(0, 2));
    HeadKept(opc, ops, rs);
    var l := Layout(opc, ops, rs);
    FieldKept(l, PairInput(opc, ops, rs), Cell(1, 0), 0, 4, 2);
    FieldKept(l, PairInput(opc, ops, rs), Cell(1, 0), 0, 2, 2);
  }

  /** The jump block's first three calls: ERA 2 twice and the label's address. */
  function JumpFront(b: seq<int>, value: int): (r: seq<int>)
    ensures |r| == |b|
    ensures forall i :: 0 <= i < |b| && !(Cell(0, 2) <= i < Cell(0, 4)) && !(Cell(1, 0) <= i < Cell(2, 0)) ==> r[i] == b[i]
  {
    Put(Put(Put(b, 2, 2, Cell(0, 2)), 2, 2, Cell(1, 0)), value, ASM_WORD_SIZE - 2, Cell(1, 2))
  }

  lemma JumpFrontWindows(b: seq<int>, value: int)
    requires |b| == MATRIX
    requires forall i :: (Cell(0, 2) <= i < Cell(0, 4) || Cell(1, 0) <= i < Cell(2, 0)) ==> b[i] == 0
    ensures Field(JumpFront(b, value), 0, 2, 2) == Encoded(2, 2)
    ensures Field(JumpFront(b, value), 1, 0, 2) == Encoded(2, 2)
    ensures Field(JumpFront(b, value), 1, 2, 12) == Encoded(value, 12)
  {
    var j1 := Put(b, 2, 2, Cell(0, 2));
    PutZeroWindow(b, 2, 2, Cell(0, 2));
    TwoPuts(j1, 2, 2, Cell(1, 0), value, 12, Cell(1, 2));
    SameWindow(JumpFront(b, value), j1, Cell(0, 2), Cell(0, 4));
  }

  /** The cells of a jump's block, written on a matrix where they were all zero. */
  lemma JumpWindows(b: seq<int>, ops: seq<string>, rs: seq<Operand>)
    requires |ops| == |rs| == 3 && |b| == MATRIX
    requires forall i :: (Cell(0, 2) <= i < Cell(0, 4) || Cell(0, 10) <= i < Cell(2, 0)) ==> b[i] == 0
    ensures Field(JumpLayout(b, ops, rs), 0, 2, 2) == Encoded(2, 2)
    ensures Field(JumpLayout(b, ops, rs), 0, 12, 2) == Encoded(AddrType(ops[1]), 2)
    ensures Field(JumpLayout(b, ops, rs), 0, 10, 2) == Encoded(AddrType(ops[2]), 2)
    ensures Field(JumpLayout(b, ops, rs), 1, 2, 12) == Encoded(rs[0].value, 12)
    ensures Field(JumpLayout(b, ops, rs), 1, 0, 2) == Encoded(2, 2)
  {
    var f := JumpFront(b, rs[0].value);
    JumpFrontWindows(b, rs[0].value);
    TwoPuts(f, AddrType(ops[2]), 2, Cell(0, 10), AddrType(ops[1]), 2, Cell(0, 12));
    var j := JumpLayout(b, ops, rs);
    assert j == Put(Put(f, AddrType(ops[2]), 2, Cell(0, 10)), AddrType(ops[1]), 2, Cell(0, 12));
    SameWindow(j, f, Cell(0, 2), Cell(0, 4));
    SameWindow(j, f, Cell(1, 0), Cell(2, 0));
    assert Field(j, 1, 2, 12) == Field(f, 1, 2, 12);
  }

  /**
   * A jump: mode 2 in bits 2-3 of the first word, the parameters' modes in
   * bits 12-13 (first) and 10-11 (second), and the label's address in bits
   * 2-13 of the second word, whose ERA field is always 2: the ERA loop
   * marks the word after it instead.
   */
  lemma JumpFields(opc: int, ops: seq<string>, rs: seq<Operand>)
    requires |ops| == |rs| == 3
    ensures Field(Layout(opc, ops, rs), 0, 2, 2) == Encoded(2, 2)
    ensures Field(Layout(opc, ops, rs), 0, 12, 2) == Encoded(AddrType(ops[1]), 2)
    ensures Field(Layout(opc, ops, rs), 0, 10, 2) == Encoded(AddrType(ops[2]), 2)
    ensures Field(Layout(opc, ops, rs), 1, 2, 12) == Encoded(rs[0].value, 12)
    ensures Field(Layout(opc, ops, rs), 1, 0, 2) == Encoded(2, 2)
  {
    var b1 := OpcodeLayout(Zeros(MATRIX), opc);
    JumpWindows(b1, ops, rs);
    HeadKept(opc, ops, rs);
    var l, j := Layout(opc, ops, rs), JumpLayout(b1, ops, rs);
    assert PairInput(opc, ops, rs) == j;
    FieldKept(l, j, Cell(2, 0), 0, 2, 2);
    FieldKept(l, j, Cell(2, 0), 0, 12, 2);
    FieldKept(l, j, Cell(2, 0), 0, 10, 2);
    FieldKept(l, j, Cell(2, 0), 1, 2, 12);
    FieldKept(l, j, Cell(2, 0), 1, 0, 2);
  }

  /** What int_to_bin leaves in a two-cell ERA field: 2 and 1 on a cleared field, 1 and 2 over a 2. */
  lemma EraCells()
    ensures Encoded(2, 2) == [0, 1] && Encoded(1, 2) == [1, 0]
    ensures IntToBinAt(1, 2, [0, 1], 0) == [1, 1] && IntToBinAt(2, 2, [0, 1], 0) == [0, 1]
    ensures Value([1, 1]) == 3 && Value([1, 0]) == 1 && Value([0, 1]) == 2 && Value([0, 0]) == 0
  {
    assert [1, 1][..1] == [1] && [1, 0][..1] == [1] && [0, 1][..1] == [0] && [0, 0][..1] == [0];
  }

  /**
   * The ERA value the encoder leaves on a word: labelled says the block
   * wrote ERA 2 there first, x is the operand whose type bits the ERA loop
   * reads for that word. An external mark (1) over a 2 reads 3, because
   * int_to_bin does not clear the cell above the one it writes.
   */
  function EraMark(labelled: bool, x: Operand): int {
    if x.typ & SYM_EXT != 0 then (if labelled then 3 else 1)
    else if labelled || x.typ & SYM_ENT != 0 then 2
    else 0
  }

  /** The two ERA cells behind EraMark, low cell first. */
  function EraBits(labelled: bool, x: Operand): (r: seq<int>)
    ensures |r| == 2 && IsBits(r)
    ensures Value(r) == EraMark(labelled, x)
  {
    EraCells();
    if x.typ & SYM_EXT != 0 then (if labelled then [1, 1] else [1, 0])
    else if labelled || x.typ & SYM_ENT != 0 then [0, 1]
    else [0, 0]
  }

  /** One step of the ERA loop on a field that holds the block's ERA 2, or nothing. */
  lemma EraField(b: seq<int>, labelled: bool, x: Operand, row: nat)
    requires Cell(row, 0) + 2 <= |b|
    requires Field(b, row, 0, 2) == (if labelled then [0, 1] else [0, 0])
    ensures Field(EraStep(b, x, row), row, 0, 2) == EraBits(labelled, x)
  {
    var at := Cell(row, 0);
    EraCells();
    if x.typ & SYM_EXT != 0 {
      IntToBinLocal(1, 2, b, at);
    } else if x.typ & SYM_ENT != 0 {
      IntToBinLocal(2, 2, b, at);
    }
  }

  /** The cells of the one-operand block, written on a matrix where they were all zero. */
  lemma SingleValueWindow(b: seq<int>, opc: int, ops: seq<string>, rs: seq<Operand>)
    requires |ops| == |rs| == 1 && |b| == MATRIX
    requires forall i :: (Cell(0, 2) <= i < Cell(0, 4) || Cell(1, 0) <= i < Cell(2, 0)) ==> b[i] == 0
    ensures Field(SingleLayout(b, opc, ops, rs), 1, 2, 12) == Encoded(rs[0].value, 12)
  {
    var s1 := if IsLabel(ops[0]) then Put(b, 2, 2, Cell(1, 0)) else b;
    var s2 := Put(s1, rs[0].value, 12, Cell(1, 2));
    PutZeroWindow(s1, rs[0].value, 12, Cell(1, 2));
    var s3 := if opc != 12 then Put(s2, 2, 2, Cell(0, 2)) else s2;
    assert SingleLayout(b, opc, ops, rs) == s3;
    SameWindow(s3, s2, Cell(1, 2), Cell(2, 0));
  }

  lemma SingleModeWindow(b: seq<int>, opc: int, ops: seq<string>, rs: seq<Operand>)
    requires |ops| == |rs| == 1 && |b| == MATRIX
    requires forall i :: (Cell(0, 2) <= i < Cell(0, 4) || Cell(1, 0) <= i < Cell(2, 0)) ==> b[i] == 0
    ensures Field(SingleLayout(b, opc, ops, rs), 0, 2, 2) == (if opc != 12 then Encoded(2, 2) else [0, 0])
  {
    var s1 := if IsLabel(ops[0]) then Put(b, 2, 2, Cell(1, 0)) else b;
    var s2 := Put(s1, rs[0].value, 12, Cell(1, 2));
    assert SingleLayout(b, opc, ops, rs) == if opc != 12 then Put(s2, 2, 2, Cell(0, 2)) else s2;
    if opc != 12 {
      PutZeroWindow(s2, 2, 2, Cell(0, 2));
    } else {
      assert s2[Cell(0, 2)..Cell(0, 4)] == [0, 0];
    }
  }

  lemma SingleEraWindow(b: seq<int>, opc: int, ops: seq<string>, rs: seq<Operand>)
    requires |ops| == |rs| == 1 && |b| == MATRIX
    requires forall i :: (Cell(0, 2) <= i < Cell(0, 4) || Cell(1, 0) <= i < Cell(2, 0)) ==> b[i] == 0
    ensures Field(SingleLayout(b, opc, ops, rs), 1, 0, 2) == (if IsLabel(ops[0]) then [0, 1] else [0, 0])
  {
    EraCells();
    var s1 := if IsLabel(ops[0]) then Put(b, 2, 2, Cell(1, 0)) else b;
    if IsLabel(ops[0]) {
      PutZeroWindow(b, 2, 2, Cell(1, 0));
    } else {
      assert s1[Cell(1, 0)..Cell(1, 2)] == [0, 0];
    }
    var s2 := Put(s1, rs[0].value, 12, Cell(1, 2));
    var s3 := if opc != 12 then Put(s2, 2, 2, Cell(0, 2)) else s2;
    assert SingleLayout(b, opc, ops, rs) == s3;
    SameWindow(s3, s1, Cell(1, 0), Cell(1, 2));
  }

  /**
   * One operand: its value in bits 2-13 of the second word, mode 2 in bits
   * 2-3 of the first word unless the opcode is 12, and on the second word
   * the ERA value EraMark gives: 2 for a label, 3 for an external one, and
   * 0 for anything else whose type bits are clear.
   */
  lemma SingleFields(opc: int, ops: seq<string>, rs: seq<Operand>)
    requires |ops| == |rs| == 1
    ensures Field(Layout(opc, ops, rs), 1, 2, 12) == Encoded(rs[0].value, 12)
    ensures Field(Layout(opc, ops, rs), 0, 2, 2) == if opc != 12 then Encoded(2, 2) else [0, 0]
    ensures Field(Layout(opc, ops, rs), 1, 0, 2) == EraBits(IsLabel(ops[0]), rs[0])
  {
    var b1 := OpcodeLayout(Zeros(MATRIX), opc);
    var s := SingleLayout(b1, opc, ops, rs);
    SingleValueWindow(b1, opc, ops, rs);
    SingleModeWindow(b1, opc, ops, rs);
    SingleEraWindow(b1, opc, ops, rs);
    SingleKept(opc, ops, rs);
    var l := Layout(opc, ops, rs);
    EraField(s, IsLabel(ops[0]), rs[0], 1);
    SameWindow(l, s, Cell(1, 2), Cell(2, 0));
    SameWindow(l, s, Cell(0, 2), Cell(0, 4));
  }

  /** After the one-operand block only the ERA loop's step on the second word follows. */
  lemma SingleKept(opc: int, ops: seq<string>, rs: seq<Operand>)
    requires |ops| == |rs| == 1
    ensures Layout(opc, ops, rs) == EraStep(SingleLayout(OpcodeLayout(Zeros(MATRIX), opc), opc, ops, rs), rs[0], 1)
  {
  }

  /** The matrix the two-operand block starts from: the opcode, then a jump's block and the modes. */
  function PairInput(opc: int, ops: seq<string>, rs: seq<Operand>): (b: seq<int>)
    requires 2 <= |ops| == |rs| <= 3
    ensures |b| == MATRIX
  {
    var b1 := OpcodeLayout(Zeros(MATRIX), opc);
    ModeLayout(if |ops| == 3 then JumpLayout(b1, ops, rs) else b1, ops)
  }

  /** Before the two-operand block every word from the pair's first on is still clear. */
  lemma PairInputClear(opc: int, ops: seq<string>, rs: seq<Operand>)
    requires 2 <= |ops| == |rs| <= 3
    ensures var w := FirstWord(|ops|);
      forall i :: Cell(w, 0) <= i < MATRIX ==> PairInput(opc, ops, rs)[i] == 0
  {
  }

  /** The pair's words, written on a matrix where they were clear. */
  lemma PairWindows(b: seq<int>, ops: seq<string>, rs: seq<Operand>)
    requires 2 <= |ops| == |rs| <= 3 && |b| == MATRIX
    requires var w := FirstWord(|ops|);
      forall i :: Cell(w, 0) <= i < Cell(w + 2, 0) ==> b[i] == 0
    ensures var o, w, p := PairAt(|ops|), FirstWord(|ops|), PairWordLayout(b, ops, rs);
      && (IsReg(ops[o]) ==> Field(p, w, 8, 5) == Encoded(rs[o].value, 5))
      && (!IsReg(ops[o]) ==> Field(p, w, 2, 12) == Encoded(rs[o].value, 12))
      && (IsReg(ops[o]) && IsReg(ops[o + 1]) ==> Field(p, w, 2, 5) == Encoded(rs[o + 1].value, 5))
      && (!(IsReg(ops[o]) && IsReg(ops[o + 1])) && IsReg(ops[o + 1]) ==> Field(p, w + 1, 2, 5) == Encoded(rs[o + 1].value, 5))
      && (!IsReg(ops[o + 1]) ==> Field(p, w + 1, 2, 12) == Encoded(rs[o + 1].value, 12))
  {
    var o, w := PairAt(|ops|), FirstWord(|ops|);
    var a, c := ops[o], ops[o + 1];
    if IsReg(a) && IsReg(c) {
      TwoPuts(b, rs[o + 1].value, 5, Cell(w, 2), rs[o].value, 5, Cell(w, 8));
    } else if IsReg(a) {
      TwoPuts(b, rs[o].value, 5, Cell(w, 8), rs[o + 1].value, 12, Cell(w + 1, 2));
    } else if IsReg(c) {
      TwoPuts(b, rs[o].value, 12, Cell(w, 2), rs[o + 1].value, 5, Cell(w + 1, 2));
    } else {
      TwoPuts(b, rs[o].value, 12, Cell(w, 2), rs[o + 1].value, 12, Cell(w + 1, 2));
    }
  }

  /** Two calls into disjoint windows of zeros leave each its own encoding. */
  lemma TwoPuts(b: seq<int>, x: int, xbits: nat, xat: nat, y: int, ybits: nat, yat: nat)
    requires 0 < xbits && 0 < ybits && xat + xbits <= |b| && yat + ybits <= |b|
    requires xat + xbits <= yat || yat + ybits <= xat
    requires forall i :: (xat <= i < xat + xbits || yat <= i < yat + ybits) ==> b[i] == 0
    ensures var r := Put(Put(b, x, xbits, xat), y, ybits, yat);
      r[xat..xat + xbits] == Encoded(x, xbits) && r[yat..yat + ybits] == Encoded(y, ybits)
  {
    var p1 := Put(b, x, xbits, xat);
    PutZeroWindow(b, x, xbits, xat);
    PutZeroWindow(p1, y, ybits, yat);
    SameWindow(Put(p1, y, ybits, yat), p1, xat, xat + xbits);
  }

  /** Bits 2-13 of a word read the same in two matrices that agree on those bits. */
  lemma WordKept(b: seq<int>, c: seq<int>, row: nat, col: nat, n: nat)
    requires |b| == |c| && 2 <= col && col + n <= 14 && Cell(row + 1, 0) <= |b|
    requires forall cl :: 2 <= cl < 14 ==> b[Cell(row, cl)] == c[Cell(row, cl)]
    ensures Field(b, row, col, n) == Field(c, row, col, n)
  {
    forall i | Cell(row, col) <= i < Cell(row, col) + n
      ensures b[i] == c[i]
    {
      assert i == Cell(row, i - Cell(row, 0));
    }
    SameWindow(b, c, Cell(row, col), Cell(row, col) + n);
  }

  /** Only ERA cells change after the two-operand words are written. */
  lemma PairKept(opc: int, ops: seq<string>, rs: seq<Operand>, row: nat)
    requires 2 <= |ops| == |rs| <= 3 && FirstWord(|ops|) <= row < FirstWord(|ops|) + 2
    ensures var p := PairWordLayout(PairInput(opc, ops, rs), ops, rs);
      forall cl :: 2 <= cl < 14 ==> Layout(opc, ops, rs)[Cell(row, cl)] == p[Cell(row, cl)]
  {
    var p := PairWordLayout(PairInput(opc, ops, rs), ops, rs);
    var e := PairEraLayout(p, ops);
    PairStages(opc, ops, rs);
  }

  /** With two or three operands, the two-operand block and the ERA loop follow PairInput. */
  lemma PairStages(opc: int, ops: seq<string>, rs: seq<Operand>)
    requires 2 <= |ops| == |rs| <= 3
    ensures Layout(opc, ops, rs) ==
      EraLayout(PairEraLayout(PairWordLayout(PairInput(opc, ops, rs), ops, rs), ops), rs, FirstWord(|ops|), |ops|)
  {
  }

  /**
   * The two-operand block (or a jump's two parameters) at word w: two
   * registers share word w, the source in bits 8-12 and the destination in
   * bits 2-6; otherwise each operand has its own word, a register in bits
   * 8-12 as a source or 2-6 as a destination, and anything else in bits
   * 2-13.
   */
  lemma PairFields(opc: int, ops: seq<string>, rs: seq<Operand>)
    requires 2 <= |ops| == |rs| <= 3
    ensures var o, w, l := PairAt(|ops|), FirstWord(|ops|), Layout(opc, ops, rs);
      && (IsReg(ops[o]) ==> Field(l, w, 8, 5) == Encoded(rs[o].value, 5))
      && (!IsReg(ops[o]) ==> Field(l, w, 2, 12) == Encoded(rs[o].value, 12))
      && (IsReg(ops[o]) && IsReg(ops[o + 1]) ==> Field(l, w, 2, 5) == Encoded(rs[o + 1].value, 5))
      && (!(IsReg(ops[o]) && IsReg(ops[o + 1])) && IsReg(ops[o + 1]) ==> Field(l, w + 1, 2, 5) == Encoded(rs[o + 1].value, 5))
      && (!IsReg(ops[o + 1]) ==> Field(l, w + 1, 2, 12) == Encoded(rs[o + 1].value, 12))
  {
    var w, l := FirstWord(|ops|), Layout(opc, ops, rs);
    var p := PairWordLayout(PairInput(opc, ops, rs), ops, rs);
    PairInputClear(opc, ops, rs);
    PairWindows(PairInput(opc, ops, rs), ops, rs);
    PairKept(opc, ops, rs, w);
    PairKept(opc, ops, rs, w + 1);
    WordKept(l, p, w, 8, 5);
    WordKept(l, p, w, 2, 12);
    WordKept(l, p, w, 2, 5);
    WordKept(l, p, w + 1, 2, 5);
    WordKept(l, p, w + 1, 2, 12);
  }

  /** ERA 2 into a clear ERA field when cond holds, or nothing. */
  function MaybeEra(b: seq<int>, cond: bool, row: nat): (r: seq<int>)
    ensures |r| == |b|
  {
    if cond then Put(b, 2, 2, Cell(row, 0)) else b
  }

  lemma MaybeEraField(b: seq<int>, cond: bool, row: nat)
    requires Cell(row, 2) <= |b|
    requires forall i :: Cell(row, 0) <= i < Cell(row, 2) ==> b[i] == 0
    ensures Field(MaybeEra(b, cond, row), row, 0, 2) == (if cond then [0, 1] else [0, 0])
    ensures forall i :: 0 <= i < |b| && !(Cell(row, 0) <= i < Cell(row, 2)) ==> MaybeEra(b, cond, row)[i] == b[i]
  {
    EraCells();
    if cond {
      PutZeroWindow(b, 2, 2, Cell(row, 0));
    }
  }

  /** The block's ERA 2 on the pair's words, written where the ERA cells were clear. */
  lemma PairEraWindows(b: seq<int>, ops: seq<string>)
    requires 2 <= |ops| <= 3 && |b| == MATRIX
    requires var w := FirstWord(|ops|);
      forall i :: (Cell(w, 0) <= i < Cell(w, 2) || Cell(w + 1, 0) <= i < Cell(w + 1, 2)) ==> b[i] == 0
    ensures var o, w, e := PairAt(|ops|), FirstWord(|ops|), PairEraLayout(b, ops);
      && Field(e, w, 0, 2) == (if IsLabel(ops[o]) then [0, 1] else [0, 0])
      && Field(e, w + 1, 0, 2) == (if IsLabel(ops[o + 1]) then [0, 1] else [0, 0])
  {
    var o, w := PairAt(|ops|), FirstWord(|ops|);
    var b1 := MaybeEra(b, IsLabel(ops[o]), w);
    MaybeEraField(b, IsLabel(ops[o]), w);
    var b2 := MaybeEra(b1, IsLabel(ops[o + 1]), w + 1);
    MaybeEraField(b1, IsLabel(ops[o + 1]), w + 1);
    assert PairEraLayout(b, ops) == b2;
    SameWindow(b2, b1, Cell(w, 0), Cell(w, 2));
  }

  /** The ERA loop's first two steps, on words w and w + 1; a third step (a jump's) lands past the matrix. */
  lemma EraTwoSteps(e: seq<int>, rs: seq<Operand>, w: nat, lab0: bool, lab1: bool)
    requires 2 <= |rs| <= 3 && w == FirstWord(|rs|) && |e| == MATRIX
    requires Field(e, w, 0, 2) == (if lab0 then [0, 1] else [0, 0])
    requires Field(e, w + 1, 0, 2) == (if lab1 then [0, 1] else [0, 0])
    ensures Field(EraLayout(e, rs, w, |rs|), w, 0, 2) == EraBits(lab0, rs[0])
    ensures Field(EraLayout(e, rs, w, |rs|), w + 1, 0, 2) == EraBits(lab1, rs[1])
  {
    assert EraLayout(e, rs, w, 0) == e;
    var e1 := EraStep(e, rs[0], w);
    assert EraLayout(e, rs, w, 1) == e1;
    EraField(e, lab0, rs[0], w);
    SameWindow(e1, e, Cell(w + 1, 0), Cell(w + 1, 2));
    var e2 := EraStep(e1, rs[1], w + 1);
    assert EraLayout(e, rs, w, 2) == e2;
    EraField(e1, lab1, rs[1], w + 1);
    SameWindow(e2, e1, Cell(w, 0), Cell(w, 2));
    var l := EraLayout(e, rs, w, |rs|);
    SameWindow(l, e2, Cell(w, 0), Cell(w + 2, 0));
  }

  /**
   * The ERA fields of the pair's words: word w + k gets the block's ERA 2
   * when operand o + k is a label, and then the ERA loop's mark for operand
   * k. With two operands o is 0 and each word gets its own operand's mark;
   * in a jump o is 1, so the first parameter's word gets the jump label's
   * mark and the second parameter's word the first parameter's.
   */
  lemma PairEraFields(opc: int, ops: seq<string>, rs: seq<Operand>)
    requires 2 <= |ops| == |rs| <= 3
    ensures var o, w, l := PairAt(|ops|), FirstWord(|ops|), Layout(opc, ops, rs);
      && Field(l, w, 0, 2) == EraBits(IsLabel(ops[o]), rs[0])
      && Field(l, w + 1, 0, 2) == EraBits(IsLabel(ops[o + 1]), rs[1])
  {
    var o, w := PairAt(|ops|), FirstWord(|ops|);
    var p := PairWordLayout(PairInput(opc, ops, rs), ops, rs);
    PairInputClear(opc, ops, rs);
    PairEraWindows(p, ops);
    PairStages(opc, ops, rs);
    EraTwoSteps(PairEraLayout(p, ops), rs, w, IsLabel(ops[o]), IsLabel(ops[o + 1]));
  }

  // ---------------------------------------------------------------------
  // The word count
  // ---------------------------------------------------------------------

  /** Operands that are not labels carry clear type bits, as Meaning gives them. */
  predicate TypedOperands(ops: seq<string>, rs: seq<Operand>) {
    |ops| == |rs| && forall k :: 0 <= k < |ops| && !IsLabel(ops[k]) ==> rs[k].typ == 0
  }

  /** The operands Resolve converts carry the table's type bits for labels and clear bits otherwise. */
  lemma ResolveTyped(m: map<string, SymbolData>, ic: int, ops: seq<string>)
    requires Resolve(m, ic, ops).1.Some?
    ensures TypedOperands(ops, Resolve(m, ic, ops).1.value)
  {
    ResolveResult(m, ic, ops);
  }

  /** ERA loop steps whose operands are plain change nothing. */
  lemma {:induction false} EraPlainTail(e: seq<int>, rs: seq<Operand>, w: int, k: nat)
    requires 1 <= k <= |rs|
    requires forall j :: 1 <= j < |rs| ==> Plain(rs[j])
    ensures EraLayout(e, rs, w, k) == EraLayout(e, rs, w, 1)
    decreases k
  {
    if k > 1 {
      EraPlainTail(e, rs, w, k - 1);
    }
  }

  /** Zero or one operand: only the first NumWords words are written. */
  lemma CoverShort(opc: int, ops: seq<string>, rs: seq<Operand>)
    requires |ops| == |rs| <= 1
    ensures forall i :: Cell(NumWords(ops), 0) <= i < MATRIX ==> Layout(opc, ops, rs)[i] == 0
  {
    var b1 := OpcodeLayout(Zeros(MATRIX), opc);
    if |ops| == 1 {
      SingleKept(opc, ops, rs);
    } else {
      assert Layout(opc, ops, rs) == EraLayout(b1, rs, 1, 0) == b1;
    }
  }

  /** Two registers share one word: nothing is written past it. */
  lemma CoverRegisterPair(opc: int, ops: seq<string>, rs: seq<Operand>)
    requires 2 <= |ops| == |rs| <= 3 && RegisterPair(ops) && TypedOperands(ops, rs)
    ensures forall i :: Cell(NumWords(ops), 0) <= i < MATRIX ==> Layout(opc, ops, rs)[i] == 0
  {
    var w := FirstWord(|ops|);
    var p := PairWordLayout(PairInput(opc, ops, rs), ops, rs);
    PairInputClear(opc, ops, rs);
    assert PairEraLayout(p, ops) == p;
    PairStages(opc, ops, rs);
    RegisterPairPlain(ops, rs);
    EraPlainTail(p, rs, w, |rs|);
  }

  /** In a register pair every operand after the first is a register, so its type bits are clear. */
  lemma RegisterPairPlain(ops: seq<string>, rs: seq<Operand>)
    requires 2 <= |ops| <= 3 && RegisterPair(ops) && TypedOperands(ops, rs)
    ensures forall j :: 1 <= j < |rs| ==> Plain(rs[j])
  {
    assert !IsLabel(ops[1]) && rs[1].typ == 0;
    if |ops| == 3 {
      assert !IsLabel(ops[2]) && rs[2].typ == 0;
    }
  }

  /** Each operand of the pair in its own word: nothing is written past the last. */
  lemma CoverPair(opc: int, ops: seq<string>, rs: seq<Operand>)
    requires 2 <= |ops| == |rs| <= 3 && !RegisterPair(ops)
    ensures forall i :: Cell(NumWords(ops), 0) <= i < MATRIX ==> Layout(opc, ops, rs)[i] == 0
  {
    PairInputClear(opc, ops, rs);
    PairStages(opc, ops, rs);
  }

  /**
   * The words instruction_to_bin reports are all it writes: every cell
   * from word NumWords on is still clear, provided operands that are not
   * labels carry clear type bits (as Resolve gives them).
   */
  lemma WordsCover(opc: int, ops: seq<string>, rs: seq<Operand>)
    requires |ops| <= 3 && TypedOperands(ops, rs)
    ensures forall i :: Cell(NumWords(ops), 0) <= i < MATRIX ==> Layout(opc, ops, rs)[i] == 0
  {
    if |ops| <= 1 {
      CoverShort(opc, ops, rs);
    } else if RegisterPair(ops) {
      CoverRegisterPair(opc, ops, rs);
    } else {
      CoverPair(opc, ops, rs);
    }
  }

  /** One to four words, one less than the operands plus the opcode word exactly for a register pair. */
  lemma NumWordsBounds(ops: seq<string>)
    requires |ops| <= 3
    ensures 1 <= NumWords(ops) <= 4
    ensures NumWords(ops) == |ops| + 1 || (|ops| >= 2 && RegisterPair(ops) && NumWords(ops) == |ops|)
  {
  }

  /**
   * The first pass's count (Address.CodeWords, from the opcode token on)
   * agrees with the words the second pass emits, as long as the opcode
   * does not start with 'r' and a jump's label is not a register.
   */
  lemma {:induction false} FirstPassAgrees(opcode: string, ops: seq<string>)
    requires |ops| <= 3 && !IsReg(opcode)
    requires |ops| == 3 ==> !IsReg(ops[0])
    ensures Address.CodeWords([opcode] + ops, 0) == NumWords(ops)
  {
    var t := [opcode] + ops;
    assert Address.CodeWords(t, 0) == 1 + Address.CodeWords(t, 1);
    if |ops| == 3 {
      assert Address.CodeWords(t, 1) == 1 + Address.CodeWords(t, 2);
      PairCount(t, 2);
    } else if |ops| == 2 {
      PairCount(t, 1);
    } else if |ops| == 1 {
      assert Address.CodeWords(t, 2) == 0;
    }
  }

  /** The first pass's count of the last two tokens: one word for two registers, else two. */
  lemma PairCount(t: seq<string>, i: nat)
    requires i + 2 == |t|
    ensures Address.CodeWords(t, i) == if IsReg(t[i]) && IsReg(t[i + 1]) then 1 else 2
  {
    assert Address.CodeWords(t, i + 2) == 0;
    if !(IsReg(t[i]) && IsReg(t[i + 1])) {
      assert Address.CodeWords(t, i + 1) == 1;
    }
  }

  /**
   * The two passes disagree on `red r3`: the second pass emits two words,
   * the first counts one, because it pairs the opcode with the register.
   */
  lemma RegisterAfterOpcode()
    ensures NumWords(["r3"]) == 2
    ensures Address.CodeWords(["red", "r3"], 0) == 1
  {
    Address.RegisterAfterRed();
  }

  /**
   * A tagged operand's addressing mode is 0 (immediate), 1 (label) or 3
   * (register), and the two mode cells read back as that number.
   */
  lemma ModeBits(t: string)
    requires Parse.IsTypeVal(t)
    ensures AddrType(t) == (if t[0] == 'i' then 0 else if t[0] == 'l' then 1 else 3)
    ensures IsBits(Encoded(AddrType(t), 2)) && Value(Encoded(AddrType(t), 2)) == AddrType(t)
  {
    EncodedValue(AddrType(t), 2);
    assert Pow2(2) == 4;
  }
}
