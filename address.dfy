/**
 * The first pass of the assembler: address_labels (address.c:26-156).
 *
 * Each line is classified by parse_line; the pass then inserts or updates
 * the line's symbol, advances the instruction counter IC or the data
 * counter DC, and, once every line is read, moves every data and string
 * symbol up by the final IC so that the data segment follows the code.
 *
 * The specification is a left fold of LineStep over the classified lines
 * (Scan), followed by Sweep. AddressLabels runs the same pass over the
 * chained hash table and is proved to leave the table holding exactly
 * FirstPass's symbols.
 *
 * A symbol's `other` list (address.h:27) is modelled by its head-to-tail
 * contents: the extern use sites the encoder pushes, most recent first.
 */
module Address {
  import opened Util
  import Parse
  import Hashtable

  datatype SymbolData = SymbolData(addr: int, typ: bv8, other: seq<int>)

  /** new_sym_dat: a symbol at addr with the given type bits and an empty `other` list. */
  function NewSymData(addr: int, typ: bv8): (sd: SymbolData)
    ensures sd.addr == addr && sd.typ == typ && sd.other == []
  {
    SymbolData(addr, typ, [])
  }

  /**
   * The lines the pass is defined on: a line with a label, .extern or
   * .entry has the name at tokens[0]; a .string line has its payload; and
   * a .string or .data line names a symbol on the same line (otherwise the
   * source writes through a pointer left from an earlier line, or an
   * uninitialised one).
   */
  predicate Addressable(p: Parse.Parsed) {
    && (p.typ & (SYM_EXT | SYM_ENT | SYM_DEF) != 0 ==> |p.tokens| > 0)
    && (p.typ & (SYM_STR | SYM_DAT) != 0 ==> p.typ & (SYM_EXT | SYM_ENT | SYM_DEF) != 0)
    && (p.typ & SYM_STR != 0 ==> |p.tokens| > FirstArg(p.typ))
  }

  /** curr_tok after the symbol branch: 1 when a label definition was consumed, 0 otherwise. */
  function FirstArg(typ: bv8): nat {
    if typ & (SYM_EXT | SYM_ENT) == 0 && typ & SYM_DEF != 0 then 1 else 0
  }

  /** The counters and the table of address_labels. */
  datatype Pass = Pass(labels: map<string, SymbolData>, ic: int, dc: int)

  /**
   * An .entry or label-definition symbol: a new one at addr when the name
   * is absent; otherwise the existing one with the line's bits ORed in and
   * its address untouched.
   */
  function Mark(labels: map<string, SymbolData>, name: string, addr: int, typ: bv8): (m: map<string, SymbolData>)
    ensures name in m && m.Keys == labels.Keys + {name}
    ensures name !in labels ==> m[name] == NewSymData(addr, typ)
    ensures name in labels ==> m[name] == labels[name].(typ := labels[name].typ | typ)
    ensures forall k :: k in labels && k != name ==> m[k] == labels[k]
  {
    var sd := if name in labels then labels[name] else NewSymData(addr, typ);
    labels[name := sd.(typ := sd.typ | typ)]
  }

  /**
   * The words an instruction line occupies, counted from token i on: one
   * per token, except that a token starting with 'r' followed by another
   * token starting with 'r' counts once for both. The opcode token is
   * counted too, so an opcode spelled with an 'r' pairs with a register
   * operand after it.
   */
  function CodeWords(toks: seq<string>, i: nat): nat
    decreases |toks| - i
  {
    if i >= |toks| then 0
    else if CharAt(toks[i], 0) == 'r' && i + 1 < |toks| && CharAt(toks[i + 1], 0) == 'r' then 1 + CodeWords(toks, i + 2)
    else 1 + CodeWords(toks, i + 1)
  }

  /** The symbol branch of a line (address.c:61-106): .extern, .entry or a label definition. */
  function Declared(labels: map<string, SymbolData>, p: Parse.Parsed, ic: int): (m: map<string, SymbolData>)
    requires Addressable(p)
    ensures p.typ & (SYM_EXT | SYM_ENT | SYM_DEF) != 0 ==> p.tokens[0] in m
  {
    if p.typ & SYM_EXT != 0 then labels[p.tokens[0] := NewSymData(0, p.typ)]
    else if p.typ & SYM_ENT != 0 then Mark(labels, p.tokens[0], -1, p.typ)
    else if p.typ & SYM_DEF != 0 then Mark(labels, p.tokens[0], ic, p.typ)
    else labels
  }

  /**
   * The placement branch of a line (address.c:108-135): a string or data
   * symbol gets address DC and DC advances; an instruction advances IC.
   */
  function Placed(st: Pass, p: Parse.Parsed): Pass
    requires Addressable(p)
    requires p.typ & (SYM_STR | SYM_DAT) != 0 ==> p.tokens[0] in st.labels
  {
    var cur := FirstArg(p.typ);
    if p.typ & (SYM_STR | SYM_DAT) != 0 then
      var name := p.tokens[0];
      var size := if p.typ & SYM_STR != 0 then |p.tokens[cur]| else |p.tokens| - cur;
      Pass(st.labels[name := st.labels[name].(addr := st.dc)], st.ic, st.dc + size)
    else if p.typ & SYM_COD != 0 then
      Pass(st.labels, st.ic + CodeWords(p.tokens, cur), st.dc)
    else
      st
  }

  /** One line of address_labels. */
  function LineStep(st: Pass, p: Parse.Parsed): Pass
    requires Addressable(p)
  {
    Placed(st.(labels := Declared(st.labels, p, st.ic)), p)
  }

  /** The table and counters after the line loop over the classified lines ps, starting from init with IC = DC = 0. */
  function Scan(init: map<string, SymbolData>, ps: seq<Parse.Parsed>): Pass
    requires forall i :: 0 <= i < |ps| ==> Addressable(ps[i])
  {
    if ps == [] then Pass(init, 0, 0)
    else
      var front := ps[..|ps| - 1];
      assert forall i :: 0 <= i < |front| ==> front[i] == ps[i];
      LineStep(Scan(init, front), ps[|ps| - 1])
  }

  /** The final fix-up of one symbol: data and string symbols move up by ic. */
  function Shifted(sd: SymbolData, ic: int): SymbolData {
    if sd.typ & (SYM_DAT | SYM_STR) != 0 then sd.(addr := sd.addr + ic) else sd
  }

  function Sweep(labels: map<string, SymbolData>, ic: int): (m: map<string, SymbolData>)
    ensures m.Keys == labels.Keys
    ensures forall k :: k in labels && labels[k].typ & (SYM_DAT | SYM_STR) != 0 ==>
      m[k] == labels[k].(addr := labels[k].addr + ic)
    ensures forall k :: k in labels && labels[k].typ & (SYM_DAT | SYM_STR) == 0 ==> m[k] == labels[k]
  {
    map k | k in labels :: Shifted(labels[k], ic)
  }

  /** The scan over one more line is one more LineStep. */
  lemma ScanSnoc(init: map<string, SymbolData>, ps: seq<Parse.Parsed>, n: nat)
    requires n < |ps| && forall i :: 0 <= i < |ps| ==> Addressable(ps[i])
    ensures Scan(init, ps[..n + 1]) == LineStep(Scan(init, ps[..n]), ps[n])
  {
    assert ps[..n + 1][..n] == ps[..n];
  }

  /** address_labels: the scan, then the fix-up by the final IC. */
  function FirstPass(init: map<string, SymbolData>, ps: seq<Parse.Parsed>): Pass
    requires forall i :: 0 <= i < |ps| ==> Addressable(ps[i])
  {
    var st := Scan(init, ps);
    Pass(Sweep(st.labels, st.ic), st.ic, st.dc)
  }

  // ---------------------------------------------------------------------
  // The pass over the hash table
  // ---------------------------------------------------------------------

  /**
   * address_labels over the symbol table: returns the final IC and DC and
   * leaves the table holding FirstPass's symbols. ps names what parse_line
   * makes of each line.
   */
  method AddressLabels(labels: Hashtable.HashTable<SymbolData>, lines: seq<string>, ghost ps: seq<Parse.Parsed>)
    returns (ic: int, dc: int)
    requires labels.Valid()
    requires |ps| == |lines| && forall i :: 0 <= i < |lines| ==> Parse.ParsedLine(lines[i]) == Some(ps[i])
    requires forall i :: 0 <= i < |ps| ==> Addressable(ps[i])
    modifies labels, labels.entries
    ensures labels.Valid() && labels.entries == old(labels.entries) && labels.size == old(labels.size)
    ensures labels.Contents == FirstPass(old(labels.Contents), ps).labels
    ensures ic == FirstPass(old(labels.Contents), ps).ic && dc == FirstPass(old(labels.Contents), ps).dc
  {
    ic, dc := AddressLines(labels, lines, ps);
    ShiftDataLabels(labels, ic);
  }

  /** The loop over the lines of address_labels, before the fix-up: IC and DC start at 0. */
  method AddressLines(labels: Hashtable.HashTable<SymbolData>, lines: seq<string>, ghost ps: seq<Parse.Parsed>)
    returns (ic: int, dc: int)
    requires labels.Valid()
    requires |ps| == |lines| && forall i :: 0 <= i < |lines| ==> Parse.ParsedLine(lines[i]) == Some(ps[i])
    requires forall i :: 0 <= i < |ps| ==> Addressable(ps[i])
    modifies labels, labels.entries
    ensures labels.Valid() && labels.entries == old(labels.entries) && labels.size == old(labels.size)
    ensures Pass(labels.Contents, ic, dc) == Scan(old(labels.Contents), ps)
  {
    ghost var init := labels.Contents;
    ic, dc := 0, 0;
    var n := 0;
    while n < |lines|
      invariant 0 <= n <= |lines|
      invariant labels.Valid() && labels.entries == old(labels.entries) && labels.size == old(labels.size)
      invariant Scan(init, ps[..n]) == Pass(labels.Contents, ic, dc)
    {
      ScanSnoc(init, ps, n);
      ic, dc := AddressNext(labels, lines[n], ic, dc, ps[n]);
      n := n + 1;
    }
    assert ps[..n] == ps;
  }

  /** One line of the loop: parse_line, then the symbol branch and the advance. */
  method AddressNext(labels: Hashtable.HashTable<SymbolData>, line: string, ic0: int, dc0: int, ghost p: Parse.Parsed)
    returns (ic: int, dc: int)
    requires labels.Valid() && Parse.ParsedLine(line) == Some(p) && Addressable(p)
    modifies labels, labels.entries
    ensures labels.Valid() && labels.entries == old(labels.entries) && labels.size == old(labels.size)
    ensures Pass(labels.Contents, ic, dc) == LineStep(Pass(old(labels.Contents), ic0, dc0), p)
  {
    var typ, tokens := Parse.ParseLine(line);
    assert Parse.Parsed(typ, tokens) == p;
    ic, dc := AddressLine(labels, typ, tokens, ic0, dc0);
  }

  /** The body of the line loop: the symbol branch, then the IC or DC advance. */
  method AddressLine(labels: Hashtable.HashTable<SymbolData>, typ: bv8, tokens: seq<string>, ic0: int, dc0: int)
    returns (ic: int, dc: int)
    requires labels.Valid() && Addressable(Parse.Parsed(typ, tokens))
    modifies labels, labels.entries
    ensures labels.Valid() && labels.entries == old(labels.entries) && labels.size == old(labels.size)
    ensures Pass(labels.Contents, ic, dc) == LineStep(Pass(old(labels.Contents), ic0, dc0), Parse.Parsed(typ, tokens))
  {
    var currTok := DeclareLine(labels, typ, tokens, ic0);
    ic, dc := PlaceLine(labels, typ, tokens, currTok, ic0, dc0);
  }

  /** The .extern / .entry / label-definition branch; returns curr_tok. */
  method DeclareLine(labels: Hashtable.HashTable<SymbolData>, typ: bv8, tokens: seq<string>, ic: int)
    returns (currTok: nat)
    requires labels.Valid() && Addressable(Parse.Parsed(typ, tokens))
    modifies labels, labels.entries
    ensures labels.Valid() && labels.entries == old(labels.entries) && labels.size == old(labels.size)
    ensures labels.Contents == Declared(old(labels.Contents), Parse.Parsed(typ, tokens), ic)
    ensures currTok == FirstArg(typ)
  {
    currTok := 0;
    if typ & SYM_EXT != 0 {
      var _ := labels.Put(tokens[0], NewSymData(0, typ));
    } else if typ & SYM_ENT != 0 {
      MarkSymbol(labels, tokens[0], -1, typ);
    } else if typ & SYM_DEF != 0 {
      MarkSymbol(labels, tokens[0], ic, typ);
      currTok := currTok + 1;
    }
  }

  /** The .entry and label-definition branches: look the name up, insert it at addr if absent, OR in the bits. */
  method MarkSymbol(labels: Hashtable.HashTable<SymbolData>, name: string, addr: int, typ: bv8)
    requires labels.Valid()
    modifies labels, labels.entries
    ensures labels.Valid() && labels.entries == old(labels.entries) && labels.size == old(labels.size)
    ensures labels.Contents == Mark(old(labels.Contents), name, addr, typ)
  {
    var found := labels.Get(name);
    var sd := if found.None? then NewSymData(addr, typ) else found.value;
    var _ := labels.Put(name, sd.(typ := sd.typ | typ));
  }

  /** The .string / .data / instruction branch, from token currTok on. */
  method PlaceLine(labels: Hashtable.HashTable<SymbolData>, typ: bv8, tokens: seq<string>, currTok0: nat, ic0: int, dc0: int)
    returns (ic: int, dc: int)
    requires labels.Valid() && Addressable(Parse.Parsed(typ, tokens)) && currTok0 == FirstArg(typ)
    requires typ & (SYM_STR | SYM_DAT) != 0 ==> tokens[0] in labels.Contents
    modifies labels, labels.entries
    ensures labels.Valid() && labels.entries == old(labels.entries) && labels.size == old(labels.size)
    ensures Pass(labels.Contents, ic, dc) == Placed(Pass(old(labels.Contents), ic0, dc0), Parse.Parsed(typ, tokens))
  {
    ic, dc := ic0, dc0;
    var currTok := currTok0;
    if typ & SYM_STR != 0 {
      var found := labels.Get(tokens[0]);
      var _ := labels.Put(tokens[0], found.value.(addr := dc));
      dc := dc + |tokens[currTok]|;
    } else if typ & SYM_DAT != 0 {
      var found := labels.Get(tokens[0]);
      var _ := labels.Put(tokens[0], found.value.(addr := dc));
      while currTok < |tokens|
        invariant dc == dc0 + (currTok - currTok0)
        invariant currTok0 <= currTok && (currTok0 <= |tokens| ==> currTok <= |tokens|)
        decreases |tokens| - currTok
      {
        dc := dc + 1;
        currTok := currTok + 1;
      }
    } else if typ & SYM_COD != 0 {
      while currTok < |tokens|
        invariant currTok0 <= currTok
        invariant ic + CodeWords(tokens, currTok) == ic0 + CodeWords(tokens, currTok0)
        decreases |tokens| - currTok
      {
        if CharAt(tokens[currTok], 0) == 'r' {
          if currTok + 1 < |tokens| && CharAt(tokens[currTok + 1], 0) == 'r' {
            currTok := currTok + 1;
          }
        }
        ic := ic + 1;
        currTok := currTok + 1;
      }
    }
  }

  // ---------------------------------------------------------------------
  // The final sweep over the buckets
  // ---------------------------------------------------------------------

  /** A bucket chain after the sweep: the same keys in the same order, values fixed up. */
  function ShiftChain(chain: seq<Hashtable.Entry<SymbolData>>, ic: int): (r: seq<Hashtable.Entry<SymbolData>>)
    ensures |r| == |chain|
    ensures forall j :: 0 <= j < |chain| ==> r[j] == Hashtable.Entry(chain[j].key, Shifted(chain[j].value, ic))
  {
    if chain == [] then []
    else [Hashtable.Entry(chain[0].key, Shifted(chain[0].value, ic))] + ShiftChain(chain[1..], ic)
  }

  lemma {:induction false} LookupShifted(chain: seq<Hashtable.Entry<SymbolData>>, ic: int, k: string)
    ensures Hashtable.Lookup(ShiftChain(chain, ic), k) ==
      match Hashtable.Lookup(chain, k)
      case None => None
      case Some(sd) => Some(Shifted(sd, ic))
  {
    if chain != [] {
      assert ShiftChain(chain, ic)[1..] == ShiftChain(chain[1..], ic);
      LookupShifted(chain[1..], ic, k);
    }
  }

  /** Fixing up every chain keeps the table consistent and fixes up its contents. */
  lemma SweepTable(chains: seq<seq<Hashtable.Entry<SymbolData>>>, size: nat, m: map<string, SymbolData>, ic: int,
                   after: seq<seq<Hashtable.Entry<SymbolData>>>)
    requires Hashtable.TableOf(chains, size, m)
    requires |after| == |chains| && forall b :: 0 <= b < |chains| ==> after[b] == ShiftChain(chains[b], ic)
    ensures Hashtable.TableOf(after, size, Sweep(m, ic))
  {
    forall b | 0 <= b < |after|
      ensures Hashtable.DistinctKeys(after[b])
    {
      assert Hashtable.DistinctKeys(chains[b]);
    }
    forall k
      ensures Hashtable.Lookup(after[Hashtable.BucketOf(k, size)], k) == Hashtable.MapGet(Sweep(m, ic), k)
    {
      LookupShifted(chains[Hashtable.BucketOf(k, size)], ic, k);
    }
  }

  /**
   * The loop over labels->entries (address.c:142-151): every entry of
   * every bucket is visited and data and string symbols get ic added.
   */
  method ShiftDataLabels(labels: Hashtable.HashTable<SymbolData>, ic: int)
    requires labels.Valid()
    modifies labels, labels.entries
    ensures labels.Valid() && labels.entries == old(labels.entries) && labels.size == old(labels.size)
    ensures labels.Contents == Sweep(old(labels.Contents), ic)
    ensures forall b :: 0 <= b < labels.entries.Length ==> labels.entries[b] == ShiftChain(old(labels.entries[b]), ic)
  {
    ghost var chains := labels.entries[..];
    ShiftBuckets(labels.entries, labels.size, ic);
    SweepTable(chains, labels.size, labels.Contents, ic, labels.entries[..]);
    labels.Contents := Sweep(labels.Contents, ic);
  }

  /** The loop over the size buckets of entries. */
  method ShiftBuckets(entries: array<seq<Hashtable.Entry<SymbolData>>>, size: nat, ic: int)
    requires size == entries.Length
    modifies entries
    ensures forall b :: 0 <= b < entries.Length ==> entries[b] == ShiftChain(old(entries[b]), ic)
  {
    var i := 0;
    while i < size
      invariant 0 <= i <= size
      invariant forall b :: 0 <= b < i ==> entries[b] == ShiftChain(old(entries[b]), ic)
      invariant forall b :: i <= b < size ==> entries[b] == old(entries[b])
    {
      var shifted := ShiftBucket(entries[i], ic);
      entries[i] := shifted;
      i := i + 1;
    }
  }

  /** The walk along one bucket, fixing up each entry's value. */
  method ShiftBucket(chain: seq<Hashtable.Entry<SymbolData>>, ic: int) returns (shifted: seq<Hashtable.Entry<SymbolData>>)
    ensures shifted == ShiftChain(chain, ic)
  {
    shifted := [];
    var j := 0;
    while j < |chain|
      invariant 0 <= j <= |chain|
      invariant shifted == ShiftChain(chain[..j], ic)
    {
      assert ShiftChain(chain[..j + 1], ic) == ShiftChain(chain[..j], ic) + [Hashtable.Entry(chain[j].key, Shifted(chain[j].value, ic))];
      shifted := shifted + [Hashtable.Entry(chain[j].key, Shifted(chain[j].value, ic))];
      j := j + 1;
    }
    assert chain[..j] == chain;
  }

  // ---------------------------------------------------------------------
  // What the pass promises
  // ---------------------------------------------------------------------

  /**
   * Where symbols sit while the lines are read: a data or string symbol at
   * a data address already handed out (0..DC), any other symbol at -1 (an
   * .entry never defined) or at an instruction address already reached
   * (0..IC).
   */
  ghost predicate Placement(st: Pass) {
    && 0 <= st.ic && 0 <= st.dc
    && forall k :: k in st.labels ==>
         if st.labels[k].typ & (SYM_DAT | SYM_STR) != 0 then 0 <= st.labels[k].addr <= st.dc
         else -1 <= st.labels[k].addr <= st.ic
  }

  /** Every line keeps symbols placed and never moves IC or DC back. */
  lemma LineStepPlaces(st: Pass, p: Parse.Parsed)
    requires Addressable(p) && Placement(st)
    ensures Placement(LineStep(st, p))
    ensures LineStep(st, p).ic >= st.ic && LineStep(st, p).dc >= st.dc
  {
    var labels := Declared(st.labels, p, st.ic);
    var r := LineStep(st, p);
    assert r.ic >= st.ic && r.dc >= st.dc;
    forall k | k in r.labels
      ensures if r.labels[k].typ & (SYM_DAT | SYM_STR) != 0 then 0 <= r.labels[k].addr <= r.dc
              else -1 <= r.labels[k].addr <= r.ic
    {
      if p.typ & (SYM_EXT | SYM_ENT | SYM_DEF) != 0 && k == p.tokens[0] {
        SymbolPlaced(st, p);
      } else {
        assert k in st.labels && labels[k] == st.labels[k];
      }
    }
  }

  /** The line's own symbol after the line. */
  lemma SymbolPlaced(st: Pass, p: Parse.Parsed)
    requires Addressable(p) && Placement(st) && p.typ & (SYM_EXT | SYM_ENT | SYM_DEF) != 0
    ensures var r := LineStep(st, p); var sd := r.labels[p.tokens[0]];
      if sd.typ & (SYM_DAT | SYM_STR) != 0 then 0 <= sd.addr <= r.dc else -1 <= sd.addr <= r.ic
  {
    var name := p.tokens[0];
    var labels := Declared(st.labels, p, st.ic);
    var sd := labels[name];
    assert sd.typ & (SYM_DAT | SYM_STR) != 0 <==>
      p.typ & (SYM_DAT | SYM_STR) != 0 ||
      (p.typ & SYM_EXT == 0 && name in st.labels && st.labels[name].typ & (SYM_DAT | SYM_STR) != 0);
    if p.typ & (SYM_DAT | SYM_STR) == 0 {
      assert -1 <= sd.addr <= st.ic || (sd.typ & (SYM_DAT | SYM_STR) != 0 && 0 <= sd.addr <= st.dc);
    }
  }

  /**
   * The first pass lays the data segment after the code: once the scan is
   * over, every data or string symbol lies in IC..IC+DC and every other
   * symbol in -1..IC.
   */
  lemma {:induction false} FirstPassLayout(init: map<string, SymbolData>, ps: seq<Parse.Parsed>)
    requires forall i :: 0 <= i < |ps| ==> Addressable(ps[i])
    requires Placement(Pass(init, 0, 0))
    ensures var r := FirstPass(init, ps);
      forall k :: k in r.labels ==>
        if r.labels[k].typ & (SYM_DAT | SYM_STR) != 0 then r.ic <= r.labels[k].addr <= r.ic + r.dc
        else -1 <= r.labels[k].addr <= r.ic
  {
    ScanPlaces(init, ps);
  }

  lemma {:induction false} ScanPlaces(init: map<string, SymbolData>, ps: seq<Parse.Parsed>)
    requires forall i :: 0 <= i < |ps| ==> Addressable(ps[i])
    requires Placement(Pass(init, 0, 0))
    ensures Placement(Scan(init, ps))
  {
    if ps != [] {
      var front := ps[..|ps| - 1];
      assert forall i :: 0 <= i < |front| ==> front[i] == ps[i];
      ScanPlaces(init, front);
      LineStepPlaces(Scan(init, front), ps[|ps| - 1]);
    }
  }

  /** .extern: a fresh symbol at address 0 with the line's bits replaces any existing one; IC and DC stay. */
  lemma ExternLine(st: Pass, p: Parse.Parsed)
    requires Addressable(p) && p.typ & SYM_EXT != 0 && Parse.OneKind(p.typ & !SYM_DEF)
    ensures var r := LineStep(st, p);
      && r.labels == st.labels[p.tokens[0] := SymbolData(0, p.typ, [])]
      && r.ic == st.ic && r.dc == st.dc
  {
  }

  /**
   * .entry: an absent name is inserted at address -1; a present one only
   * gains the line's bits, keeping its address and its use list. No other
   * symbol changes, and IC and DC stay.
   */
  lemma EntryLine(st: Pass, p: Parse.Parsed)
    requires Addressable(p) && p.typ & SYM_ENT != 0 && Parse.OneKind(p.typ & !SYM_DEF)
    ensures var r := LineStep(st, p); var name := p.tokens[0];
      && r.ic == st.ic && r.dc == st.dc
      && r.labels.Keys == st.labels.Keys + {name}
      && (name !in st.labels ==> r.labels[name] == SymbolData(-1, p.typ, []))
      && (name in st.labels ==>
            r.labels[name] == SymbolData(st.labels[name].addr, st.labels[name].typ | p.typ, st.labels[name].other))
      && forall k :: k in st.labels && k != name ==> r.labels[k] == st.labels[k]
  {
  }

  /**
   * A labelled instruction: a new label gets the current IC, an existing
   * one keeps its address and gains the line's bits; IC then advances by
   * the words counted from the opcode on.
   */
  lemma LabelledInstruction(st: Pass, p: Parse.Parsed)
    requires Addressable(p) && p.typ == SYM_DEF | SYM_COD
    ensures var r := LineStep(st, p); var name := p.tokens[0];
      && r.ic == st.ic + CodeWords(p.tokens, 1) && r.dc == st.dc
      && r.labels.Keys == st.labels.Keys + {name}
      && (name !in st.labels ==> r.labels[name] == SymbolData(st.ic, p.typ, []))
      && (name in st.labels ==>
            r.labels[name] == SymbolData(st.labels[name].addr, st.labels[name].typ | p.typ, st.labels[name].other))
      && forall k :: k in st.labels && k != name ==> r.labels[k] == st.labels[k]
  {
  }

  /**
   * A labelled .string or .data line: the label gets the current DC (new
   * or not), and DC advances by the payload's length (no terminator is
   * counted) or by the number of values.
   */
  lemma LabelledData(st: Pass, p: Parse.Parsed)
    requires Addressable(p) && (p.typ == SYM_DEF | SYM_STR || p.typ == SYM_DEF | SYM_DAT)
    ensures var r := LineStep(st, p); var name := p.tokens[0];
      && r.ic == st.ic
      && r.dc == st.dc + (if p.typ & SYM_STR != 0 then |p.tokens[1]| else |p.tokens| - 1)
      && r.labels.Keys == st.labels.Keys + {name}
      && r.labels[name].addr == st.dc
      && r.labels[name].typ == (if name in st.labels then st.labels[name].typ | p.typ else p.typ)
      && forall k :: k in st.labels && k != name ==> r.labels[k] == st.labels[k]
  {
  }

  /** An instruction line takes between half its tokens (rounded up) and all of them. */
  lemma {:induction false} CodeWordsBounds(toks: seq<string>, i: nat)
    requires i <= |toks|
    ensures (|toks| - i + 1) / 2 <= CodeWords(toks, i) <= |toks| - i
    decreases |toks| - i
  {
    if i < |toks| {
      if CharAt(toks[i], 0) == 'r' && i + 1 < |toks| && CharAt(toks[i + 1], 0) == 'r' {
        CodeWordsBounds(toks, i + 2);
      } else {
        CodeWordsBounds(toks, i + 1);
      }
    }
  }

  /** The opcode token takes part in the register pairing: `red r3` is counted as one word. */
  lemma RegisterAfterRed()
    ensures CodeWords(["red", "r3"], 0) == 1
  {
    assert CharAt("red", 0) == 'r' && CharAt("r3", 0) == 'r';
  }
}
