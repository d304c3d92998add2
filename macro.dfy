/**
 * The macro pre-pass of macro.c: expand_macros as a transformer from the
 * lines fgets returns to the lines written to the expanded file.
 *
 * A definition runs from a line whose first word (after an optional label)
 * is `mcr` to a line whose first word is `endmcr`; its lines are kept,
 * left-trimmed, on a push-front list that the macro table maps the name to.
 * A line whose first word is a defined name is replaced by that list,
 * walked from its head. Every other line is copied.
 */
module Macro {
  import opened Util
  import Parse
  import Lists
  import Hashtable

  /** new_hashtable(100) in expand_macros. */
  const MACRO_TABLE_SIZE: nat := 100

  /**
   * What expand_macros reads from the start of a line: the word it tests
   * (the first word, or the second one when the first ends in ':'),
   * trimmed; token_len, the length of the first word; and where strtok
   * resumes.
   */
  datatype Head = Head(key: string, firstLen: nat, rest: nat)

  /**
   * strtok(line, " "), the label check and trim. None when strtok hands
   * back NULL: a line of blanks only, or a label with nothing after it.
   */
  function LineHead(line: string): (r: Option<Head>)
    ensures r.Some? ==> r.value.rest <= |line| && r.value.firstLen > 0
  {
    match Parse.NextWord(line, 0, " ")
    case None => None
    case Some(w) =>
      var t := w.text;
      if t[|t| - 1] == ':' then
        match Parse.NextWord(line, w.rest, " ")
        case None => None
        case Some(w2) => Some(Head(Trimmed(w2.text), |t|, w2.rest))
      else Some(Head(Trimmed(t), |t|, w.rest))
  }

  /**
   * The name an `mcr` line defines: the next word, right-trimmed within
   * token_len characters. None when there is no next word.
   */
  function McrName(line: string, h: Head): Option<string>
    requires h.rest <= |line|
  {
    match Parse.NextWord(line, h.rest, " ")
    case None => None
    case Some(w) => Some(TrimmedRight(w.text, h.firstLen))
  }

  /**
   * The state of the line loop: in_mcr; each macro name with the contents
   * of its list, head first; the name whose list macro_code points to;
   * and the lines written so far.
   */
  datatype Expander = Expander(inMcr: bool, bodies: map<string, seq<string>>, current: string, out: seq<string>)

  /** Inside a definition the macro being defined has a list. */
  predicate Ready(st: Expander) {
    st.inMcr ==> st.current in st.bodies
  }

  /** The loop before the first line: in_mcr = 0, an empty table, nothing written. */
  const Init: Expander := Expander(false, map[], [], [])

  /**
   * One line of expand_macros. None when the source would hand a NULL
   * word to trim or trim_right.
   */
  function ExpandLine(st: Expander, line: string): (r: Option<Expander>)
    requires Ready(st)
    ensures r.Some? ==> Ready(r.value)
  {
    match LineHead(line)
    case None => None
    case Some(h) =>
      if st.inMcr then
        if h.key == "endmcr" then Some(st.(inMcr := false))
        else Some(st.(bodies := st.bodies[st.current := [TrimmedLeft(line)] + st.bodies[st.current]]))
      else if h.key in st.bodies then Some(st.(out := st.out + st.bodies[h.key]))
      else if h.key == "mcr" then
        match McrName(line, h)
        case None => None
        case Some(name) => Some(Expander(true, st.bodies[name := []], name, st.out))
      else Some(st.(out := st.out + [line]))
  }

  /** The loop over lines, starting from st. */
  function Run(st: Expander, lines: seq<string>): (r: Option<Expander>)
    requires Ready(st)
    ensures r.Some? ==> Ready(r.value)
  {
    if lines == [] then Some(st)
    else
      match Run(st, lines[..|lines| - 1])
      case None => None
      case Some(s) => ExpandLine(s, lines[|lines| - 1])
  }

  /** expand_macros over the lines of the input file. */
  function Expansion(lines: seq<string>): Option<Expander> {
    Run(Init, lines)
  }

  // ---------------------------------------------------------------------
  // The loop over a table of lists
  // ---------------------------------------------------------------------

  /**
   * Every name of m maps to its own valid list, whose contents are the
   * name's lines in bodies; the lists' objects are in objs and the lists
   * share none of them.
   */
  ghost predicate ListsHold(m: map<string, Lists.DList<string>>, objs: set<object>, bodies: map<string, seq<string>>)
    reads objs
  {
    && m.Keys == bodies.Keys
    && (forall k :: k in m ==>
          && m[k] in objs && m[k].Repr <= objs
          && m[k].Valid() && m[k].contents == bodies[k])
    && (forall k, k' :: k in m && k' in m && k != k' ==> m[k].Repr !! m[k'].Repr)
  }

  /**
   * The table and macro_code hold what st says: the table's lists hold the
   * macros' lines and are apart from the table itself; inside a definition
   * macro_code is the list of the macro being defined.
   */
  ghost predicate Mirrors(table: Hashtable.HashTable<Lists.DList<string>>, macroCode: Lists.DList?<string>,
                          objs: set<object>, st: Expander)
    reads table, table.entries, objs
  {
    && table.Valid() && table !in objs && table.entries !in objs
    && ListsHold(table.Contents, objs, st.bodies)
    && Ready(st)
    && (st.inMcr ==> macroCode == table.Contents[st.current])
  }

  /** Taking one name out leaves the other lists holding, apart from that list's objects. */
  lemma Detach(m: map<string, Lists.DList<string>>, objs: set<object>, bodies: map<string, seq<string>>, name: string)
    requires ListsHold(m, objs, bodies) && name in m
    ensures ListsHold(m - {name}, objs - m[name].Repr, bodies - {name})
  {
    var m', objs' := m - {name}, objs - m[name].Repr;
    forall k | k in m'
      ensures m'[k] in objs' && m'[k].Repr <= objs'
    {
      assert m[k].Repr !! m[name].Repr;
    }
  }

  /** A valid list apart from all the others can be put under a new name. */
  lemma Attach(m: map<string, Lists.DList<string>>, objs: set<object>, bodies: map<string, seq<string>>,
               name: string, list: Lists.DList<string>)
    requires ListsHold(m, objs, bodies) && name !in m
    requires list.Valid() && list.Repr !! objs
    ensures ListsHold(m[name := list], objs + list.Repr, bodies[name := list.contents])
  {
    var m' := m[name := list];
    forall k | k in m'
      ensures m'[k] in objs + list.Repr && m'[k].Repr <= objs + list.Repr
      ensures m'[k].Valid() && m'[k].contents == bodies[name := list.contents][k]
    {
      if k != name {
        assert m'[k] == m[k];
      }
    }
    forall k, k' | k in m' && k' in m' && k != k'
      ensures m'[k].Repr !! m'[k'].Repr
    {
      if k != name && k' != name {
        assert m'[k] == m[k] && m'[k'] == m[k'];
      }
    }
  }

  /** A valid list apart from all the others can be put under any name, replacing the list it had. */
  lemma Replace(m: map<string, Lists.DList<string>>, objs: set<object>, bodies: map<string, seq<string>>,
                name: string, list: Lists.DList<string>)
    requires ListsHold(m, objs, bodies)
    requires list.Valid() && list.Repr !! objs
    ensures ListsHold(m[name := list], objs + list.Repr, bodies[name := list.contents])
  {
    if name in m {
      var others := objs - m[name].Repr;
      Detach(m, objs, bodies, name);
      Attach(m - {name}, others, bodies - {name}, name, list);
      RemovePut(m, name, list);
      RemovePut(bodies, name, list.contents);
      Widen(m[name := list], others + list.Repr, objs + list.Repr, bodies[name := list.contents]);
    } else {
      Attach(m, objs, bodies, name, list);
    }
  }

  /** More objects around the lists change nothing. */
  lemma Widen(m: map<string, Lists.DList<string>>, objs: set<object>, objs': set<object>, bodies: map<string, seq<string>>)
    requires ListsHold(m, objs, bodies) && objs <= objs'
    ensures ListsHold(m, objs', bodies)
  {
  }

  /** Putting a key back after taking it out is putting it. */
  lemma RemovePut<K, V>(m: map<K, V>, k: K, v: V)
    ensures (m - {k})[k := v] == m[k := v]
  {
  }

  /** Putting the value a key already has changes nothing. */
  lemma PutSame<K, V>(m: map<K, V>, k: K)
    requires k in m
    ensures m[k := m[k]] == m
  {
  }

  /** expand_macros over the lines of the input file: the lines it writes. */
  method ExpandMacros(lines: seq<string>) returns (out: seq<string>)
    requires Expansion(lines).Some?
    ensures out == Expansion(lines).value.out
  {
    var table := new Hashtable.HashTable<Lists.DList<string>>(MACRO_TABLE_SIZE);
    var inMcr := false;
    var macroCode: Lists.DList?<string> := null;
    out := [];
    ghost var st := Init;
    ghost var objs: set<object> := {};
    for n := 0 to |lines|
      invariant Run(Init, lines[..n]) == Some(st)
      invariant Mirrors(table, macroCode, objs, st) && inMcr == st.inMcr && out == st.out
      invariant fresh(table) && fresh(table.entries) && fresh(objs)
    {
      RunPrefix(lines, n, st);
      macroCode, inMcr, out, objs, st := ExpandStep(table, macroCode, inMcr, out, lines[n], objs, st);
    }
    assert lines[..|lines|] == lines;
  }

  /** The loop ran over lines[..n] and reached st: the next line gives the next state. */
  lemma RunPrefix(lines: seq<string>, n: nat, st: Expander)
    requires n < |lines| && Ready(st) && Run(Init, lines[..n]) == Some(st) && Run(Init, lines).Some?
    ensures ExpandLine(st, lines[n]).Some? && Run(Init, lines[..n + 1]) == ExpandLine(st, lines[n])
  {
    PrefixSnoc(lines, n);
    RunPrefixSome(lines, n + 1);
  }

  lemma PrefixSnoc<T>(xs: seq<T>, n: nat)
    requires n < |xs|
    ensures xs[..n + 1][..n] == xs[..n] && xs[..n + 1][n] == xs[n]
  {
  }

  /** A run that reaches the end reaches every point before it. */
  lemma {:induction false} RunPrefixSome(lines: seq<string>, n: nat)
    requires n <= |lines| && Run(Init, lines).Some?
    ensures Run(Init, lines[..n]).Some?
    decreases |lines| - n
  {
    if n < |lines| {
      RunPrefixSome(lines, n + 1);
      PrefixSnoc(lines, n);
    } else {
      assert lines[..n] == lines;
    }
  }

  /** One pass of the loop body of expand_macros. */
  method ExpandStep(table: Hashtable.HashTable<Lists.DList<string>>, macroCode: Lists.DList?<string>, inMcr: bool,
                    out: seq<string>, line: string, ghost objs: set<object>, ghost st: Expander)
    returns (macroCode': Lists.DList?<string>, inMcr': bool, out': seq<string>, ghost objs': set<object>, ghost st': Expander)
    requires Mirrors(table, macroCode, objs, st) && inMcr == st.inMcr && out == st.out
    requires ExpandLine(st, line).Some?
    modifies table, table.entries, objs
    ensures st' == ExpandLine(st, line).value
    ensures Mirrors(table, macroCode', objs', st') && inMcr' == st'.inMcr && out' == st'.out
    ensures objs <= objs' && fresh(objs' - objs) && table.entries == old(table.entries)
  {
    var head := LineHead(line).value;
    st' := ExpandLine(st, line).value;
    if inMcr {
      if head.key == "endmcr" {
        macroCode', inMcr', out', objs' := macroCode, false, out, objs;
      } else {
        PushLine(table, macroCode, TrimmedLeft(line), objs, st);
        macroCode', inMcr', out', objs' := macroCode, true, out, objs + macroCode.Repr;
      }
    } else {
      var macro := table.Get(head.key);
      if macro.Some? {
        var xs := Lists.WalkFromHead(macro.value);
        macroCode', inMcr', out', objs' := macroCode, false, out + xs, objs;
      } else if head.key == "mcr" {
        var name := McrName(line, head).value;
        macroCode' := NewMacro(table, name, objs, st);
        inMcr', out', objs' := true, out, objs + macroCode'.Repr;
      } else {
        macroCode', inMcr', out', objs' := macroCode, false, out + [line], objs;
      }
    }
  }

  /** l_push of a line onto macro_code: only that list grows. */
  method PushLine(table: Hashtable.HashTable<Lists.DList<string>>, macroCode: Lists.DList?<string>, text: string,
                  ghost objs: set<object>, ghost st: Expander)
    requires Mirrors(table, macroCode, objs, st) && st.inMcr
    modifies objs
    ensures Mirrors(table, macroCode, objs + macroCode.Repr,
                    st.(bodies := st.bodies[st.current := [text] + st.bodies[st.current]]))
    ensures fresh(macroCode.Repr - objs)
  {
    PushOnto(macroCode, text, table.Contents, st.current, objs, st.bodies);
  }

  /** Pushing onto the list of name grows that list and leaves the others as they were. */
  method PushOnto(list: Lists.DList<string>, text: string, ghost m: map<string, Lists.DList<string>>, ghost name: string,
                  ghost objs: set<object>, ghost bodies: map<string, seq<string>>)
    requires ListsHold(m, objs, bodies) && name in m && m[name] == list
    modifies objs
    ensures ListsHold(m, objs + list.Repr, bodies[name := [text] + bodies[name]])
    ensures fresh(list.Repr - objs)
  {
    ghost var rest, others, restBodies := m - {name}, objs - list.Repr, bodies - {name};
    Detach(m, objs, bodies, name);
    list.Push(text);
    Attach(rest, others, restBodies, name, list);
    RemovePut(m, name, list);
    PutSame(m, name);
    RemovePut(bodies, name, [text] + bodies[name]);
    Widen(m, others + list.Repr, objs + list.Repr, bodies[name := [text] + bodies[name]]);
  }


  /** A new, empty list for name, put in the table (replacing any list name had). */
  method NewMacro(table: Hashtable.HashTable<Lists.DList<string>>, name: string, ghost objs: set<object>, ghost st: Expander)
    returns (macroCode: Lists.DList<string>)
    requires !st.inMcr && Mirrors(table, null, objs, st)
    modifies table, table.entries
    ensures Mirrors(table, macroCode, objs + macroCode.Repr, Expander(true, st.bodies[name := []], name, st.out))
    ensures fresh(macroCode.Repr) && table.entries == old(table.entries)
  {
    ghost var before := table.Contents;
    macroCode := new Lists.DList<string>();
    var _ := table.Put(name, macroCode);
    Replace(before, objs, st.bodies, name, macroCode);
  }

  // ---------------------------------------------------------------------
  // One line at a time
  // ---------------------------------------------------------------------

  /** Inside a definition a line other than `endmcr` is pushed, left-trimmed, onto the current list. */
  lemma BodyStep(st: Expander, line: string)
    requires st.inMcr && Ready(st) && BodyLine(line)
    ensures ExpandLine(st, line) ==
      Some(st.(bodies := st.bodies[st.current := [TrimmedLeft(line)] + st.bodies[st.current]]))
  {
  }

  /** `endmcr` inside a definition ends it and writes nothing. */
  lemma EndStep(st: Expander, line: string)
    requires st.inMcr && Ready(st)
    requires LineHead(line).Some? && LineHead(line).value.key == "endmcr"
    ensures ExpandLine(st, line) == Some(st.(inMcr := false))
  {
  }

  /** Outside a definition, an `mcr` line that is not a call starts a new, empty list for the name. */
  lemma OpenStep(st: Expander, line: string)
    requires !st.inMcr
    requires LineHead(line).Some? && LineHead(line).value.key !in st.bodies && LineHead(line).value.key == "mcr"
    requires McrName(line, LineHead(line).value).Some?
    ensures var name := McrName(line, LineHead(line).value).value;
      ExpandLine(st, line) == Some(Expander(true, st.bodies[name := []], name, st.out))
  {
  }

  /**
   * A call: a line whose word names a defined macro is replaced by the
   * macro's list, head first, and the rest of the line (its label
   * included) is dropped. The written lines are not scanned again.
   */
  lemma CallStep(st: Expander, line: string)
    requires !st.inMcr && LineHead(line).Some? && LineHead(line).value.key in st.bodies
    ensures ExpandLine(st, line) == Some(st.(out := st.out + st.bodies[LineHead(line).value.key]))
  {
  }

  /** A line outside a definition that is neither a call nor `mcr` is copied as it is. */
  predicate Plain(bodies: map<string, seq<string>>, line: string) {
    LineHead(line).Some? && LineHead(line).value.key !in bodies && LineHead(line).value.key != "mcr"
  }

  lemma PlainStep(st: Expander, line: string)
    requires !st.inMcr && Plain(st.bodies, line)
    ensures ExpandLine(st, line) == Some(st.(out := st.out + [line]))
  {
  }

  /** The loop over lines + [line] is the loop over lines, then one more line. */
  lemma RunSnoc(st: Expander, lines: seq<string>, line: string)
    requires Ready(st)
    ensures Run(st, lines + [line]) == match Run(st, lines) case None => None case Some(s) => ExpandLine(s, line)
  {
    assert (lines + [line])[..|lines|] == lines;
  }

  // ---------------------------------------------------------------------
  // What the expansion promises
  // ---------------------------------------------------------------------

  /** Running over a + b is running over a, then over b. */
  lemma {:induction false} RunAppend(st: Expander, a: seq<string>, b: seq<string>)
    requires Ready(st)
    ensures Run(st, a + b) == match Run(st, a) case None => None case Some(s) => Run(s, b)
    decreases |b|
  {
    if b == [] {
      assert a + b == a;
    } else {
      var b', x := b[..|b| - 1], b[|b| - 1];
      assert b == b' + [x];
      assert a + b == (a + b') + [x];
      RunAppend(st, a, b');
      RunSnoc(st, a + b', x);
      match Run(st, a)
      case None =>
      case Some(s) => RunSnoc(s, b', x);
    }
  }

  /** A line that gives a word other than `endmcr`. */
  predicate BodyLine(line: string) {
    LineHead(line).Some? && LineHead(line).value.key != "endmcr"
  }

  /** Every one of lines is a BodyLine. */
  predicate BodyLines(lines: seq<string>) {
    lines == [] || (BodyLines(lines[..|lines| - 1]) && BodyLine(lines[|lines| - 1]))
  }

  /** The state after body has been pushed onto the current list. */
  function Stored(st: Expander, body: seq<string>): (r: Expander)
    requires Ready(st)
    ensures Ready(r) && r.inMcr == st.inMcr && r.current == st.current && r.out == st.out
    ensures r.bodies.Keys == st.bodies.Keys
  {
    if st.inMcr then
      st.(bodies := st.bodies[st.current := Lists.Reverse(Mapped(TrimmedLeft, body)) + st.bodies[st.current]])
    else st
  }

  /** One more body line is one more push. */
  lemma StoredSnoc(st: Expander, body: seq<string>)
    requires st.inMcr && Ready(st) && body != [] && BodyLine(body[|body| - 1])
    ensures ExpandLine(Stored(st, body[..|body| - 1]), body[|body| - 1]) == Some(Stored(st, body))
  {
    var front, last := body[..|body| - 1], body[|body| - 1];
    BodyStep(Stored(st, front), last);
    LastSplit(body);
    PushedLine(st.bodies, st.current, front, last);
  }

  /** Pushing the left-trimmed line onto the list of front, reversed, gives the list of front + [last]. */
  lemma PushedLine(bodies: map<string, seq<string>>, name: string, front: seq<string>, last: string)
    requires name in bodies
    ensures var stored := bodies[name := Lists.Reverse(Mapped(TrimmedLeft, front)) + bodies[name]];
      stored[name := [TrimmedLeft(last)] + stored[name]] ==
      bodies[name := Lists.Reverse(Mapped(TrimmedLeft, front + [last])) + bodies[name]]
  {
    MappedSnoc(TrimmedLeft, front, last);
    Lists.ReverseSnoc(Mapped(TrimmedLeft, front), TrimmedLeft(last));
    var r, b := Lists.Reverse(Mapped(TrimmedLeft, front)), bodies[name];
    assert [TrimmedLeft(last)] + (r + b) == ([TrimmedLeft(last)] + r) + b;
  }

  /** Nothing stored leaves the state as it was. */
  lemma StoredNothing(st: Expander)
    requires Ready(st)
    ensures Stored(st, []) == st
  {
    if st.inMcr {
      assert Lists.Reverse(Mapped(TrimmedLeft, [])) + st.bodies[st.current] == st.bodies[st.current];
      assert st.bodies[st.current := st.bodies[st.current]] == st.bodies;
    }
  }

  /** Lines stored on a new, empty list are that list, in reverse. */
  lemma StoredFresh(bodies: map<string, seq<string>>, name: string, out: seq<string>, body: seq<string>)
    ensures Stored(Expander(true, bodies[name := []], name, out), body) ==
      Expander(true, bodies[name := Lists.Reverse(Mapped(TrimmedLeft, body))], name, out)
  {
    assert Lists.Reverse(Mapped(TrimmedLeft, body)) + [] == Lists.Reverse(Mapped(TrimmedLeft, body));
    assert bodies[name := []][name := Lists.Reverse(Mapped(TrimmedLeft, body))] == bodies[name := Lists.Reverse(Mapped(TrimmedLeft, body))];
  }

  /**
   * Inside a definition every line before `endmcr` is pushed, left-trimmed,
   * onto the macro's list, and nothing is written: the list then holds the
   * lines in reverse order.
   */
  lemma {:induction false} BodyStored(st: Expander, body: seq<string>)
    requires st.inMcr && Ready(st) && BodyLines(body)
    ensures Run(st, body) == Some(Stored(st, body))
    decreases |body|
  {
    if body == [] {
      StoredNothing(st);
    } else {
      BodyStored(st, body[..|body| - 1]);
      StoredSnoc(st, body);
    }
  }

  /**
   * A whole definition: the `mcr` line, the body and the `endmcr` line
   * write nothing and leave the name mapped to the body, left-trimmed and
   * reversed.
   */
  lemma Definition(st: Expander, open: string, body: seq<string>, close: string)
    requires !st.inMcr
    requires LineHead(open).Some? && LineHead(open).value.key !in st.bodies && LineHead(open).value.key == "mcr"
    requires McrName(open, LineHead(open).value).Some?
    requires BodyLines(body)
    requires LineHead(close).Some? && LineHead(close).value.key == "endmcr"
    ensures var name := McrName(open, LineHead(open).value).value;
      Run(st, [open] + body + [close]) ==
        Some(Expander(false, st.bodies[name := Lists.Reverse(Mapped(TrimmedLeft, body))], name, st.out))
  {
    var name := McrName(open, LineHead(open).value).value;
    var s1 := Expander(true, st.bodies[name := []], name, st.out);
    var s2 := Stored(s1, body);
    assert Run(st, [open]) == Some(s1) by {
      RunSnoc(st, [], open);
      assert [] + [open] == [open];
      OpenStep(st, open);
    }
    assert Run(st, [open] + body) == Some(s2) by {
      RunAppend(st, [open], body);
      BodyStored(s1, body);
    }
    assert Run(st, [open] + body + [close]) == Some(s2.(inMcr := false)) by {
      RunSnoc(st, [open] + body, close);
      EndStep(s2, close);
    }
    StoredFresh(st.bodies, name, st.out, body);
  }

  /** Defining a macro and then calling it writes the definition's lines, left-trimmed, last one first. */
  lemma DefineThenCall(st: Expander, open: string, body: seq<string>, close: string, call: string)
    requires !st.inMcr
    requires LineHead(open).Some? && LineHead(open).value.key !in st.bodies && LineHead(open).value.key == "mcr"
    requires McrName(open, LineHead(open).value).Some?
    requires BodyLines(body)
    requires LineHead(close).Some? && LineHead(close).value.key == "endmcr"
    requires LineHead(call).Some? && LineHead(call).value.key == McrName(open, LineHead(open).value).value
    ensures Run(st, [open] + body + [close, call]).Some?
    ensures Run(st, [open] + body + [close, call]).value.out == st.out + Lists.Reverse(Mapped(TrimmedLeft, body))
  {
    var name := McrName(open, LineHead(open).value).value;
    Definition(st, open, body, close);
    assert [open] + body + [close, call] == ([open] + body + [close]) + [call];
    RunSnoc(st, [open] + body + [close], call);
    var s := Expander(false, st.bodies[name := Lists.Reverse(Mapped(TrimmedLeft, body))], name, st.out);
    CallStep(s, call);
  }

  /** Every one of lines is Plain when nothing is defined. */
  predicate PlainLines(lines: seq<string>) {
    lines == [] || (PlainLines(lines[..|lines| - 1]) && Plain(map[], lines[|lines| - 1]))
  }

  /** Without definitions a plain last line is appended to what was written. */
  lemma PlainRun(lines: seq<string>)
    requires lines != [] && Plain(map[], lines[|lines| - 1])
    requires Run(Init, lines[..|lines| - 1]) == Some(Init.(out := lines[..|lines| - 1]))
    ensures Run(Init, lines) == Some(Init.(out := lines))
  {
    var front, last := lines[..|lines| - 1], lines[|lines| - 1];
    PlainStep(Init.(out := front), last);
    LastSplit(lines);
  }

  /** A non-empty sequence is its front and its last element. */
  lemma LastSplit<T>(xs: seq<T>)
    requires xs != []
    ensures xs[..|xs| - 1] + [xs[|xs| - 1]] == xs
  {
  }

  /** Without definitions the expansion copies every line. */
  lemma {:induction false} NoMacrosCopied(lines: seq<string>)
    requires PlainLines(lines)
    ensures Expansion(lines) == Some(Init.(out := lines))
    decreases |lines|
  {
    if lines != [] {
      NoMacrosCopied(lines[..|lines| - 1]);
      PlainRun(lines);
    }
  }

  /** strtok resuming at p skips to q and stops at e. */
  lemma WordAt(line: string, p: nat, q: nat, e: nat)
    requires p <= |line| && Parse.SkipDelims(line, p, " ") == q && Parse.WordEnd(line, q, " ") == e && q < e
    ensures Parse.NextWord(line, p, " ") == Some(Parse.Word(line[q..e], if e < |line| then e + 1 else e))
  {
  }

  lemma McrWord()
    ensures Parse.NextWord("mcr abcdef\n", 0, " ") == Some(Parse.Word("mcr", 4))
  {
    assert Parse.SkipDelims("mcr abcdef\n", 0, " ") == 0;
    assert Parse.WordEnd("mcr abcdef\n", 0, " ") == 3;
    WordAt("mcr abcdef\n", 0, 0, 3);
    assert "mcr abcdef\n"[0..3] == "mcr";
  }

  lemma McrNameWord()
    ensures Parse.NextWord("mcr abcdef\n", 4, " ") == Some(Parse.Word("abcdef\n", 11))
  {
    assert Parse.SkipDelims("mcr abcdef\n", 4, " ") == 4;
    assert Parse.WordEnd("mcr abcdef\n", 4, " ") == 11;
    WordAt("mcr abcdef\n", 4, 4, 11);
    assert "mcr abcdef\n"[4..11] == "abcdef\n";
  }

  lemma LabelWord()
    ensures Parse.NextWord("L: mcr abcdef\n", 0, " ") == Some(Parse.Word("L:", 3))
  {
    assert Parse.SkipDelims("L: mcr abcdef\n", 0, " ") == 0;
    assert Parse.WordEnd("L: mcr abcdef\n", 0, " ") == 2;
    WordAt("L: mcr abcdef\n", 0, 0, 2);
    assert "L: mcr abcdef\n"[0..2] == "L:";
  }

  lemma LabelledMcrWord()
    ensures Parse.NextWord("L: mcr abcdef\n", 3, " ") == Some(Parse.Word("mcr", 7))
  {
    assert Parse.SkipDelims("L: mcr abcdef\n", 3, " ") == 3;
    assert Parse.WordEnd("L: mcr abcdef\n", 3, " ") == 6;
    WordAt("L: mcr abcdef\n", 3, 3, 6);
    assert "L: mcr abcdef\n"[3..6] == "mcr";
  }

  lemma LabelledNameWord()
    ensures Parse.NextWord("L: mcr abcdef\n", 7, " ") == Some(Parse.Word("abcdef\n", 14))
  {
    assert Parse.SkipDelims("L: mcr abcdef\n", 7, " ") == 7;
    assert Parse.WordEnd("L: mcr abcdef\n", 7, " ") == 14;
    WordAt("L: mcr abcdef\n", 7, 7, 14);
    assert "L: mcr abcdef\n"[7..14] == "abcdef\n";
  }

  /** A first word not ending in ':' is the key. */
  lemma Unlabelled(line: string, first: Parse.Word)
    requires Parse.NextWord(line, 0, " ") == Some(first) && first.text[|first.text| - 1] != ':'
    ensures LineHead(line) == Some(Head(Trimmed(first.text), |first.text|, first.rest))
  {
  }

  /** After a first word ending in ':' the key is the second word. */
  lemma LabelSkipped(line: string, first: Parse.Word, second: Parse.Word)
    requires Parse.NextWord(line, 0, " ") == Some(first) && first.text[|first.text| - 1] == ':'
    requires first.rest <= |line| && Parse.NextWord(line, first.rest, " ") == Some(second)
    ensures LineHead(line) == Some(Head(Trimmed(second.text), |first.text|, second.rest))
  {
  }

  /** `mcr` is the key of a line that starts with it. */
  lemma McrHead()
    ensures LineHead("mcr abcdef\n") == Some(Head("mcr", 3, 4))
  {
    McrWord();
    assert "mcr"[2] == 'r';
    Unlabelled("mcr abcdef\n", Parse.Word("mcr", 4));
    assert Trimmed("mcr") == "mcr";
  }

  /** The label is skipped, and token_len is the label's length. */
  lemma LabelledMcrHead()
    ensures LineHead("L: mcr abcdef\n") == Some(Head("mcr", 2, 7))
  {
    LabelWord();
    LabelledMcrWord();
    assert "L:"[1] == ':';
    LabelSkipped("L: mcr abcdef\n", Parse.Word("L:", 3), Parse.Word("mcr", 7));
    assert Trimmed("mcr") == "mcr";
  }

  /** After `mcr` (3 characters) only the first three characters of the name are the key. */
  lemma NameCut()
    ensures McrName("mcr abcdef\n", Head("mcr", 3, 4)) == Some("abc")
  {
    McrNameWord();
    assert TrimmedRight("abcdef\n", 3) == "abc";
  }

  /** After a 2-character label only the first two characters of the name are the key. */
  lemma LabelledNameCut()
    ensures McrName("L: mcr abcdef\n", Head("mcr", 2, 7)) == Some("ab")
  {
    LabelledNameWord();
    assert TrimmedRight("abcdef\n", 2) == "ab";
  }
}
