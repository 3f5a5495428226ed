/**
 * The SCSS printer: an append-only buffer of string fragments and an
 * indentation level, driven by the `generate` routine registered for each
 * node type.
 *
 * `Step` and `Exec` are the specification: what one printer call, and a run
 * of calls, does to the state (the fragments and the level) and whether it
 * throws. The class `Printer` is the object `createPrinter` returns; each of
 * its methods is proved to do what `Step` says, and `Print` runs a node's
 * generator through those methods and is proved to do what `Exec` says.
 *
 * A generator is abstract here: it maps the node and its parent to the
 * sequence of printer calls it makes.
 */
module Printer {
  import opened Wrappers
  import opened JsValue

  /** One call a generator makes on the printer; `None` is an omitted argument. */
  datatype Op =
    | Append(text: string)
    | Token(characters: Option<string>)
    | Space
    | Newline
    | MaybeNewline
    | BlockStart(open: Option<string>)
    | BlockEnd(close: Option<string>)

  /** A node type's `generate`: the printer calls it makes for `(node, parent)`. */
  type Generator = (Value, Value) -> seq<Op>

  /** The printer's state: the fragments pushed so far and the indentation level. */
  datatype State = State(buffer: seq<string>, indent: int)

  /** The state after a call, and whether the call returned or threw. */
  datatype Stepped = Stepped(state: State, outcome: Outcome)

  /** `'  '.repeat(level)`: two spaces per level. */
  function Pad(level: nat): (p: string)
    ensures |p| == 2 * level
    ensures forall i :: 0 <= i < |p| ==> p[i] == ' '
  {
    if level == 0 then "" else Pad(level - 1) + "  "
  }

  /** The `RangeError` that `'  '.repeat(level)` throws for a negative level. */
  function RepeatError(level: int): Error
  {
    Error(RangeError, "Invalid count value: " + ToText(Num(level)))
  }

  /** `newline()` at a level: a line break, then the padding, which throws first when the level is negative. */
  function LineBreak(st: State): Stepped
  {
    if st.indent >= 0 then Stepped(State(st.buffer + ["\n", Pad(st.indent)], st.indent), Pass)
    else Stepped(State(st.buffer + ["\n"], st.indent), Fail(RepeatError(st.indent)))
  }

  /** Whether the last fragment is exactly a line break (an empty buffer has none). */
  predicate EndsWithLineBreak(buffer: seq<string>)
  {
    |buffer| > 0 && buffer[|buffer| - 1] == "\n"
  }

  /** What one printer call does. */
  function Step(st: State, op: Op): (r: Stepped)
    ensures st.buffer <= r.state.buffer
    ensures r.outcome.Pass? ==> r.state.indent == st.indent + Delta(op)
    ensures r.outcome.Fail? ==> r.outcome.error.kind == RangeError
    ensures st.indent >= 0 ==> (r.outcome.Fail? <==> op.BlockEnd? && st.indent == 0)
  {
    match op
    case Append(text) => Stepped(State(st.buffer + [text], st.indent), Pass)
    case Token(c) => Stepped(State(st.buffer + [c.GetOr("")], st.indent), Pass)
    case Space => Stepped(State(st.buffer + [" "], st.indent), Pass)
    case Newline => LineBreak(st)
    case MaybeNewline => if EndsWithLineBreak(st.buffer) then Stepped(st, Pass) else LineBreak(st)
    case BlockStart(c) => LineBreak(State(st.buffer + [c.GetOr("{")], st.indent + 1))
    case BlockEnd(c) =>
      var broken := LineBreak(State(st.buffer, st.indent - 1));
      if broken.outcome.Fail? then broken
      else Stepped(State(broken.state.buffer + [c.GetOr("}")], broken.state.indent), Pass)
  }

  /** A run of calls: each in turn, stopping at the first that throws. */
  function Exec(st: State, ops: seq<Op>): (r: Stepped)
    ensures r.outcome.Fail? ==> r.outcome.error.kind == RangeError
    decreases |ops|
  {
    if ops == [] then Stepped(st, Pass)
    else
      var first := Step(st, ops[0]);
      if first.outcome.Fail? then first else Exec(first.state, ops[1..])
  }

  /** The joined text of the fragments, `buffer.join('')`. */
  function Concat(buffer: seq<string>): string
  {
    if buffer == [] then "" else Concat(buffer[..|buffer| - 1]) + buffer[|buffer| - 1]
  }

  /** How a call moves the indentation level. */
  function Delta(op: Op): int
  {
    match op
    case BlockStart(_) => 1
    case BlockEnd(_) => -1
    case _ => 0
  }

  /** Opened blocks minus closed blocks. */
  function Net(ops: seq<Op>): int
  {
    if ops == [] then 0 else Delta(ops[0]) + Net(ops[1..])
  }

  /** No `blockEnd` is reached at level 0 or below, starting from `level`. */
  predicate NeverUnderflows(level: int, ops: seq<Op>)
  {
    forall k :: 0 <= k < |ops| && ops[k].BlockEnd? ==> level + Net(ops[..k]) >= 1
  }

  /** `print(node, parent)`: the generator registered for `node.type`, run on the printer. */
  function PrintSpec(definitions: map<string, Generator>, st: State, node: Value, parent: Value): (r: Stepped)
    ensures r.outcome.Fail? && r.outcome.error.kind != RangeError ==>
      r.outcome.error.kind == TypeError && r.state == st
  {
    match ReadType(node)
    case Err(e) => Stepped(st, Fail(e))
    case Ok(tag) =>
      var key := ToText(tag);
      if key !in definitions then
        Stepped(st, Fail(Error(TypeError, "Cannot read properties of undefined (reading 'generate')")))
      else Exec(st, definitions[key](node, parent))
  }

  class Printer {
    var buffer: seq<string>
    var indentLevel: int
    const definitions: map<string, Generator>

    function Snapshot(): State
      reads this
    {
      State(buffer, indentLevel)
    }

    /** The raw text `get` hands to the formatter. */
    function Text(): (t: string)
      reads this
      ensures t == "" <==> forall i :: 0 <= i < |buffer| ==> buffer[i] == ""
    {
      ConcatEmptyIff(buffer);
      Concat(buffer)
    }

    /** `createPrinter(definitions)`: an empty buffer at level 0. */
    constructor(definitions: map<string, Generator>)
      ensures buffer == [] && indentLevel == 0
      ensures this.definitions == definitions
    {
      buffer := [];
      indentLevel := 0;
      this.definitions := definitions;
    }

    /** `append(string)`: push the string as one fragment. */
    method Append(text: string)
      modifies this
      ensures buffer == old(buffer) + [text]
      ensures indentLevel == old(indentLevel)
    {
      buffer := buffer + [text];
    }

    /** `token(characters)`: push the characters, or `''` when omitted, and return the new fragment count. */
    method Token(characters: Option<string>) returns (count: nat)
      modifies this
      ensures buffer == old(buffer) + [characters.GetOr("")]
      ensures indentLevel == old(indentLevel)
      ensures count == |buffer|
    {
      buffer := buffer + [characters.GetOr("")];
      count := |buffer|;
    }

    /** `space()`: push one space. */
    method Space()
      modifies this
      ensures buffer == old(buffer) + [" "]
      ensures indentLevel == old(indentLevel)
    {
      buffer := buffer + [" "];
    }

    /**
     * `newline()`: push a line break, then the padding for the current
     * level; at a negative level the padding throws a `RangeError` after the
     * line break is already pushed.
     */
    method Newline() returns (r: Outcome)
      modifies this
      ensures indentLevel == old(indentLevel)
      ensures old(indentLevel) >= 0 ==> r == Pass && buffer == old(buffer) + ["\n", Pad(old(indentLevel))]
      ensures old(indentLevel) < 0 ==> r == Fail(RepeatError(old(indentLevel))) && buffer == old(buffer) + ["\n"]
    {
      buffer := buffer + ["\n"];
      if indentLevel < 0 {
        return Fail(RepeatError(indentLevel));
      }
      buffer := buffer + [Pad(indentLevel)];
      r := Pass;
    }

    /** `maybeNewline()`: a `newline()` unless the last fragment is exactly a line break. */
    method MaybeNewline() returns (r: Outcome)
      modifies this
      ensures EndsWithLineBreak(old(buffer)) ==> r == Pass && buffer == old(buffer) && indentLevel == old(indentLevel)
      ensures !EndsWithLineBreak(old(buffer)) ==> Snapshot() == LineBreak(old(Snapshot())).state && r == LineBreak(old(Snapshot())).outcome
    {
      if |buffer| == 0 || buffer[|buffer| - 1] != "\n" {
        r := Newline();
      } else {
        r := Pass;
      }
    }

    /** `blockStart(character = '{')`: the opening token, one level deeper, then a new line. */
    method BlockStart(character: Option<string>) returns (r: Outcome)
      modifies this
      ensures indentLevel == old(indentLevel) + 1
      ensures var c := character.GetOr("{");
        Snapshot() == LineBreak(State(old(buffer) + [c], old(indentLevel) + 1)).state &&
        r == LineBreak(State(old(buffer) + [c], old(indentLevel) + 1)).outcome
    {
      var _ := Token(Some(character.GetOr("{")));
      indentLevel := indentLevel + 1;
      r := Newline();
    }

    /**
     * `blockEnd(character = '}')`: one level shallower, a new line, then the
     * closing token; when the new line throws, the token is not pushed.
     */
    method BlockEnd(character: Option<string>) returns (r: Outcome)
      modifies this
      ensures indentLevel == old(indentLevel) - 1
      ensures old(indentLevel) >= 1 ==>
        r == Pass && buffer == old(buffer) + ["\n", Pad(old(indentLevel) - 1), character.GetOr("}")]
      ensures old(indentLevel) < 1 ==>
        r == Fail(RepeatError(old(indentLevel) - 1)) && buffer == old(buffer) + ["\n"]
    {
      indentLevel := indentLevel - 1;
      r := Newline();
      if r.Fail? {
        return;
      }
      var _ := Token(Some(character.GetOr("}")));
    }

    /** One generator call, dispatched to the method that makes it. */
    method Perform(op: Op) returns (r: Outcome)
      modifies this
      ensures Snapshot() == Step(old(Snapshot()), op).state
      ensures r == Step(old(Snapshot()), op).outcome
    {
      match op
      case Append(text) =>
        Append(text);
        r := Pass;
      case Token(c) =>
        var _ := Token(c);
        r := Pass;
      case Space =>
        Space();
        r := Pass;
      case Newline =>
        r := Newline();
      case MaybeNewline =>
        r := MaybeNewline();
      case BlockStart(c) =>
        r := BlockStart(c);
      case BlockEnd(c) =>
        r := BlockEnd(c);
    }

    /**
     * `print(node, parent)`: look up the definition for `node.type` and run
     * its generator's calls on this printer, stopping at the first that
     * throws. Reading the type of an undefined node, or a type with no
     * definition, throws a `TypeError` before anything is printed.
     */
    method Print(node: Value, parent: Value) returns (r: Outcome)
      modifies this
      ensures Snapshot() == PrintSpec(definitions, old(Snapshot()), node, parent).state
      ensures r == PrintSpec(definitions, old(Snapshot()), node, parent).outcome
    {
      var tag := ReadType(node);
      if tag.Err? {
        return Fail(tag.error);
      }
      var key := ToText(tag.value);
      if key !in definitions {
        return Fail(Error(TypeError, "Cannot read properties of undefined (reading 'generate')"));
      }
      var ops := definitions[key](node, parent);
      ghost var start := Snapshot();
      for i := 0 to |ops|
        invariant Exec(start, ops[..i]) == Stepped(Snapshot(), Pass)
      {
        ExecPrefixStep(start, ops, i);
        r := Perform(ops[i]);
        if r.Fail? {
          ExecStopsAt(start, ops, i + 1);
          return;
        }
      }
      assert ops[..|ops|] == ops;
      r := Pass;
    }
  }

  /** A run split in two: the second part runs from where the first left off, unless the first threw. */
  lemma {:induction false} ExecConcat(st: State, a: seq<Op>, b: seq<Op>)
    ensures Exec(st, a + b) ==
      (var first := Exec(st, a); if first.outcome.Fail? then first else Exec(first.state, b))
    decreases a
  {
    if a == [] {
      assert a + b == b;
    } else {
      assert (a + b)[0] == a[0];
      assert (a + b)[1..] == a[1..] + b;
      var s1 := Step(st, a[0]);
      if s1.outcome.Pass? {
        ExecConcat(s1.state, a[1..], b);
      }
    }
  }

  /** The buffer only grows, even when a call throws part-way. */
  lemma {:induction false} ExecExtends(st: State, ops: seq<Op>)
    ensures st.buffer <= Exec(st, ops).state.buffer
    decreases ops
  {
    if ops != [] {
      var first := Step(st, ops[0]);
      if first.outcome.Pass? {
        ExecExtends(first.state, ops[1..]);
      }
    }
  }

  /** A run that returns leaves the level moved by the blocks opened minus the blocks closed. */
  lemma {:induction false} ExecIndent(st: State, ops: seq<Op>)
    requires Exec(st, ops).outcome.Pass?
    ensures Exec(st, ops).state.indent == st.indent + Net(ops)
    decreases ops
  {
    if ops != [] {
      ExecIndent(Step(st, ops[0]).state, ops[1..]);
    }
  }

  lemma {:induction false} NeverUnderflowsCons(level: int, ops: seq<Op>)
    requires ops != []
    ensures NeverUnderflows(level, ops) <==>
      (ops[0].BlockEnd? ==> level >= 1) && NeverUnderflows(level + Delta(ops[0]), ops[1..])
  {
    var rest := ops[1..];
    forall k | 0 <= k < |rest|
      ensures Net(ops[..k + 1]) == Delta(ops[0]) + Net(rest[..k])
    {
      assert ops[..k + 1][0] == ops[0];
      assert ops[..k + 1][1..] == rest[..k];
    }
    assert Net(ops[..0]) == 0 by { assert ops[..0] == []; }
    if NeverUnderflows(level, ops) {
      forall k | 0 <= k < |rest| && rest[k].BlockEnd?
        ensures level + Delta(ops[0]) + Net(rest[..k]) >= 1
      {
        assert ops[k + 1] == rest[k];
      }
    }
    if (ops[0].BlockEnd? ==> level >= 1) && NeverUnderflows(level + Delta(ops[0]), rest) {
      forall k | 0 <= k < |ops| && ops[k].BlockEnd?
        ensures level + Net(ops[..k]) >= 1
      {
        if k > 0 {
          assert rest[k - 1] == ops[k];
        }
      }
    }
  }

  /**
   * From a non-negative level a run throws exactly when some `blockEnd` is
   * reached at level 0: no other call can throw.
   */
  lemma {:induction false} ExecPassIff(st: State, ops: seq<Op>)
    requires st.indent >= 0
    ensures Exec(st, ops).outcome.Pass? <==> NeverUnderflows(st.indent, ops)
    decreases ops
  {
    if ops != [] {
      NeverUnderflowsCons(st.indent, ops);
      var first := Step(st, ops[0]);
      if first.outcome.Pass? {
        assert first.state.indent == st.indent + Delta(ops[0]);
        ExecPassIff(first.state, ops[1..]);
      }
    }
  }

  /** The padding is spaces only, so it is never a bare line break. */
  lemma PadIsNotLineBreak(level: nat)
    ensures Pad(level) != "\n"
  {
    if |Pad(level)| == 1 {
      assert Pad(level)[0] == ' ';
    }
  }

  /** The run of the first `i + 1` calls is the run of the first `i`, then call `i` unless that run threw. */
  lemma ExecPrefixStep(st: State, ops: seq<Op>, i: nat)
    requires i < |ops|
    ensures var first := Exec(st, ops[..i]);
      Exec(st, ops[..i + 1]) == if first.outcome.Fail? then first else Step(first.state, ops[i])
  {
    ExecConcat(st, ops[..i], [ops[i]]);
    assert ops[..i] + [ops[i]] == ops[..i + 1];
  }

  /** A run whose first `i` calls threw is that run: the remaining calls are never made. */
  lemma ExecStopsAt(st: State, ops: seq<Op>, i: nat)
    requires i <= |ops|
    requires Exec(st, ops[..i]).outcome.Fail?
    ensures Exec(st, ops) == Exec(st, ops[..i])
  {
    ExecConcat(st, ops[..i], ops[i..]);
    assert ops[..i] + ops[i..] == ops;
  }

  /** The joined text is empty exactly when every fragment is empty. */
  lemma {:induction false} ConcatEmptyIff(buffer: seq<string>)
    ensures Concat(buffer) == "" <==> forall i :: 0 <= i < |buffer| ==> buffer[i] == ""
  {
    if buffer != [] {
      var init := buffer[..|buffer| - 1];
      ConcatEmptyIff(init);
      forall i | 0 <= i < |init|
        ensures init[i] == buffer[i]
      {
      }
    }
  }

  /** Joining distributes over concatenation of fragment lists. */
  lemma {:induction false} ConcatAppend(a: seq<string>, b: seq<string>)
    ensures Concat(a + b) == Concat(a) + Concat(b)
  {
    if b == [] {
      assert a + b == a;
    } else {
      var b', last := b[..|b| - 1], b[|b| - 1];
      assert b' + [last] == b;
      assert (a + b') + [last] == a + b;
      ConcatAppend(a, b');
      ConcatSnoc(a + b', last);
      ConcatSnoc(b', last);
    }
  }

  /**
   * An empty block at level `l`: the opening token, a line padded one level
   * deeper, a line padded back at `l`, the closing token, and the level
   * restored. At level 0 the text is "{\n  \n}".
   */
  lemma {:induction false} EmptyBlockRoundTrip(buffer: seq<string>, l: nat)
    ensures var after := Exec(State(buffer, l), [BlockStart(None), BlockEnd(None)]);
      after == Stepped(State(buffer + ["{", "\n", Pad(l + 1), "\n", Pad(l), "}"], l), Pass) &&
      Concat(after.state.buffer) == Concat(buffer) + "{\n" + Pad(l + 1) + "\n" + Pad(l) + "}"
  {
    var st := State(buffer, l);
    var mid := Step(st, BlockStart(None));
    assert mid == Stepped(State(buffer + ["{", "\n", Pad(l + 1)], l + 1), Pass);
    var fragments := ["{", "\n", Pad(l + 1), "\n", Pad(l), "}"];
    assert Step(mid.state, BlockEnd(None)) == Stepped(State(buffer + fragments, l), Pass) by {
      assert buffer + ["{", "\n", Pad(l + 1)] + ["\n", Pad(l)] + ["}"] == buffer + fragments;
    }
    ExecPair(st, BlockStart(None), BlockEnd(None));
    BlockText(l);
    ConcatAppend(buffer, fragments);
  }

  /** The text of an empty block's fragments. */
  lemma {:induction false} BlockText(l: nat)
    ensures Concat(["{", "\n", Pad(l + 1), "\n", Pad(l), "}"]) == "{\n" + Pad(l + 1) + "\n" + Pad(l) + "}"
  {
    assert [] + ["{"] == ["{"];
    assert ["{"] + ["\n"] == ["{", "\n"];
    assert ["{", "\n"] + [Pad(l + 1)] == ["{", "\n", Pad(l + 1)];
    assert ["{", "\n", Pad(l + 1)] + ["\n"] == ["{", "\n", Pad(l + 1), "\n"];
    assert ["{", "\n", Pad(l + 1), "\n"] + [Pad(l)] == ["{", "\n", Pad(l + 1), "\n", Pad(l)];
    assert ["{", "\n", Pad(l + 1), "\n", Pad(l)] + ["}"] == ["{", "\n", Pad(l + 1), "\n", Pad(l), "}"];
    ConcatSnoc([], "{");
    ConcatSnoc(["{"], "\n");
    ConcatSnoc(["{", "\n"], Pad(l + 1));
    ConcatSnoc(["{", "\n", Pad(l + 1)], "\n");
    ConcatSnoc(["{", "\n", Pad(l + 1), "\n"], Pad(l));
    ConcatSnoc(["{", "\n", Pad(l + 1), "\n", Pad(l)], "}");
  }

  /** Two calls in a row: the second runs unless the first threw. */
  lemma {:induction false} ExecPair(st: State, a: Op, b: Op)
    ensures Exec(st, [a, b]) ==
      (var first := Step(st, a); if first.outcome.Fail? then first else Step(first.state, b))
  {
    var ops := [a, b];
    var first := Step(st, a);
    assert ops[0] == a && ops[1..] == [b];
    if first.outcome.Pass? {
      var second := Step(first.state, b);
      assert [b][0] == b && [b][1..] == [];
      assert Exec(first.state, [b]) == (if second.outcome.Fail? then second else Exec(second.state, []));
    }
  }

  lemma {:induction false} ConcatSnoc(buffer: seq<string>, x: string)
    ensures Concat(buffer + [x]) == Concat(buffer) + x
  {
    assert (buffer + [x])[..|buffer|] == buffer;
  }

  /**
   * `maybeNewline()` right after `newline()` still breaks the line: the last
   * fragment is then the padding, not the line break.
   */
  lemma {:induction false} MaybeNewlineAfterNewline(buffer: seq<string>, l: nat)
    ensures Exec(State(buffer, l), [Newline, MaybeNewline]) ==
      Stepped(State(buffer + ["\n", Pad(l), "\n", Pad(l)], l), Pass)
  {
    PadIsNotLineBreak(l);
    var st := State(buffer, l);
    var mid := Step(st, Newline);
    assert mid == Stepped(State(buffer + ["\n", Pad(l)], l), Pass);
    assert Step(mid.state, MaybeNewline) == Stepped(State(buffer + ["\n", Pad(l), "\n", Pad(l)], l), Pass) by {
      assert buffer + ["\n", Pad(l)] + ["\n", Pad(l)] == buffer + ["\n", Pad(l), "\n", Pad(l)];
    }
    ExecPair(st, Newline, MaybeNewline);
  }

  /** `maybeNewline()` after a fragment that is exactly a line break changes nothing. */
  lemma MaybeNewlineAfterLineBreak(st: State)
    requires EndsWithLineBreak(st.buffer)
    ensures Step(st, MaybeNewline) == Stepped(st, Pass)
  {
  }

  /** A token with its argument omitted pushes an empty fragment, so the text is unchanged. */
  lemma {:induction false} OmittedTokenAddsNoText(st: State)
    ensures Step(st, Token(None)).state.buffer == st.buffer + [""]
    ensures Concat(Step(st, Token(None)).state.buffer) == Concat(st.buffer)
  {
    assert (st.buffer + [""])[..|st.buffer|] == st.buffer;
  }

  /**
   * Appending a rule and asking twice for a conditional line break gives two
   * line breaks, each followed by empty padding.
   */
  lemma {:induction false} RepeatedMaybeNewline()
    ensures Exec(State([], 0), [Append(".btn {}"), MaybeNewline, MaybeNewline]).state.buffer ==
      [".btn {}", "\n", "", "\n", ""]
  {
    var ops := [Append(".btn {}"), MaybeNewline, MaybeNewline];
    assert Pad(0) == "";
    var s1 := Step(State([], 0), ops[0]);
    assert s1 == Stepped(State([".btn {}"], 0), Pass);
    var s2 := Step(s1.state, ops[1]);
    assert s2 == Stepped(State([".btn {}", "\n", ""], 0), Pass);
    var s3 := Step(s2.state, ops[2]);
    assert s3 == Stepped(State([".btn {}", "\n", "", "\n", ""], 0), Pass);
    assert ops[1..] == [ops[1], ops[2]];
    assert ops[1..][1..] == [ops[2]];
    assert ops[1..][1..][1..] == [];
  }

  /** Printing a node whose type has no definition throws a `TypeError` and prints nothing. */
  lemma UnknownTypeThrows(definitions: map<string, Generator>, st: State, n: Node, parent: Value)
    requires n.tag !in definitions
    ensures PrintSpec(definitions, st, AsValue(n), parent) ==
      Stepped(st, Fail(Error(TypeError, "Cannot read properties of undefined (reading 'generate')")))
  {
  }

  /** Printing an undefined node throws the engine's `TypeError` for reading `type`, and prints nothing. */
  lemma UndefinedNodeThrows(definitions: map<string, Generator>, st: State, parent: Value)
    ensures PrintSpec(definitions, st, Undefined, parent) ==
      Stepped(st, Fail(Error(TypeError, "Cannot read properties of undefined (reading 'type')")))
  {
  }

  /** Printing a node of a defined type runs exactly its generator's calls. */
  lemma {:induction false} KnownTypeRunsGenerator(definitions: map<string, Generator>, st: State, n: Node, parent: Value)
    requires n.tag in definitions
    ensures PrintSpec(definitions, st, AsValue(n), parent) == Exec(st, definitions[n.tag](AsValue(n), parent))
  {
    assert ToText(Str(n.tag)) == n.tag;
  }
}
