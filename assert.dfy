/**
 * The validator combinators that field schemas are built from. In the source
 * each combinator returns a closure that throws on failure; here a checker is
 * a `Validator` value, `Check` says what calling it does, and a failure is an
 * `Outcome` carrying the thrown error and its kind (`TypeError` or plain
 * `Error`), which `assertOneOf` distinguishes.
 *
 * `assertType(def)` reads only `def.type`, so its checker here carries that
 * tag alone. Checkers written inline by a caller are `Custom` functions.
 */
module Assert {
  import opened JsValue

  datatype Validator =
    | AnyValue                           // assertAny
    | DefinedNode                        // assertDefined
    | ValueOfType(expected: string)      // assertValueType(expected)
    | NodeOfType(tag: string)            // assertType(definition)
    | OneOf(types: seq<Validator>)       // assertOneOf(types)
    | ArrayOf(check: Validator)          // arrayOf(check)
    | Custom(run: (Value, Value) -> Outcome)

  /** A failure that `assertOneOf` absorbs and records: a thrown `TypeError`. */
  predicate Absorbed(o: Outcome)
  {
    o.Fail? && o.error.kind == TypeError
  }

  /** `assertAny`: a no-op, whatever it is given. */
  function AssertAny(): (r: Outcome)
    ensures r.Pass?
  {
    Pass
  }

  /** `assertDefined(node)`: a plain `Error` exactly when the node is falsy. */
  function AssertDefined(node: Value): (r: Outcome)
    ensures r.Pass? <==> Truthy(node)
    ensures r.Fail? ==> r.error == Error(PlainError, "Expected node to be defined")
  {
    if !Truthy(node) then Fail(Error(PlainError, "Expected node to be defined")) else Pass
  }

  /** `assertValueType(expected)(value)`: a `TypeError` naming both type names unless `typeof value` is `expected`. */
  function AssertValueType(expected: string, value: Value): (r: Outcome)
    ensures r.Pass? <==> TypeOf(value) == expected
    ensures r.Fail? ==>
      r.error == Error(TypeError, "Expected value of type " + expected + ", but got " + TypeOf(value))
  {
    if TypeOf(value) != expected then
      Fail(Error(TypeError, "Expected value of type " + expected + ", but got " + TypeOf(value)))
    else Pass
  }

  /**
   * `assertType(def)(node)`: the node must be defined and carry the tag; a
   * mismatch is a plain `Error` (not a `TypeError`) naming both tags.
   */
  function AssertType(tag: string, node: Value): (r: Outcome)
    ensures r.Pass? <==> Truthy(node) && ReadType(node) == Ok(Str(tag))
    ensures !Truthy(node) ==> r == Fail(Error(PlainError, "Expected node to be defined"))
    ensures Truthy(node) && r.Fail? ==>
      r.error == Error(PlainError, "Expected node to be of type " + tag + ", but got " + ToText(ReadType(node).value))
  {
    var defined := AssertDefined(node);
    if defined.Fail? then defined
    else
      var actual := ReadType(node).value;
      if actual != Str(tag) then
        Fail(Error(PlainError, "Expected node to be of type " + tag + ", but got " + ToText(actual)))
      else Pass
  }

  /** Index of the first outcome that ends `assertOneOf`'s loop (a pass, or an error that is not a `TypeError`), or the length. */
  function Decisive(outs: seq<Outcome>): (k: nat)
    ensures k <= |outs|
    ensures forall j :: 0 <= j < k ==> Absorbed(outs[j])
    ensures k < |outs| ==> !Absorbed(outs[k])
  {
    if |outs| == 0 || !Absorbed(outs[0]) then 0 else 1 + Decisive(outs[1..])
  }

  /** Index of the first failure, or the length. */
  function FirstFailure(outs: seq<Outcome>): (k: nat)
    ensures k <= |outs|
    ensures forall j :: 0 <= j < k ==> outs[j].Pass?
    ensures k < |outs| ==> outs[k].Fail?
  {
    if |outs| == 0 || outs[0].Fail? then 0 else 1 + FirstFailure(outs[1..])
  }

  function Messages(errors: seq<Error>): (ms: seq<string>)
    ensures |ms| == |errors|
    ensures forall i :: 0 <= i < |errors| ==> ms[i] == errors[i].message
  {
    seq(|errors|, i requires 0 <= i < |errors| => errors[i].message)
  }

  /** The errors of outcomes that all failed. */
  function Errors(outs: seq<Outcome>): (es: seq<Error>)
    requires forall i :: 0 <= i < |outs| ==> outs[i].Fail?
    ensures |es| == |outs|
    ensures forall i :: 0 <= i < |outs| ==> es[i] == outs[i].error
  {
    seq(|outs|, i requires 0 <= i < |outs| && outs[i].Fail? => outs[i].error)
  }

  /** The message of the `TypeError` that `assertOneOf` throws when every checker threw one. */
  function OneOfMessage(tag: string, messages: seq<string>): string
  {
    "Expected node to match one of the expected types for " + tag + ".\n\n" + Join(messages, "\n") + "\n"
  }

  /**
   * The error thrown after every checker failed with a `TypeError`: its header
   * reads `node.type`, which itself throws when the node is undefined.
   */
  function Aggregate(errors: seq<Error>, node: Value): (r: Outcome)
    ensures r.Fail? && r.error.kind == TypeError
  {
    match ReadType(node)
    case Err(e) => Fail(e)
    case Ok(t) => Fail(Error(TypeError, OneOfMessage(ToText(t), Messages(errors))))
  }

  /** `assertOneOf`'s decision over the outcomes of its checkers, in order. */
  function OneOfOutcome(outs: seq<Outcome>, node: Value): Outcome
  {
    var k := Decisive(outs);
    if k < |outs| then outs[k] else Aggregate(Errors(outs), node)
  }

  /** The values a `for ... of` loop visits, or the `TypeError` it throws on a non-iterable. */
  function Items(value: Value): (r: Result<seq<Value>>)
    ensures r.Err? <==> !(value.Arr? || value.Str?)
    ensures value.Arr? ==> r == Ok(value.items)
    ensures value.Str? ==> r.Ok? && |r.value| == |value.s|
    ensures value.Str? ==> forall i :: 0 <= i < |value.s| ==> r.value[i] == Str([value.s[i]])
    ensures r.Err? ==> r.error == Error(TypeError, "nodes is not iterable")
  {
    match value
    case Arr(xs) => Ok(xs)
    case Str(s) => Ok(seq(|s|, i requires 0 <= i < |s| => Str([s[i]])))
    case _ => Err(Error(TypeError, "nodes is not iterable"))
  }

  /** The outcome of the checker's element tests, in order: the first failure, or a pass. */
  function ArrayOutcome(outs: seq<Outcome>): Outcome
  {
    var k := FirstFailure(outs);
    if k < |outs| then outs[k] else Pass
  }

  /** The outcomes of `assertOneOf`'s checkers: each is called with the value alone. */
  function OneOfOutcomes(types: seq<Validator>, value: Value): (outs: seq<Outcome>)
    ensures |outs| == |types|
    ensures forall i :: 0 <= i < |types| ==> outs[i] == Check(types[i], value, Undefined)
    decreases OneOf(types), 0
  {
    seq(|types|, i requires 0 <= i < |types| => Check(types[i], value, Undefined))
  }

  /** The outcomes of `arrayOf`'s checker on the elements, each called with the same node. */
  function ArrayOutcomes(check: Validator, items: seq<Value>, node: Value): (outs: seq<Outcome>)
    ensures |outs| == |items|
    ensures forall i :: 0 <= i < |items| ==> outs[i] == Check(check, items[i], node)
    decreases ArrayOf(check), 0
  {
    seq(|items|, i requires 0 <= i < |items| => Check(check, items[i], node))
  }

  /**
   * Calling a checker as a field validator is called: `(value, node)`.
   * Combinators that take one argument ignore the node.
   */
  function Check(v: Validator, value: Value, node: Value): (r: Outcome)
    ensures v.AnyValue? ==> r.Pass?
    ensures (v.DefinedNode? || v.NodeOfType?) && r.Fail? ==> r.error.kind == PlainError
    ensures v.ValueOfType? && r.Fail? ==> r.error.kind == TypeError
    ensures v.ArrayOf? && !(value.Arr? || value.Str?) ==> r == Fail(Error(TypeError, "nodes is not iterable"))
    ensures v.ArrayOf? && (value == Arr([]) || value == Str("")) ==> r.Pass?
    decreases v, 1
  {
    match v
    case AnyValue => AssertAny()
    case DefinedNode => AssertDefined(value)
    case ValueOfType(expected) => AssertValueType(expected, value)
    case NodeOfType(tag) => AssertType(tag, value)
    case OneOf(types) => OneOfOutcome(OneOfOutcomes(types, value), node)
    case ArrayOf(check) =>
      (match Items(value)
       case Err(e) => Fail(e)
       case Ok(items) => ArrayOutcome(ArrayOutcomes(check, items, node)))
    case Custom(run) => run(value, node)
  }

  lemma {:induction false} DecisiveIsFirst(outs: seq<Outcome>, k: nat)
    requires k <= |outs|
    requires forall j :: 0 <= j < k ==> Absorbed(outs[j])
    requires k < |outs| ==> !Absorbed(outs[k])
    ensures Decisive(outs) == k
  {
    if k > 0 {
      DecisiveIsFirst(outs[1..], k - 1);
    }
  }

  lemma {:induction false} FirstFailureIsFirst(outs: seq<Outcome>, k: nat)
    requires k <= |outs|
    requires forall j :: 0 <= j < k ==> outs[j].Pass?
    requires k < |outs| ==> outs[k].Fail?
    ensures FirstFailure(outs) == k
  {
    if k > 0 {
      FirstFailureIsFirst(outs[1..], k - 1);
    }
  }

  /**
   * `assertOneOf(types)(value, node)`: try each checker on the value in turn;
   * return at the first that does not throw, rethrow at once an error that is
   * not a `TypeError`, collect the `TypeError`s, and if all threw one, throw a
   * single `TypeError` listing their messages.
   */
  method AssertOneOf(types: seq<Validator>, value: Value, node: Value) returns (r: Outcome)
    ensures r == Check(OneOf(types), value, node)
  {
    var errors: seq<Error> := [];
    for i := 0 to |types|
      invariant |errors| == i
      invariant forall j :: 0 <= j < i ==> AbsorbedWith(types[j], value, errors[j])
    {
      var outcome := Check(types[i], value, Undefined);
      if !Absorbed(outcome) {
        OneOfStopsAt(types, value, node, i);
        return outcome;
      }
      errors := errors + [outcome.error];
    }
    OneOfExhausted(types, value, node, errors);
    var header := ReadType(node);
    if header.Err? {
      return Fail(header.error);
    }
    var messages := Messages(errors);
    r := Fail(Error(TypeError, OneOfMessage(ToText(header.value), messages)));
  }

  /** The checker threw a `TypeError` on the value, and `e` is that error. */
  predicate AbsorbedWith(v: Validator, value: Value, e: Error)
  {
    Absorbed(Check(v, value, Undefined)) && Check(v, value, Undefined).error == e
  }

  lemma {:induction false} OneOfStopsAt(types: seq<Validator>, value: Value, node: Value, i: nat)
    requires i < |types|
    requires forall j :: 0 <= j < i ==> Absorbed(Check(types[j], value, Undefined))
    requires !Absorbed(Check(types[i], value, Undefined))
    ensures Check(OneOf(types), value, node) == Check(types[i], value, Undefined)
  {
    DecisiveIsFirst(OneOfOutcomes(types, value), i);
  }

  lemma {:induction false} OneOfExhausted(types: seq<Validator>, value: Value, node: Value, errors: seq<Error>)
    requires |errors| == |types|
    requires forall j :: 0 <= j < |types| ==> AbsorbedWith(types[j], value, errors[j])
    ensures Check(OneOf(types), value, node) == Aggregate(errors, node)
  {
    var outs := OneOfOutcomes(types, value);
    forall j | 0 <= j < |outs|
      ensures Absorbed(outs[j]) && outs[j].error == errors[j]
    {
      assert AbsorbedWith(types[j], value, errors[j]);
    }
    assert Errors(outs) == errors;
    assert Decisive(outs) == |outs| by {
      DecisiveIsFirst(outs, |types|);
    }
    assert Check(OneOf(types), value, node) == OneOfOutcome(outs, node);
  }

  /**
   * `arrayOf(check)(nodes, node)`: call the checker on every element with the
   * same node, in order; the first failure propagates unchanged.
   */
  method AssertArrayOf(check: Validator, nodes: Value, node: Value) returns (r: Outcome)
    ensures r == Check(ArrayOf(check), nodes, node)
  {
    var items := Items(nodes);
    if items.Err? {
      return Fail(items.error);
    }
    var xs := items.value;
    for i := 0 to |xs|
      invariant forall j :: 0 <= j < i ==> Check(check, xs[j], node).Pass?
    {
      var outcome := Check(check, xs[i], node);
      if outcome.Fail? {
        ArrayStopsAt(check, nodes, node, i);
        return outcome;
      }
    }
    ArrayStopsAt(check, nodes, node, |xs|);
    r := Pass;
  }

  /** `arrayOf` ends at the first element its checker fails, or passes when there is none. */
  lemma {:induction false} ArrayStopsAt(check: Validator, nodes: Value, node: Value, i: nat)
    requires Items(nodes).Ok? && i <= |Items(nodes).value|
    requires forall j :: 0 <= j < i ==> Check(check, Items(nodes).value[j], node).Pass?
    requires i < |Items(nodes).value| ==> Check(check, Items(nodes).value[i], node).Fail?
    ensures Check(ArrayOf(check), nodes, node) ==
      if i < |Items(nodes).value| then Check(check, Items(nodes).value[i], node) else Pass
  {
    var outs := ArrayOutcomes(check, Items(nodes).value, node);
    assert FirstFailure(outs) == i by {
      FirstFailureIsFirst(outs, i);
    }
    assert Check(ArrayOf(check), nodes, node) == ArrayOutcome(outs);
  }

  /** `assertAny` accepts every value. */
  lemma AnyAcceptsEverything(value: Value, node: Value)
    ensures Check(AnyValue, value, node) == Pass
  {
  }

  /**
   * `assertOneOf` succeeds exactly when some checker passes and every checker
   * before it threw a `TypeError`.
   */
  lemma OneOfPassIff(types: seq<Validator>, value: Value, node: Value)
    ensures Check(OneOf(types), value, node) == Pass <==>
      exists k :: 0 <= k < |types| && PassesAfterTypeErrors(types, k, value)
  {
    var outs := OneOfOutcomes(types, value);
    assert Check(OneOf(types), value, node) == OneOfOutcome(outs, node);
    var d := Decisive(outs);
    if OneOfOutcome(outs, node) == Pass {
      assert d < |types| && PassesAfterTypeErrors(types, d, value);
    }
    forall k | 0 <= k < |types| && PassesAfterTypeErrors(types, k, value)
      ensures OneOfOutcome(outs, node) == Pass
    {
      DecisiveIsFirst(outs, k);
    }
  }

  /** The checker at `k` passes the value and every checker before it threw a `TypeError`. */
  predicate PassesAfterTypeErrors(types: seq<Validator>, k: nat, value: Value)
    requires k < |types|
  {
    Check(types[k], value, Undefined) == Pass &&
    forall j :: 0 <= j < k ==> Absorbed(Check(types[j], value, Undefined))
  }

  /**
   * The first checker that does not throw a `TypeError` decides: its pass, or
   * its error unchanged, is the result, whatever checkers follow it.
   */
  lemma OneOfFirstDecisiveWins(types: seq<Validator>, rest: seq<Validator>, k: nat, value: Value, node: Value)
    requires k < |types|
    requires forall j :: 0 <= j < k ==> Absorbed(Check(types[j], value, Undefined))
    requires !Absorbed(Check(types[k], value, Undefined))
    ensures Check(OneOf(types[..k + 1] + rest), value, node) == Check(types[k], value, Undefined)
  {
    var all := types[..k + 1] + rest;
    var outs := OneOfOutcomes(all, value);
    assert forall j :: 0 <= j <= k ==> all[j] == types[j];
    DecisiveIsFirst(outs, k);
  }

  /** The messages of checkers that all threw a `TypeError` on the value, in checker order. */
  function TypeErrorMessages(types: seq<Validator>, value: Value): (ms: seq<string>)
    requires forall j :: 0 <= j < |types| ==> Absorbed(Check(types[j], value, Undefined))
    ensures |ms| == |types|
    ensures forall j :: 0 <= j < |types| ==>
      var o := Check(types[j], value, Undefined); o.Fail? && ms[j] == o.error.message
  {
    var outs := OneOfOutcomes(types, value);
    assert forall i :: 0 <= i < |outs| ==> outs[i].Fail? by {
      forall i | 0 <= i < |outs| ensures outs[i].Fail? {
        assert Absorbed(Check(types[i], value, Undefined));
      }
    }
    Messages(Errors(outs))
  }

  /**
   * When every checker throws a `TypeError` (vacuously for none), one
   * `TypeError` is thrown: a header naming the node's tag, the collected
   * messages in order joined by newlines, and a final newline.
   */
  lemma OneOfAllTypeErrors(types: seq<Validator>, value: Value, n: Node)
    requires forall j :: 0 <= j < |types| ==> Absorbed(Check(types[j], value, Undefined))
    ensures Check(OneOf(types), value, AsValue(n)) ==
      Fail(Error(TypeError, OneOfMessage(n.tag, TypeErrorMessages(types, value))))
  {
    var outs := OneOfOutcomes(types, value);
    DecisiveIsFirst(outs, |types|);
  }

  /** With no checkers at all the message is the header and two newlines. */
  lemma OneOfEmptyList(value: Value, n: Node)
    ensures Check(OneOf([]), value, AsValue(n)) ==
      Fail(Error(TypeError, "Expected node to match one of the expected types for " + n.tag + ".\n\n\n"))
  {
    OneOfAllTypeErrors([], value, n);
  }

  /**
   * A tag mismatch from `assertType` is a plain `Error`, so inside
   * `assertOneOf` it is rethrown at once instead of letting a later
   * alternative match.
   */
  lemma OneOfRethrowsTagMismatch(tag: string, other: string, rest: seq<Validator>, value: Value, node: Value)
    requires Truthy(value) && ReadType(value) == Ok(Str(other)) && other != tag
    ensures Check(OneOf([NodeOfType(tag)] + rest), value, node) ==
      Fail(Error(PlainError, "Expected node to be of type " + tag + ", but got " + other))
  {
    OneOfFirstDecisiveWins([NodeOfType(tag)], rest, 0, value, node);
    assert [NodeOfType(tag)][..1] == [NodeOfType(tag)];
  }

  /**
   * Two alternatives: success exactly when the first passes, or the first
   * throws a `TypeError` and the second passes.
   */
  lemma OneOfTwo(a: Validator, b: Validator, value: Value, node: Value)
    ensures Check(OneOf([a, b]), value, node) == Pass <==>
      Check(a, value, Undefined) == Pass ||
      (Absorbed(Check(a, value, Undefined)) && Check(b, value, Undefined) == Pass)
  {
    OneOfPassIff([a, b], value, node);
    var types := [a, b];
    if Check(a, value, Undefined) == Pass {
      assert PassesAfterTypeErrors(types, 0, value);
    } else if Absorbed(Check(a, value, Undefined)) && Check(b, value, Undefined) == Pass {
      assert PassesAfterTypeErrors(types, 1, value);
    }
  }

  /** `arrayOf` passes an array exactly when the checker passes every element. */
  lemma ArrayOfPassIff(check: Validator, xs: seq<Value>, node: Value)
    ensures Check(ArrayOf(check), Arr(xs), node) == Pass <==>
      forall i :: 0 <= i < |xs| ==> Check(check, xs[i], node) == Pass
  {
    var outs := ArrayOutcomes(check, xs, node);
    if forall i :: 0 <= i < |xs| ==> Check(check, xs[i], node) == Pass {
      FirstFailureIsFirst(outs, |xs|);
    }
  }

  /**
   * The first failing element's error is the result, unchanged, whatever
   * elements follow it.
   */
  lemma ArrayOfFirstFailureWins(check: Validator, xs: seq<Value>, rest: seq<Value>, k: nat, node: Value)
    requires k < |xs|
    requires forall j :: 0 <= j < k ==> Check(check, xs[j], node) == Pass
    requires Check(check, xs[k], node).Fail?
    ensures Check(ArrayOf(check), Arr(xs[..k + 1] + rest), node) == Check(check, xs[k], node)
  {
    var all := xs[..k + 1] + rest;
    var outs := ArrayOutcomes(check, all, node);
    assert forall j :: 0 <= j <= k ==> all[j] == xs[j];
    FirstFailureIsFirst(outs, k);
  }

  /** A checker that throws a plain `Error`, inside `assertOneOf` inside `arrayOf`, fails the whole array with that error. */
  lemma ArrayOfRethrowsUnexpectedError(x: Value, node: Value)
    ensures var throwing := Custom((v: Value, n: Value) => Fail(Error(PlainError, "")));
      Check(ArrayOf(OneOf([throwing])), Arr([x]), node) == Fail(Error(PlainError, ""))
  {
    var throwing := Custom((v: Value, n: Value) => Fail(Error(PlainError, "")));
    OneOfFirstDecisiveWins([throwing], [], 0, x, Undefined);
    assert [throwing][..1] + [] == [throwing];
    ArrayOfFirstFailureWins(OneOf([throwing]), [x], [], 0, node);
    assert [x][..1] + [] == [x];
  }
}
