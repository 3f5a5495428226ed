# Stylesheet AST builder, printer and terminal-colour helpers, modelled in Dafny

This project models five small cores of the arcanis-leg tool set:

- **Validator combinators** (`assert.dfy`). These are `assertAny`, `assertDefined`, `assertValueType`, `assertType`, `assertOneOf` and `arrayOf`. Each check either returns or throws, and an `Outcome` records which. `assertOneOf` tells a thrown `TypeError` (absorbed and collected) apart from any other error (rethrown at once). A checker is a `Validator` value and `Check` says what calling it does. `AssertOneOf` and `AssertArrayOf` are the loops of the source, proved against `Check`.
- **Node-type definitions** (`define_type.dfy`). This covers `defineType`, the `builder` it returns, and `makeInvocableDefinition`. `Bind` chooses between positional and named binding. `Fill` is the builder's field walk, as a specification. `Build` is the loop, proved equal to `Builder`.
- **The SCSS printer** (`printer.dfy`). This is the object `createPrinter` returns: an append-only buffer of fragments plus an indentation level. `Step` and `Exec` say what one call, and a run of calls, do to that state and whether they throw. The class `Printer.Printer` has one method per printer call, each proved against `Step`. `Print` runs a node's generator through those methods and is proved against `Exec`.
- **ANSI colour wrapping** (`color_generator.dfy`). This covers `replaceClose`, `clearBleed`, `filterEmpty` and `assembleColor`. The recursive close-code replacement is proved equal to a plain left-to-right replace-all, started at the offset where the search begins.
- **The palette hash** (`hash_code.dfy`). The `hashCode` loop, with its int32 wrap-around written out, is proved equal to the polynomial closed form read as a signed 32-bit value.

`js_value.dfy` holds the slice of JavaScript value semantics these cores rely on: `typeof`, truthiness, reading `.type`, `String(v)`, and the three error kinds. `wrappers.dfy` holds `Option`.

Behaviour of the source worth noting:

- `maybeNewline()` does not coalesce with a preceding `newline()`. The last fragment `newline()` pushes is the padding, even when that padding is the empty string, not the line break. So two line breaks result (`MaybeNewlineAfterNewline`, `RepeatedMaybeNewline`). Only a fragment that is exactly `"\n"` suppresses the call (`MaybeNewlineAfterLineBreak`).
- `blockStart()` then `blockEnd()` at level 0 pushes `"{"`, `"\n"`, `"  "`, `"\n"`, `""`, `"}"`. The text is `"{\n  \n}"`: the inner line is padded one level deeper (`EmptyBlockRoundTrip`).
- Printing a node whose type has no definition is a `TypeError` raised by reading `generate` of `undefined`. It is not a dedicated error (`UnknownTypeThrows`).
- `blockEnd()` at level 0 takes the level to -1. Padding then calls `'  '.repeat(-1)`, which throws a `RangeError` after the line break has been pushed (`Printer.Printer.BlockEnd`, `ExecPassIff`).

## Model

| member | source | states |
|---|---|---|
| HashCode.ToInt32 | packages/prismatic/src/utils/hashCode.ts:21 | `hash \|= 0`: the result is a signed 32-bit value congruent to the input modulo 2^32 |
| HashCode.ShiftLeft5 | packages/prismatic/src/utils/hashCode.ts:20 | `hash << 5`: a signed 32-bit value congruent to 32·hash modulo 2^32 |
| HashCode.StepIsTimes31 | packages/prismatic/src/utils/hashCode.ts:20-21 | one loop step (shift, subtract, add, truncate) equals 31·hash + chr read as int32 |
| HashCode.PolySumAppend | packages/prismatic/src/utils/hashCode.ts:18-22 | Horner's rule: appending a code unit multiplies the closed form by 31 and adds the unit |
| HashCode.HashAppend | packages/prismatic/src/utils/hashCode.ts:18-22 | the hash of s + [c] is the int32 reading of 31·hash(s) + c |
| HashCode.EmptyHash | packages/prismatic/src/utils/hashCode.ts:17-23 | the empty string hashes to 0 |
| HashCode.SingleUnitHash | packages/prismatic/src/utils/hashCode.ts:17-23 | a one-unit string hashes to its code unit |
| HashCode.ComputeHash | packages/prismatic/src/utils/hashCode.ts:16-24 | the loop returns the closed-form polynomial hash read as int32, and the result is in the signed 32-bit range |
| ColorGenerator.IndexOf | packages/cli-chroma/src/colorGenerator.ts:80 | `indexOf(close, at)`: -1 or an occurrence at or after the clamped start, with no occurrence between the start and the result |
| ColorGenerator.ReplaceClose | packages/cli-chroma/src/colorGenerator.ts:27-36 | keeps the text before `index` and puts the replacement where the close code at `index` was; the rest is `ReplaceCloseIsReplaceAll` |
| ColorGenerator.ClearBleed | packages/cli-chroma/src/colorGenerator.ts:50-59 | the result starts with `open` and ends with `close`; with no index the input sits unchanged between them, otherwise its prefix up to the index and then the replacement; `ApplyReplacesEveryCloseFromAt` gives the whole middle |
| ColorGenerator.ReplaceCloseIsReplaceAll | packages/cli-chroma/src/colorGenerator.ts:27-36 | `replaceClose` from an occurrence keeps the prefix and replaces every later non-overlapping close code, left to right |
| ColorGenerator.TailScanIsReplaceAll | packages/cli-chroma/src/colorGenerator.ts:33-36 | what `replaceClose` appends after a replaced close code (the tail, or the recursion from the tail's next close code) is the tail with every close code replaced |
| ColorGenerator.ReplaceAllAtOccurrence | packages/cli-chroma/src/colorGenerator.ts:32-33 | at a close code, the replacement is emitted and the scan resumes just after the close code |
| ColorGenerator.FilterEmpty | packages/cli-chroma/src/colorGenerator.ts:70-76 | the closure captures `open` and `close`; an explicit `replace` or `at` is kept as given, and when omitted `replace` defaults to the open code and `at` to its length + 1 |
| ColorGenerator.Apply | packages/cli-chroma/src/colorGenerator.ts:77-86 | an absent or empty input gives ""; any other input is wrapped, starting with the open code and ending with the close code |
| ColorGenerator.EscapeCode | packages/cli-chroma/src/colorGenerator.ts:100-101 | an escape sequence is ESC, `[`, then exactly the code, then `m` |
| ColorGenerator.AssembleColor | packages/cli-chroma/src/colorGenerator.ts:95-103 | wraps with the escape codes of `open` and `close`; the replacement defaults to the open code |
| ColorGenerator.ApplyReplacesEveryCloseFromAt | packages/cli-chroma/src/colorGenerator.ts:57-59 | the wrapped text is open + the input with every close code from `at` on replaced + close |
| ColorGenerator.UnscannedWhenNoClose | packages/cli-chroma/src/colorGenerator.ts:57-58 | with no close code found from `at`, the input is wrapped unchanged |
| ColorGenerator.ScannedFromFirstClose | packages/cli-chroma/src/colorGenerator.ts:59 | with a close code found, replacement starts at the first one at or after `at` |
| ColorGenerator.ApplyWithoutInnerClose | packages/cli-chroma/src/colorGenerator.ts:77-86 | text without an inner close code is wrapped unchanged |
| ColorGenerator.LeadingCloseKept | packages/cli-chroma/src/colorGenerator.ts:75 | a close code before the default search start is left in place |
| ColorGenerator.RedWrapsWord | packages/cli-chroma/src/colorGenerator.ts:95-103 | red (31/39) wraps "red" as ESC[31m red ESC[39m |
| ColorGenerator.InnerCloseReopens | packages/cli-chroma/src/colorGenerator.ts:27-36 | a single inner close code is replaced by the replacement, so the outer colour resumes after a nested one |
| ColorGenerator.SingleOccurrenceReplaced | packages/cli-chroma/src/colorGenerator.ts:27-36 | replace-all on text with exactly one occurrence replaces just that one |
| JsValue.TypeOf | packages/scale-scss/src/ast/assert.ts:48 | `typeof` is "object" exactly for null, arrays and objects, and "string" exactly for strings |
| JsValue.ReadType | packages/scale-scss/src/ast/assert.ts:68 | reading `.type` throws a TypeError exactly on undefined or null, and is a property lookup on an object |
| Assert.AssertAny | packages/scale-scss/src/ast/assert.ts:26 | always returns |
| Assert.AssertDefined | packages/scale-scss/src/ast/assert.ts:35-39 | throws a plain Error "Expected node to be defined" exactly when the node is falsy |
| Assert.AssertValueType | packages/scale-scss/src/ast/assert.ts:47-53 | throws a TypeError naming both type names exactly when `typeof value` differs |
| Assert.AssertType | packages/scale-scss/src/ast/assert.ts:63-73 | passes exactly for a defined node carrying the tag; otherwise throws a plain Error, either the undefined-node one or one naming both tags |
| Assert.Aggregate | packages/scale-scss/src/ast/assert.ts:97-101 | the final error is always a TypeError |
| Assert.Items | packages/scale-scss/src/ast/assert.ts:114 | `for..of` throws exactly on values that are neither arrays nor strings, with the TypeError "nodes is not iterable"; an array yields its elements, a string its characters as one-character strings |
| Assert.Check | packages/scale-scss/src/ast/assert.ts:26-117 | what calling a checker does: `assertAny` passes; `assertDefined` and `assertType` fail only with plain Errors, `assertValueType` only with TypeErrors; `arrayOf` throws "nodes is not iterable" on a non-iterable and passes an empty array or string. The combinators are characterised by `OneOfPassIff`, `OneOfFirstDecisiveWins`, `OneOfAllTypeErrors`, `ArrayOfPassIff` and `ArrayOfFirstFailureWins` |
| Assert.TypeErrorMessages | packages/scale-scss/src/ast/assert.ts:99 | the collected messages are the checkers' TypeError messages, in order |
| Assert.AssertOneOf | packages/scale-scss/src/ast/assert.ts:82-102 | the loop's result equals `Check(OneOf(types), value, node)` |
| Assert.OneOfStopsAt | packages/scale-scss/src/ast/assert.ts:84-91 | the first checker that does not throw a TypeError ends the loop with its own outcome |
| Assert.OneOfExhausted | packages/scale-scss/src/ast/assert.ts:93-101 | when every checker threw a TypeError, the result is the aggregate error built from those errors, in order |
| Assert.ArrayStopsAt | packages/scale-scss/src/ast/assert.ts:114-116 | `arrayOf` ends with the first failing element's error, or passes when none fails |
| Assert.AssertArrayOf | packages/scale-scss/src/ast/assert.ts:111-117 | the loop's result equals `Check(ArrayOf(check), nodes, node)` |
| Assert.AnyAcceptsEverything | packages/scale-scss/src/ast/assert.ts:26 | `assertAny` passes any value with any node |
| Assert.OneOfPassIff | packages/scale-scss/src/ast/assert.ts:82-102 | passes iff some checker passes and every earlier checker threw a TypeError |
| Assert.OneOfFirstDecisiveWins | packages/scale-scss/src/ast/assert.ts:84-91 | the first checker that does not throw a TypeError decides the result, whatever follows it |
| Assert.OneOfAllTypeErrors | packages/scale-scss/src/ast/assert.ts:97-101 | when all checkers throw TypeErrors, one TypeError is thrown: header with the node's tag, messages joined by newlines, final newline |
| Assert.OneOfEmptyList | packages/scale-scss/src/ast/assert.ts:97-101 | with no checkers the message is the header followed by three newlines |
| Assert.OneOfRethrowsTagMismatch | packages/scale-scss/src/ast/assert.ts:68-72 | an `assertType` mismatch is a plain Error, so `assertOneOf` rethrows it without trying later alternatives |
| Assert.OneOfTwo | packages/scale-scss/src/ast/assert.ts:82-102 | two alternatives pass iff the first passes, or the first throws a TypeError and the second passes |
| Assert.ArrayOfPassIff | packages/scale-scss/src/ast/assert.ts:111-117 | an array passes iff every element passes with the same node |
| Assert.ArrayOfFirstFailureWins | packages/scale-scss/src/ast/assert.ts:114-116 | the first failing element's error is the result, whatever follows it |
| Assert.ArrayOfRethrowsUnexpectedError | packages/scale-scss/src/ast/assert.ts:89-91 | a plain Error inside `assertOneOf` inside `arrayOf` fails the whole array with that error |
| Printer.Pad | packages/scale-scss/src/generator/printer.ts:39-41 | the padding is 2·level characters, all spaces |
| Printer.Printer.constructor | packages/scale-scss/src/generator/printer.ts:35-37 | a new printer has an empty buffer, level 0, and the given definitions |
| Printer.Printer.Append | packages/scale-scss/src/generator/printer.ts:44-46 | pushes the string as one fragment; the level is unchanged |
| Printer.Printer.Token | packages/scale-scss/src/generator/printer.ts:87-89 | pushes the characters, or "" when omitted, and returns the new fragment count |
| Printer.Printer.Space | packages/scale-scss/src/generator/printer.ts:83-85 | pushes one space |
| Printer.Printer.Newline | packages/scale-scss/src/generator/printer.ts:70-73 | pushes "\n" then the padding; at a negative level only "\n" is pushed, then a RangeError |
| Printer.Printer.MaybeNewline | packages/scale-scss/src/generator/printer.ts:64-68 | a no-op exactly when the last fragment is "\n"; otherwise a newline |
| Printer.Printer.BlockStart | packages/scale-scss/src/generator/printer.ts:48-52 | pushes the opening token (default "{"), goes one level deeper, then breaks the line at the new level |
| Printer.Printer.BlockEnd | packages/scale-scss/src/generator/printer.ts:54-58 | goes one level up, breaks the line at the outer level, then pushes the closing token (default "}"); at level 0 it throws a RangeError before the token |
| Printer.Step | packages/scale-scss/src/generator/printer.ts:44-89 | one printer call: the old fragments stay at the front; a call that returns moves the level by +1 for `blockStart`, -1 for `blockEnd`, 0 otherwise; the only error is a RangeError, and from a non-negative level it happens iff the call is `blockEnd` at level 0 |
| Printer.Exec | packages/scale-scss/src/generator/printer.ts:75-81 | a run of calls, stopping at the first throw, only ever throws a RangeError; see also `ExecConcat`, `ExecExtends`, `ExecIndent`, `ExecPassIff` |
| Printer.PrintSpec | packages/scale-scss/src/generator/printer.ts:75-81 | `print` either throws a TypeError before any call is made, leaving the state unchanged, or runs the generator, whose only errors are RangeErrors; see also `UnknownTypeThrows`, `UndefinedNodeThrows`, `KnownTypeRunsGenerator` |
| Printer.ConcatEmptyIff | packages/scale-scss/src/generator/printer.ts:61 | `buffer.join('')` is empty iff every fragment is empty |
| Printer.Printer.Text | packages/scale-scss/src/generator/printer.ts:61 | the printer's raw text is empty iff every pushed fragment is empty; `ConcatAppend` and `EmptyBlockRoundTrip` give its contents |
| Printer.Printer.Perform | packages/scale-scss/src/generator/printer.ts:15-25 | each printer call does what `Step` specifies |
| Printer.Printer.Print | packages/scale-scss/src/generator/printer.ts:75-81 | looks up `node.type` and runs its generator's calls, stopping at the first throw; equals `PrintSpec` |
| Printer.ExecConcat | packages/scale-scss/src/generator/printer.ts:75-81 | a run split in two continues from the state after the first part, unless the first part threw |
| Printer.ExecPrefixStep | packages/scale-scss/src/generator/printer.ts:75-81 | running one more call extends the run by exactly that call, unless the run already threw |
| Printer.ExecStopsAt | packages/scale-scss/src/generator/printer.ts:75-81 | once a prefix of the calls throws, the later calls are never made |
| Printer.ExecExtends | packages/scale-scss/src/generator/printer.ts:36 | the buffer only grows; earlier fragments stay in place, even after a throw |
| Printer.ExecIndent | packages/scale-scss/src/generator/printer.ts:48-58 | after a run that returns, the level has moved by blocks opened minus blocks closed |
| Printer.ExecPassIff | packages/scale-scss/src/generator/printer.ts:39-41 | from a non-negative level, a run returns iff no `blockEnd` is reached at level 0 |
| Printer.PadIsNotLineBreak | packages/scale-scss/src/generator/printer.ts:65 | the padding is never exactly "\n" |
| Printer.ConcatAppend | packages/scale-scss/src/generator/printer.ts:61 | joining the fragments distributes over concatenation |
| Printer.EmptyBlockRoundTrip | packages/scale-scss/src/generator/printer.ts:48-58 | an empty block pushes "{", "\n", the deeper padding, "\n", the padding, "}", and restores the level; its text is "{\n" + pad + "\n" + pad + "}" |
| Printer.BlockText | packages/scale-scss/src/generator/printer.ts:61 | the joined text of an empty block's fragments |
| Printer.MaybeNewlineAfterNewline | packages/scale-scss/src/generator/printer.ts:64-73 | `maybeNewline` right after `newline` adds a second line break |
| Printer.MaybeNewlineAfterLineBreak | packages/scale-scss/src/generator/printer.ts:64-68 | after a fragment that is exactly "\n", `maybeNewline` changes nothing |
| Printer.OmittedTokenAddsNoText | packages/scale-scss/src/generator/printer.ts:87-89 | an omitted token pushes "" and leaves the text unchanged |
| Printer.RepeatedMaybeNewline | packages/scale-scss/src/generator/printer.ts:64-73 | append then two `maybeNewline` calls give two line breaks, each followed by empty padding |
| Printer.UnknownTypeThrows | packages/scale-scss/src/generator/printer.ts:76 | an undefined node type throws a TypeError and prints nothing |
| Printer.UndefinedNodeThrows | packages/scale-scss/src/generator/printer.ts:76 | printing `undefined` throws the TypeError for reading `type` and prints nothing |
| Printer.KnownTypeRunsGenerator | packages/scale-scss/src/generator/printer.ts:75-81 | a defined node type runs exactly its generator's calls |
| DefineType.Names | packages/scss-forge/src/ast/defineType.ts:52 | the declared names are exactly the field names |
| DefineType.DefineType | packages/scss-forge/src/ast/defineType.ts:48-56 | fails iff `generate` is missing, with a plain Error naming the type; otherwise keeps the tag and `generate`, with fields defaulting to none |
| DefineType.Bind | packages/scss-forge/src/ast/defineType.ts:58-68 | named binding iff one non-array object argument with `type` undefined; a lone null throws a TypeError; otherwise positional |
| DefineType.FillField | packages/scss-forge/src/ast/defineType.ts:74-90 | a defined value is stored iff its validator passes on the node so far, else the validator's error; an undefined value fails iff the field is required, with the missing-field message |
| DefineType.Fill | packages/scss-forge/src/ast/defineType.ts:70-90 | the node after the first `i` fields always has `type` and every field whose value was defined; see also `FillKeys`, `FillKeepsTag`, `FillStoresDefinedValues`, `FillErrorSticks` |
| DefineType.Builder | packages/scss-forge/src/ast/defineType.ts:58-93 | a node the builder returns is an object that has `type` and every field whose bound value was defined; its errors are given by `NullArgumentThrows`, `MissingRequiredFieldThrows` and `ValidatorErrorPropagates` |
| DefineType.Build | packages/scss-forge/src/ast/defineType.ts:58-93 | the builder's loop returns or throws exactly what `Builder` specifies |
| DefineType.MakeInvocable | packages/scss-forge/src/ast/defineType.ts:37-46 | calling the result is calling the builder, and it carries `generate` and `type` |
| DefineType.FillErrorSticks | packages/scss-forge/src/ast/defineType.ts:79-89 | once the field loop throws, that error is the builder's |
| DefineType.FillKeys | packages/scss-forge/src/ast/defineType.ts:70-81 | the node's keys are `type` and declared field names only |
| DefineType.FillKeepsTag | packages/scss-forge/src/ast/defineType.ts:70-72 | unless a field is named `type`, the node keeps the definition's tag |
| DefineType.FillStoresDefinedValues | packages/scss-forge/src/ast/defineType.ts:74-90 | with distinct names, a field is present iff its value was defined, and it holds that value |
| DefineType.BuilderTagsNode | packages/scss-forge/src/ast/defineType.ts:70-72 | a built node is an object whose `type` is the definition's tag |
| DefineType.MissingRequiredFieldThrows | packages/scss-forge/src/ast/defineType.ts:85-89 | the first required field left undefined throws the missing-field Error |
| DefineType.ValidatorErrorPropagates | packages/scss-forge/src/ast/defineType.ts:79-80 | a validator's error on a defined value propagates unchanged out of the builder |
| DefineType.NullArgumentThrows | packages/scss-forge/src/ast/defineType.ts:61-65 | a lone null argument throws the TypeError for reading `type` |
| DefineType.DefinitionKeepsSignature | packages/scss-forge/src/ast/defineType.ts:95-99 | a definition returns the tag, fields and `generate` it was given |
| DefineType.LoneArrayBindsFirstField | packages/scss-forge/src/ast/defineType.ts:59-77 | a lone array argument is bound by position, so the whole array becomes the first field's value |
| DefineType.EmptyObjectMissesField | packages/scss-forge/src/ast/defineType.ts:85-89 | an empty object for a required field throws "Expected field 'field1' to be defined for type …" |

## Left out

- `get()` passes the joined text to the Prettier formatter, which is not part of this model. The model stops at the raw text (`Printer.Printer.Text`). The top-level `generate(ast)` is left out for the same reason.
- Generators are abstract: a generator is the list of printer calls it makes for a node and its parent. Generators that call `print` on child nodes, and the concrete node kinds, are not part of this model.
- Printer.Printer.Print: a node type naming an inherited object property (such as `toString`) resolves to a prototype member in JavaScript. The model treats such a type as having no definition.
- Printer.Printer.BlockStart: a `null` argument, which pushes "" instead of the default, is not modelled; only an omitted argument (`None`) is.
- Checkers are pure functions of their arguments. Side effects of validators and generators are not modelled.
- Numbers are integers. NaN, fractions and infinities are not modelled, and neither is `String()` of numbers beyond integer decimals.
- Assert.AssertType: `assertType` receives a whole type definition but reads only its `type`, so the model passes the tag alone.
- DefineType.Bind: `Object.keys` lists integer-like keys first. The model takes the field order as given. Looking up a missing name on the input object returns `undefined`, even for names that an object inherits in JavaScript.
- DefineType.DefineType: a `generate` that is present but not a function is modelled as absent; both throw the same error. `fields: null` (which makes `Object.keys` throw) is not modelled.
- ColorGenerator.AssembleColor: numeric ANSI codes are taken as their decimal strings. The `Date`, number and boolean inputs of a colour function are taken after `String()` conversion.
- ColorGenerator.Apply: text is a sequence of Unicode code points (Dafny characters), while JavaScript strings are sequences of UTF-16 code units. Positions, the default `at = open.length + 1` and `indexOf` therefore count code points here. The result differs from the source when a character outside the Basic Multilingual Plane (such as an emoji) occurs before the search start or before a close code. The palette hash works on UTF-16 code units as the source does.
- The palette builder, APCA contrast, terminal colour tables, runtime constants and configuration files are not part of this model.
