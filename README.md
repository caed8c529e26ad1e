# schematics — validator-combinator engine in Dafny

This project models the engine in `lib/schematics.js` of the *schematics*
validation library:

- six factories (`bool`, `num`, `str`, `date`, `obj`, `arr`) build a
  validator whose first rule is a type check with a custom or default message;
- chain methods (`nonEmpty`, `valid`, `prop`, `each`) append one rule to that
  validator and return the same validator;
- `run(x, keepResult)` checks a value.

A validator is mutable state: a `Validator` class with a constant `kind`
and a `rules: seq<Rule>` field that the chain methods reassign. A child
validator handed to `prop` or `each` is held by reference, so chaining onto
it later changes what every parent accepts.

`run` works in two phases, as the code does:

1. **Walk** (`InvokeRules`, specified by `Phase1`). Every rule is invoked
   in list order against a fresh accumulator. A rule's guard sees only
   failures that happened synchronously: a type check, `nonEmpty`, `valid`,
   or a missing property. The first such failure sets the one message and
   makes every later guard return. `prop` and `each` start child runs (a
   *launch*) instead of failing.
2. **Completion** (`CompleteAll`, `CompleteLaunch`, `CompleteEach`,
   specified by `Fold` over `Resolved`). Each child run finishes with
   value retention off. Its callback records `why[name]` or `whys[i]` and
   clears `valid` when the child is invalid.

After both phases, `value` is attached exactly when the result is valid and
`keepResult` is true.

The specification is the ghost function `Schematics.Outcome(G, v, x, keep)`.
`G: Schema` is a snapshot of every validator's rule list. `Closed(G)` says
the snapshot is well formed and holds every child it names. `Mirrors(G)`
says the heap agrees with it. `Validator.Run` is proved equal to `Outcome`,
and every property below is proved about `Outcome` and its parts.

JavaScript values are the datatype `JsValues.Value`:

- booleans, strings and arrays carry their contents;
- numbers carry none;
- a Date carries only whether its time is NaN;
- objects are maps from own property names.

`JsValues.OwnProperty` gives `hasOwnProperty` plus `x[name]`. For arrays
that means the canonical index names and `length`.

Two facts about the code shape the model.

- Chaining changes the validator itself. A chain method pushes its rule onto
  the validator's own `rules` array and returns the same object
  (lib/schematics.js:18-22 and 30-34). `Scenarios.SharedChildSeesLaterChaining`
  shows the consequence for a child shared with a parent.
- Every rule is invoked synchronously by `rules.map` (lib/schematics.js:43-45),
  before any child run finishes. So an invalid child of `prop` or `each`
  never stops a later rule from starting, and it never sets a message on the
  parent.

## Model

| member | source | states |
|---|---|---|
| Schematics.Validator.constructor | lib/schematics.js:53-64 | a new validator of kind `k` whose only rule is the type check, with the custom message if non-empty, else the default |
| Schematics.Validator.Bool | lib/schematics.js:78 | fresh boolean validator; its one rule checks booleans and carries `customMsg` or "Value is not a boolean" |
| Schematics.Validator.Num | lib/schematics.js:80 | fresh number validator; its one rule carries `customMsg` or "Value is not a number" |
| Schematics.Validator.Str | lib/schematics.js:82-84 | fresh string validator; its one rule carries `customMsg` or "Value is not a string" |
| Schematics.Validator.Date | lib/schematics.js:86-95 | fresh date validator; its one rule carries `customMsg` or "Value is not a date" |
| Schematics.Validator.Obj | lib/schematics.js:108-112 | fresh object validator; its one rule carries `customMsg` or "Value is not an object" |
| Schematics.Validator.Arr | lib/schematics.js:136-140 | fresh array validator; its one rule carries `customMsg` or "Value is not an array" |
| Schematics.Validator.NonEmpty | lib/schematics.js:15-24 | appends exactly one non-empty rule (custom message or "is empty") and returns the same validator; the schema stays closed and mirrored |
| Schematics.Validator.Valid | lib/schematics.js:96-105 | appends exactly one valid-date rule (custom message or "Value is an invalid date") and returns the same validator |
| Schematics.Validator.Prop | lib/schematics.js:113-126 | appends exactly one property rule that holds the child by reference, and returns the same validator |
| Schematics.Validator.Each | lib/schematics.js:143-156 | appends exactly one per-element rule that holds the child by reference, and returns the same validator |
| Schematics.Validator.Run | lib/schematics.js:39-51 | the result of a run is `Outcome` of the current rule lists: walk, then completions, then the value on success when kept |
| Schematics.Validator.InvokeRules | lib/schematics.js:43-45 | the loop's flag, message and launches equal the synchronous walk `Phase1` over the rules, and every launch is on a value below `x` in the order (rank, structure) and names a known child |
| Schematics.Validator.CompleteAll | lib/schematics.js:46-49 | after waiting for every launch, the accumulator is the completions of all launches folded in launch order |
| Schematics.Validator.CompleteLaunch | lib/schematics.js:119-123 | one launch's callback: the accumulator becomes `Complete` of it with the child run's result(s) |
| Schematics.Validator.CompleteEach | lib/schematics.js:146-153 | after the element callbacks, `whys` holds the child's result for every index and `valid` is cleared iff some element is invalid |
| Schematics.Invoke | lib/schematics.js:15-37 | only a `prop` or `each` rule launches a child run. It launches the child the rule names: a `prop` rule on the own property of that name, which exists, and an `each` rule on the elements |
| Schematics.HasKind | lib/schematics.js:78-91 | the lodash type test behind each factory (`_.isObject` at line 132, `_.isArray` at line 162): no kind accepts `null` or `undefined`, and a Date or an array also passes `_.isObject` |
| Schematics.MessageOr | lib/schematics.js:17 | the JavaScript `or` of `customMsg` and the default (also lines 29, 88, 98): a non-empty custom message wins, an absent or empty one gives the default, and a non-empty default never yields an empty message |
| Schematics.Step | lib/schematics.js:8-13 | one guarded rule invocation with `handleFail` (guards at lines 19, 31, 90, 100, 115): after a failure nothing changes; a new failure sets `valid` false and the failing rule's message; launches are only ever appended, one at a time |
| Schematics.Complete | lib/schematics.js:120-123 | one `.then` callback (also lines 148-151): the message is kept; a property run writes `why[name]` only and leaves the parent valid iff it was and the child is; an `each` run leaves `why` alone, puts its results first in `whys` and leaves the parent valid iff it was and every element is |
| Schematics.Phase1 | lib/schematics.js:8-13 | the walk has a message exactly when it failed |
| Schematics.Phase1Launches | lib/schematics.js:119 | every launch of the walk is on a value below `x` and runs a child named by one of the rules |
| Schematics.Fold | lib/schematics.js:119-123 | completions never change the message and never make an invalid result valid |
| Schematics.Store | lib/schematics.js:150 | `whys[i] = r` at or one past the end: entry `i` is `r`, every other entry is kept, the length grows only when `i` is the end |
| Schematics.Overwrite | lib/schematics.js:146-153 | the array after writing all element results has the longer of the two lengths |
| Schematics.DetailOf | lib/schematics.js:128-130 | objects get a `why` map, arrays a `whys` list, other kinds neither, holding the given entries |
| Schematics.Outcome | lib/schematics.js:39-51 | a message implies invalid; `value` is present iff valid and kept, and is then `x`; the detail is `why` exactly for objects and `whys` exactly for arrays |
| Schematics.Resolved | lib/schematics.js:46-49 | one finished child run per launch |
| Schematics.RunAll | lib/schematics.js:146 | one child result per element |
| Schematics.ResolvedNext | lib/schematics.js:46-49 | completing launch `j` carries the fold of the first `j` launches to the first `j + 1` |
| Schematics.EachStep | lib/schematics.js:148-151 | one element callback carries the account of the first `k` element results to `k + 1` |
| Schematics.AllValidAppend | lib/schematics.js:149 | all results valid after one more iff all were valid before and the new one is valid |
| Schematics.WriteInOrder | lib/schematics.js:150 | writing element results by index in order gives the element results followed by any old tail |
| JsValues.OwnProperty | lib/schematics.js:116-119 | a property is found only on an object-typed value, and it is `Below` that value in the order (rank, structure): a part of it, or (an array's `length`) a value that holds no other values |
| JsValues.ArrayIndexProperty | lib/schematics.js:116-119 | on an array, the canonical name of index `i` is an own property iff `i` is in range, and it gives element `i` |
| JsValues.ArrayPropertyIsElement | lib/schematics.js:116-119 | every own property of an array other than `length` is a canonical in-range index naming its element |
| JsValues.ParseIndexString | lib/schematics.js:116 | parsing the decimal name of an index gives the index back |
| JsValues.IndexStringParse | lib/schematics.js:116 | a name that parses as an index is that index's canonical decimal name |
| SchematicsProperties.FirstFailure | lib/schematics.js:19-20 | the index of the earliest rule whose body fails; no rule before it fails |
| SchematicsProperties.EarliestFailureWins | lib/schematics.js:8-13 | the walk is valid iff no rule fails; otherwise the one message is the earliest failing rule's and later rules launch nothing |
| SchematicsProperties.FailureIsFinal | lib/schematics.js:19 | once the walk has failed, appending rules changes nothing |
| SchematicsProperties.LaunchesMatchValue | lib/schematics.js:119 | every property launch runs on the value's own property of that name, every element launch on the value's elements |
| SchematicsProperties.LaterLaunchesAreProps | lib/schematics.js:143-145 | when no rule after a prefix is an `each` rule, every launch beyond the prefix's launches is a property launch |
| SchematicsProperties.LaterLaunches | lib/schematics.js:43-45 | the launches of a rule prefix are a prefix of all launches, and later property launches come from later rules |
| SchematicsProperties.ResolvedAt | lib/schematics.js:46-49 | finished child run `j` is the one behind launch `j` |
| SchematicsProperties.FoldValid | lib/schematics.js:122 | after completion the parent is valid iff it was valid after the walk and every child run came back valid |
| SchematicsProperties.FoldWhyKeys | lib/schematics.js:121 | `why` holds exactly the names of the completed property runs |
| SchematicsProperties.FoldWhysEntry | lib/schematics.js:150 | with no later `each` run, the first entries of `whys` are that run's results |
| SchematicsProperties.FoldWhysLength | lib/schematics.js:150 | `whys` never grows longer than the longest results an `each` run delivers |
| SchematicsProperties.FoldWhysExact | lib/schematics.js:146-153 | an `each` run with the longest results and no later `each` run leaves `whys` equal to its results |
| SchematicsProperties.FoldWhyEntry | lib/schematics.js:121 | with no later run of the same name, `why[name]` is that property run's result |
| SchematicsProperties.FoldPreserves | lib/schematics.js:121-150 | a property every recorded child result has is kept by every completion |
| SchematicsProperties.FoldAppend | lib/schematics.js:46-49 | completing two batches in turn equals completing them together |
| SchematicsProperties.CompletionsCommute | lib/schematics.js:121-122 | two completions for distinct property names, or a property and an element batch, commute |
| SchematicsProperties.SwapIndependent | lib/schematics.js:46-49 | swapping two adjacent independent completions anywhere does not change the result |
| SchematicsProperties.RunAllAt | lib/schematics.js:146-147 | element result `i` is the child run on element `i` with value retention off |
| RunGuarantees.NothingLaunched | lib/schematics.js:46-49 | a run that launched nothing keeps the walk's verdict and has empty child results |
| RunGuarantees.WrongTypeRejected | lib/schematics.js:26-37 | a value of the wrong type gives exactly invalid with the type rule's message, no child results and no value |
| RunGuarantees.FreshValidatorOutcome | lib/schematics.js:26-37 | a validator straight from its factory accepts exactly the values of its type (with the value when kept) and rejects the rest with its message |
| RunGuarantees.NonEmptyOutcome | lib/schematics.js:15-24 | after `nonEmpty`, a value of the kind fails with the non-empty message iff its length is 0 |
| RunGuarantees.ValidDateOutcome | lib/schematics.js:96-105 | after `valid`, a Date fails with the valid-date message iff its time is NaN |
| RunGuarantees.WhyNamesLaunched | lib/schematics.js:121 | every name in `why` belongs to a property the walk found and launched |
| RunGuarantees.WhyEntryOfLaunch | lib/schematics.js:119-122 | a property launch not repeated later is recorded as `why[name]` = the child's outcome, and an invalid entry makes the parent invalid |
| RunGuarantees.MissingPropertyWalk | lib/schematics.js:116-118 | a missing property makes the walk fail with "Object is missing property '<name>'" and launch nothing more |
| RunGuarantees.MissingPropertyRejected | lib/schematics.js:116-118 | a missing property gives an invalid result with that message, and the name is not in `why` |
| RunGuarantees.PresentPropertyWalk | lib/schematics.js:119 | a present property launches the child on its value, and later property launches come from later rules |
| RunGuarantees.PresentPropertyRecorded | lib/schematics.js:119-123 | a present property not named again later is recorded as the child's result; the parent is invalid if that child is; the message is the walk's |
| RunGuarantees.SinglePropOutcome | lib/schematics.js:108-134 | `obj(m).prop(name, c)` is rejected with `m` off objects and with the missing message without the property; otherwise it is valid iff the child is, with `why` = {name: child result} and no message |
| RunGuarantees.EachWalk | lib/schematics.js:143-147 | an `each` rule the walk reaches launches the child on the elements, right after the earlier launches; with no later `each` rule, every later launch is a property launch |
| RunGuarantees.ResolvedEach | lib/schematics.js:146-153 | when every `each` launch runs on the same elements, the finished run of `each` launch `j` is its element results, no later run is an `each` run, and none delivers more results than there are elements |
| RunGuarantees.EachEntryOfLaunch | lib/schematics.js:146-153 | an `each` launch with no later `each` launch leaves `whys` as the child's result on every element; an invalid entry makes the parent invalid; the message is the walk's |
| RunGuarantees.EachRecorded | lib/schematics.js:143-156 | in any rule list, an `each` rule reached on an array with no `each` rule after it gives `whys[k]` = the child's result on element `k` for every index, with `whys` exactly as long as the array; an invalid element makes the parent invalid; the message is the walk's |
| RunGuarantees.SingleEachOutcome | lib/schematics.js:136-164 | `arr(m).each(c)` records the child result at every index, is invalid iff some element is, sets no message, and is valid with `whys` [] on the empty array |
| RunGuarantees.ChildResultsCarryNoValue | lib/schematics.js:119 | no nested result carries a value, because children run with retention off |
| RunGuarantees.ResolvedNoValue | lib/schematics.js:147 | every finished child run's results carry no value |
| RunGuarantees.ValidTreeConsistent | test/common.js:5-13 | a valid result is valid at every depth of its `why`/`whys` tree |
| RunGuarantees.ResolvedTreeValid | lib/schematics.js:121-150 | a finished child run that leaves the parent valid holds only results valid at every depth |
| Scenarios.ObjectWithNumberX | test/test-obj.js:27-29 | `obj().prop("x", num())` has the type rule with the default message followed by the property rule |
| Scenarios.NumberXOutcome | test/test-obj.js:45-46 | `{}` fails with "Object is missing property 'x'" and an empty `why`; `{x: 1}` is valid with a valid `why.x` |
| Scenarios.ObjectRunsAreIndependent | test/common.js:47-64 | bad, good, bad on the same validator give the same bad result twice: no state is retained between runs |
| Scenarios.MissingXMessage | lib/schematics.js:117 | the missing-property message for "x" spelled out |
| Scenarios.ArrayOfBooleansValidator | test/test-arr.js:34-35 | `arr().each(bool())` has the type rule followed by the per-element rule |
| Scenarios.ArrayOfBooleansMixed | test/test-arr.js:37 | `[true, "test"]` is invalid with no message on the array and `whys` = [valid, "Value is not a boolean"] |
| Scenarios.ArrayOfBooleansEmpty | test/test-arr.js:35 | `[]` is valid, with `whys` [] and the value echoed back |
| Scenarios.CustomEmptyMessage | test/test-arr.js:28-30 | `arr().nonEmpty("test message")` rejects `[]` with "test message" and accepts `[true]` |
| Scenarios.ObjectWithStringName | lib/schematics.js:113-126 | `obj().prop("name", str())`, with the child shared by reference |
| Scenarios.SharedChildSeesLaterChaining | lib/schematics.js:15-24 | chaining `nonEmpty` onto a child already given to `prop` turns the parent's verdict on `{name: ""}` from valid to invalid |
| Scenarios.NamedObjectOutcome | lib/schematics.js:119-123 | `{name: ""}` against the parent is valid with `str()` as the child and invalid with `why.name` "is empty" after `nonEmpty` |

## Left out

- Schematics.Outcome: applies the completions of child runs in launch order. The code records them in promise completion order, which it does not fix. Only two orders can differ: two `each` rules on one validator, or two `prop` rules with the same name. `SchematicsProperties.SwapIndependent` shows that every other pair of completions commutes.
- Asynchronous scheduling (bluebird promises) is not modelled beyond that order. Nothing else in a run depends on timing, because guards see only synchronous failures.
- lodash type tests are the constructor tests of `JsValues.Value`. `_.isObject` holds for dates, arrays and plain objects. `_.isObject` is false for `null` and `undefined`, so every validator rejects them at its type check.
- Functions and boxed primitives are not values of the model. `_.isObject` is true for a function (lib/schematics.js:132), so `obj()` accepts one and `prop` reads its own properties. `new String("")` and the other boxed primitives pass both `_.isObject` and their own type test (`_.isString` and so on). `Value` has no constructor for any of them.
- Schematics.Complete: records every property name as a `why` key. For the name `__proto__`, `result.why[name] = propResult` (lib/schematics.js:121) sets the prototype of `why` instead and adds no entry. That name can be an own property, as in `JSON.parse('{"__proto__":1}')`.
- Cyclic values are not modelled. `Value` is an inductive datatype, so an object that contains itself (`o.self = o`) cannot be written. The code accepts such a value and terminates when the validators themselves form no cycle. When the validators form a cycle, the run can recurse forever only if that cycle follows the value's cycle. `v = obj().prop("self", v)` on `o` with `o.self = o` overflows the stack. `v = obj().prop("a", v)` on the same `o` stops at once with "Object is missing property 'a'" (lib/schematics.js:116-117).
- IEEE numbers and Date arithmetic: a number carries no payload, and a Date carries only whether its time is NaN.
- Array holes, extra properties on arrays and the 2^32 - 1 index bound are not modelled.
- Rules that the JavaScript would only reach on a value of another type are given a total meaning. The type check runs first, so none of them is reached. An example is `valid` on a non-Date, where `x.getTime()` would throw (lib/schematics.js:101); the model lets it pass.
- `keepResult !== false` is a `bool`: an omitted argument is `true`.
- Module wiring (`create`, `module.exports`) and mkV's `create.tests` table are not part of this model. Neither is the test harness; test files are cited only as the behaviour they expect.
- No I/O, clock or randomness is involved.
