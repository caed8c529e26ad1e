/** Validators built and run the way the library's clients do: through the
    factories and chain methods, with results stated outright. */
module Scenarios {
  import opened Wrappers
  import opened JsValues
  import opened Schematics
  import opened RunGuarantees

  /** `obj().prop("x", num())`, as a validator and the schema it lives in. */
  method ObjectWithNumberX() returns (o: Validator, n: Validator, ghost G: Schema)
    ensures Closed(G) && Mirrors(G) && o in G && n in G
    ensures G[o] == [TypeRule(ObjKind, "Value is not an object"), PropRule("x", n)]
    ensures G[n] == [TypeRule(NumKind, "Value is not a number")]
  {
    n := Validator.Num(None);
    o := Validator.Obj(None);
    G := map[n := n.rules, o := o.rules];
    o := o.Prop("x", n, G);
    G := G[o := o.rules];
  }

  /** `obj().prop("x", num())` run on `{}`, then `{x: 1}`, then `{}` again:
      nothing from one run leaks into the next. */
  method ObjectRunsAreIndependent() returns (r1: Result, r2: Result, r3: Result)
    ensures r1 == Result(false, Some("Object is missing property 'x'"), Why(map[]), None)
    ensures r2.valid && r2.detail == Why(map["x" := Result(true, None, NoDetail, None)])
    ensures r3 == r1
  {
    var o, n, G := ObjectWithNumberX();
    var empty := JObj(map[]);
    var good := JObj(map["x" := JNum]);
    r1 := o.Run(empty, true, G);
    r2 := o.Run(good, true, G);
    r3 := o.Run(empty, true, G);
    NumberXOutcome(G, o, n);
  }

  /** `{}` and `{x: 1}` against `obj().prop("x", num())`. */
  lemma NumberXOutcome(G: Schema, o: Validator, n: Validator)
    requires Closed(G) && o in G && n in G
    requires G[o] == [TypeRule(ObjKind, "Value is not an object"), PropRule("x", n)]
    requires G[n] == [TypeRule(NumKind, "Value is not a number")]
    ensures Outcome(G, o, JObj(map[]), true) ==
              Result(false, Some("Object is missing property 'x'"), Why(map[]), None)
    ensures var r := Outcome(G, o, JObj(map["x" := JNum]), true);
            r.valid && r.detail == Why(map["x" := Result(true, None, NoDetail, None)])
  {
    SinglePropOutcome(G, o, JObj(map[]), true, "Value is not an object", "x", n);
    SinglePropOutcome(G, o, JObj(map["x" := JNum]), true, "Value is not an object", "x", n);
    FreshValidatorOutcome(G, n, JNum, false);
    MissingXMessage();
  }

  lemma MissingXMessage()
    ensures MissingPropertyMessage("x") == "Object is missing property 'x'"
  {
    assert MissingPropertyMessage("x") == "Object is missing property '" + "x" + "'";
  }

  /** `arr().each(bool())`, as a validator and the schema it lives in. */
  method ArrayOfBooleansValidator() returns (a: Validator, b: Validator, ghost G: Schema)
    ensures Closed(G) && Mirrors(G) && a in G && b in G
    ensures G[a] == [TypeRule(ArrKind, "Value is not an array"), EachRule(b)]
    ensures G[b] == [TypeRule(BoolKind, "Value is not a boolean")]
  {
    b := Validator.Bool(None);
    a := Validator.Arr(None);
    G := map[b := b.rules, a := a.rules];
    a := a.Each(b, G);
    G := G[a := a.rules];
  }

  /** `arr().each(bool())` on `[true, "test"]`: the second element fails
      with the boolean default message, so the array is invalid although
      no message is set on it. */
  method ArrayOfBooleansMixed() returns (r: Result)
    ensures !r.valid && r.msg.None? && r.value.None?
    ensures r.detail == Whys([Result(true, None, NoDetail, None),
                              Result(false, Some("Value is not a boolean"), NoDetail, None)])
  {
    var a, b, G := ArrayOfBooleansValidator();
    var xs := [JBool(true), JStr("test")];
    r := a.Run(JArr(xs), true, G);
    SingleEachOutcome(G, a, JArr(xs), true, "Value is not an array", b);
    FreshValidatorOutcome(G, b, xs[0], false);
    FreshValidatorOutcome(G, b, xs[1], false);
  }

  /** `arr().each(bool())` on `[]`: valid, with no element results. */
  method ArrayOfBooleansEmpty() returns (r: Result)
    ensures r == Result(true, None, Whys([]), Some(JArr([])))
  {
    var a, b, G := ArrayOfBooleansValidator();
    r := a.Run(JArr([]), true, G);
    SingleEachOutcome(G, a, JArr([]), true, "Value is not an array", b);
  }

  /** `arr().nonEmpty("test message")` on `[]`: the custom message replaces
      "is empty"; on `[true]` the array is echoed back. */
  method CustomEmptyMessage() returns (bad: Result, good: Result)
    ensures bad == Result(false, Some("test message"), Whys([]), None)
    ensures good == Result(true, None, Whys([]), Some(JArr([JBool(true)])))
  {
    var a := Validator.Arr(None);
    ghost var G: Schema := map[a := a.rules];
    a := a.NonEmpty(Some("test message"), G);
    G := G[a := a.rules];
    bad := a.Run(JArr([]), true, G);
    good := a.Run(JArr([JBool(true)]), true, G);
    NonEmptyOutcome(G, a, JArr([]), true, "Value is not an array", "test message");
    NonEmptyOutcome(G, a, JArr([JBool(true)]), true, "Value is not an array", "test message");
  }

  /** `obj().prop("name", s)` with `s = str()`, as validators and their schema. */
  method ObjectWithStringName() returns (o: Validator, s: Validator, ghost G: Schema)
    ensures fresh(o) && fresh(s)
    ensures Closed(G) && Mirrors(G) && o in G && s in G
    ensures G[o] == [TypeRule(ObjKind, "Value is not an object"), PropRule("name", s)]
    ensures G[s] == [TypeRule(StrKind, "Value is not a string")]
  {
    s := Validator.Str(None);
    o := Validator.Obj(None);
    G := map[s := s.rules, o := o.rules];
    o := o.Prop("name", s, G);
    G := G[o := o.rules];
  }

  /** A child validator is held by reference: chaining `nonEmpty` onto it
      after it was handed to `prop` changes what the parent accepts. */
  method SharedChildSeesLaterChaining() returns (before: Result, after: Result)
    ensures before.valid && before.detail == Why(map["name" := Result(true, None, NoDetail, None)])
    ensures !after.valid && after.msg.None?
    ensures after.detail == Why(map["name" := Result(false, Some("is empty"), NoDetail, None)])
  {
    var o, s, G := ObjectWithStringName();
    var x := JObj(map["name" := JStr("")]);
    before := o.Run(x, true, G);
    NamedObjectOutcome(G, o, s);
    s := s.NonEmpty(None, G);
    G := G[s := s.rules];
    after := o.Run(x, true, G);
    NamedObjectOutcome(G, o, s);
  }

  /** `{name: ""}` against `obj().prop("name", s)`, for `s` as `str()` and
      as `str().nonEmpty()`. */
  lemma NamedObjectOutcome(G: Schema, o: Validator, s: Validator)
    requires Closed(G) && o in G && s in G
    requires G[o] == [TypeRule(ObjKind, "Value is not an object"), PropRule("name", s)]
    requires G[s] == [TypeRule(StrKind, "Value is not a string")] ||
             G[s] == [TypeRule(StrKind, "Value is not a string"), NonEmptyRule("is empty")]
    ensures var r := Outcome(G, o, JObj(map["name" := JStr("")]), true);
            if |G[s]| == 1 then r.valid && r.detail == Why(map["name" := Result(true, None, NoDetail, None)])
            else !r.valid && r.msg.None? &&
                 r.detail == Why(map["name" := Result(false, Some("is empty"), NoDetail, None)])
  {
    var x := JObj(map["name" := JStr("")]);
    SinglePropOutcome(G, o, x, true, "Value is not an object", "name", s);
    if |G[s]| == 1 {
      FreshValidatorOutcome(G, s, JStr(""), false);
    } else {
      NonEmptyOutcome(G, s, JStr(""), false, "Value is not a string", "is empty");
    }
  }
}
