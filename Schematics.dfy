/** The validator-combinator engine: validators built by six factories,
    extended in place by chain methods, and run against a value in two
    phases (synchronous rule walk, then completion of the child runs that
    walk launched). */
module Schematics {
  import opened Wrappers
  import opened JsValues

  /** The base type a validator checks; it fixes the chain methods available
      and the shape of the result accumulator. */
  datatype Kind = BoolKind | NumKind | StrKind | DateKind | ObjKind | ArrKind

  function DefaultMessage(k: Kind): string
  {
    match k
    case BoolKind => "Value is not a boolean"
    case NumKind => "Value is not a number"
    case StrKind => "Value is not a string"
    case DateKind => "Value is not a date"
    case ObjKind => "Value is not an object"
    case ArrKind => "Value is not an array"
  }

  /** The type predicate each factory seeds its validator with. */
  predicate HasKind(k: Kind, x: Value)
    ensures HasKind(k, x) ==> !x.JUndefined? && !x.JNull?
    ensures HasKind(k, x) && (k == DateKind || k == ArrKind) ==> IsObject(x)
  {
    match k
    case BoolKind => IsBoolean(x)
    case NumKind => IsNumber(x)
    case StrKind => IsString(x)
    case DateKind => IsDate(x)
    case ObjKind => IsObject(x)
    case ArrKind => IsArray(x)
  }

  const EmptyMessage := "is empty"
  const InvalidDateMessage := "Value is an invalid date"

  function MissingPropertyMessage(name: string): string
  {
    "Object is missing property '" + name + "'"
  }

  /** `customMsg || defaultMsg`: an absent or empty custom message is falsy. */
  function MessageOr(customMsg: Option<string>, defaultMsg: string): (m: string)
    ensures customMsg.Some? && customMsg.value != "" ==> m == customMsg.value
    ensures customMsg.None? || customMsg.value == "" ==> m == defaultMsg
    ensures defaultMsg != "" ==> m != ""
  {
    if customMsg.Some? && customMsg.value != "" then customMsg.value else defaultMsg
  }

  /** One entry of a validator's rule list. A child validator is held by
      reference, so chaining on it later is seen by every parent. */
  datatype Rule =
    | TypeRule(kind: Kind, msg: string)
    | NonEmptyRule(msg: string)
    | ValidDateRule(msg: string)
    | PropRule(name: string, child: Validator)
    | EachRule(child: Validator)
  {
    predicate HasChild() { PropRule? || EachRule? }
  }

  /** The rules a chain method of kind `k` can append. */
  predicate Allowed(k: Kind, r: Rule)
  {
    match r
    case TypeRule(_, _) => false
    case NonEmptyRule(_) => k == StrKind || k == ArrKind
    case ValidDateRule(_) => k == DateKind
    case PropRule(_, _) => k == ObjKind
    case EachRule(_) => k == ArrKind
  }

  function Children(rules: seq<Rule>): set<Validator>
  {
    set i | 0 <= i < |rules| && rules[i].HasChild() :: rules[i].child
  }

  /** The outcome of one run: `value` is echoed back only on success when
      asked for. */
  datatype Result = Result(valid: bool, msg: Option<string>, detail: Detail, value: Option<Value>)

  /** The child results a run's result schema holds: `why` (by property
      name) for object validators, `whys` (by index) for array validators,
      nothing for the others. */
  datatype Detail = NoDetail | Why(why: map<string, Result>) | Whys(whys: seq<Result>)

  /** The result schema `makeResultSchema` gives kind `k`, filled in. */
  function DetailOf(k: Kind, why: map<string, Result>, whys: seq<Result>): (d: Detail)
    ensures d.Why? <==> k == ObjKind
    ensures d.Whys? <==> k == ArrKind
    ensures d.Why? ==> d.why == why
    ensures d.Whys? ==> d.whys == whys
  {
    if k == ObjKind then Why(why) else if k == ArrKind then Whys(whys) else NoDetail
  }

  predicate AllValid(rs: seq<Result>)
  {
    forall i :: 0 <= i < |rs| ==> rs[i].valid
  }

  // ----- phase 1: the synchronous walk over the rules -----

  /** A child run a rule started and whose result arrives later. */
  datatype Launch =
    | LaunchProp(name: string, child: Validator, sub: Value)
    | LaunchEach(child: Validator, subs: seq<Value>)

  /** What invoking a rule does at once: nothing, a failure, or a launch. */
  datatype Verdict = Pass | Fail(msg: string) | Launched(launch: Launch)

  ghost predicate LaunchBelow(l: Launch, x: Value)
  {
    match l
    case LaunchProp(_, _, y) => Below(y, x)
    case LaunchEach(_, ys) => forall y :: y in ys ==> Below(y, x)
  }

  /** The body of a rule, once its guard has seen `result.valid`. */
  function Invoke(r: Rule, x: Value): (d: Verdict)
    ensures d.Launched? ==> r.HasChild() && d.launch.child == r.child && LaunchBelow(d.launch, x)
    ensures d.Launched? ==> (d.launch.LaunchProp? <==> r.PropRule?)
    ensures d.Launched? && d.launch.LaunchProp? ==>
              d.launch.name == r.name && OwnProperty(x, r.name) == Some(d.launch.sub)
    ensures d.Launched? && d.launch.LaunchEach? ==> d.launch.subs == Elements(x)
  {
    match r
    case TypeRule(k, m) => if HasKind(k, x) then Pass else Fail(m)
    case NonEmptyRule(m) => if HasZeroLength(x) then Fail(m) else Pass
    case ValidDateRule(m) => if x == JDate(true) then Fail(m) else Pass
    case PropRule(n, c) =>
      (match OwnProperty(x, n)
       case None => Fail(MissingPropertyMessage(n))
       case Some(y) => Launched(LaunchProp(n, c, y)))
    case EachRule(c) => Launched(LaunchEach(c, Elements(x)))
  }

  /** The accumulator state the synchronous walk leaves behind. */
  datatype Sync = Sync(valid: bool, msg: Option<string>, launches: seq<Launch>)

  /** One rule invocation: the guard `if (!result.valid) return`, then the body. */
  function Step(s: Sync, r: Rule, x: Value): (t: Sync)
    ensures !s.valid ==> t == s
    ensures t.valid ==> s.valid && t.msg == s.msg
    ensures !t.valid && s.valid ==> Invoke(r, x).Fail? && t.msg == Some(Invoke(r, x).msg)
    ensures t.launches == s.launches || (s.valid && Invoke(r, x).Launched? && t.launches == s.launches + [Invoke(r, x).launch])
  {
    if !s.valid then s
    else match Invoke(r, x)
      case Pass => s
      case Fail(m) => Sync(false, Some(m), s.launches)
      case Launched(l) => s.(launches := s.launches + [l])
  }

  /** The synchronous walk over `rules` in list order, from a fresh accumulator. */
  function Phase1(rules: seq<Rule>, x: Value): (s: Sync)
    ensures s.valid <==> s.msg.None?
  {
    if rules == [] then Sync(true, None, [])
    else Step(Phase1(rules[..|rules| - 1], x), rules[|rules| - 1], x)
  }

  /** Every launch of the walk is on a value below `x` and names a child
      validator of one of the rules. */
  lemma {:induction false} Phase1Launches(rules: seq<Rule>, x: Value)
    ensures forall l :: l in Phase1(rules, x).launches ==> LaunchBelow(l, x) && l.child in Children(rules)
  {
    if rules != [] {
      var prefix := rules[..|rules| - 1];
      Phase1Launches(prefix, x);
      assert Children(prefix) <= Children(rules) by {
        forall c | c in Children(prefix) ensures c in Children(rules) {
          var i :| 0 <= i < |prefix| && prefix[i].HasChild() && prefix[i].child == c;
          assert rules[i] == prefix[i];
        }
      }
    }
  }

  // ----- phase 2: completion of the launched child runs -----

  datatype Acc = Acc(valid: bool, msg: Option<string>, why: map<string, Result>, whys: seq<Result>)

  /** A finished child run, as its `.then` callback receives it. */
  datatype Done = PropDone(name: string, result: Result) | EachDone(results: seq<Result>)

  /** The `.then` callbacks: `why[name] = r`, or `whys[i] = rs[i]` for every
      index in order; either way an invalid child makes the parent invalid. */
  function Complete(a: Acc, d: Done): (b: Acc)
    ensures b.msg == a.msg
    ensures d.PropDone? ==> b.whys == a.whys && d.name in b.why && b.why[d.name] == d.result
    ensures d.PropDone? ==> (b.valid <==> a.valid && d.result.valid)
    ensures d.EachDone? ==> b.why == a.why && |d.results| <= |b.whys| && b.whys[..|d.results|] == d.results
    ensures d.EachDone? ==> (b.valid <==> a.valid && AllValid(d.results))
  {
    match d
    case PropDone(n, r) => a.(why := a.why[n := r], valid := a.valid && r.valid)
    case EachDone(rs) =>
      a.(whys := Overwrite(a.whys, rs), valid := a.valid && AllValid(rs))
  }

  /** Phase 2: the completions `ds` applied to `a` in order. Completion never
      touches the message phase 1 left, and never makes an invalid result
      valid again. */
  function Fold(a: Acc, ds: seq<Done>): (r: Acc)
    ensures r.msg == a.msg
    ensures r.valid ==> a.valid
  {
    if ds == [] then a else Complete(Fold(a, ds[..|ds| - 1]), ds[|ds| - 1])
  }

  lemma FoldSnoc(a: Acc, ds: seq<Done>, d: Done)
    ensures Fold(a, ds + [d]) == Complete(Fold(a, ds), d)
  {
    assert (ds + [d])[..|ds|] == ds;
  }

  /** `whys` after the assignment `whys[i] = r`, for an index at most one
      past the end: entry `i` becomes `r` and every other entry is kept. */
  function Store(whys: seq<Result>, i: nat, r: Result): (w: seq<Result>)
    requires i <= |whys|
    ensures |w| == if i < |whys| then |whys| else i + 1
    ensures w[i] == r && forall j :: 0 <= j < |whys| && j != i ==> w[j] == whys[j]
  {
    if i < |whys| then whys[i := r] else whys + [r]
  }

  /** `whys` after `whys[i] = rs[i]` for every index of `rs`: the first
      `|rs|` entries are replaced (or added), the rest are kept. */
  function Overwrite(whys: seq<Result>, rs: seq<Result>): (w: seq<Result>)
    ensures |w| == if |rs| < |whys| then |whys| else |rs|
  {
    rs + (if |rs| < |whys| then whys[|rs|..] else [])
  }

  /** A rule list the factories and chain methods can build for kind `k`:
      the type check first, then only rules the kind's chain methods append. */
  predicate WellFormedRules(k: Kind, rules: seq<Rule>)
  {
    && |rules| >= 1
    && rules[0].TypeRule? && rules[0].kind == k
    && forall i :: 1 <= i < |rules| ==> Allowed(k, rules[i])
  }

  /** The rule lists of a set of validators, as they stand at one moment. */
  type Schema = map<Validator, seq<Rule>>

  /** Every list in `G` is well formed and every child it names is in `G`. */
  ghost predicate Closed(G: Schema)
  {
    forall v :: v in G ==> WellFormedRules(v.kind, G[v]) && Children(G[v]) <= G.Keys
  }

  /** The heap agrees with `G`: each validator's `rules` field is its entry. */
  ghost predicate Mirrors(G: Schema)
    reads G.Keys
  {
    forall v :: v in G ==> v.rules == G[v]
  }

  /** `v.run(x, keep)` when the validators' rules are `G`: a fresh
      accumulator, phase 1, then phase 2 applying completions in launch
      order, then `value` attached on success. */
  ghost function Outcome(G: Schema, v: Validator, x: Value, keep: bool): (r: Result)
    requires Closed(G) && v in G
    ensures r.msg.Some? ==> !r.valid
    ensures r.value.Some? <==> r.valid && keep
    ensures r.value.Some? ==> r.value.value == x
    ensures r.detail.Why? <==> v.kind == ObjKind
    ensures r.detail.Whys? <==> v.kind == ArrKind
    decreases Rank(x), x, 3, 0
  {
    var s := Phase1(G[v], x);
    Phase1Launches(G[v], x);
    var a := Fold(Acc(s.valid, s.msg, map[], []), Resolved(G, s.launches, |s.launches|, x));
    Result(a.valid, a.msg,
           DetailOf(v.kind, a.why, a.whys),
           if a.valid && keep then Some(x) else None)
  }

  /** The finished child runs behind the first `n` launches of `ls`, in
      launch order. */
  ghost function Resolved(G: Schema, ls: seq<Launch>, n: nat, x: Value): (ds: seq<Done>)
    requires Closed(G) && n <= |ls|
    requires forall l :: l in ls ==> LaunchBelow(l, x) && l.child in G
    ensures |ds| == n
    decreases Rank(x), x, 2, n
  {
    if n == 0 then []
    else
      assert ls[n - 1] in ls;
      Resolved(G, ls, n - 1, x) + [Resolve(G, ls[n - 1], x)]
  }

  /** The child run(s) behind one launch, with value retention off. */
  ghost function Resolve(G: Schema, l: Launch, x: Value): Done
    requires Closed(G) && LaunchBelow(l, x) && l.child in G
    decreases Rank(x), x, 1, 0
  {
    match l
    case LaunchProp(n, c, y) => PropDone(n, Outcome(G, c, y, false))
    case LaunchEach(c, ys) => EachDone(RunAll(G, c, ys, |ys|, x))
  }

  /** `c` run on each of the first `n` elements of `ys`, results by index. */
  ghost function RunAll(G: Schema, c: Validator, ys: seq<Value>, n: nat, x: Value): (rs: seq<Result>)
    requires Closed(G) && c in G && n <= |ys|
    requires forall y :: y in ys ==> Below(y, x)
    ensures |rs| == n
    decreases Rank(x), x, 0, n
  {
    if n == 0 then []
    else
      assert ys[n - 1] in ys;
      assert Below(ys[n - 1], x);
      RunAll(G, c, ys, n - 1, x) + [Outcome(G, c, ys[n - 1], false)]
  }

  class Validator {
    const kind: Kind
    var rules: seq<Rule>

    /** A factory call: a fresh validator whose only rule is the type check. */
    constructor (k: Kind, customMsg: Option<string>)
      ensures kind == k && rules == [TypeRule(k, MessageOr(customMsg, DefaultMessage(k)))]
    {
      kind := k;
      rules := [TypeRule(k, MessageOr(customMsg, DefaultMessage(k)))];
    }

    // ----- the six factories -----

    static method Bool(customMsg: Option<string>) returns (v: Validator)
      ensures fresh(v)
      ensures v.kind == BoolKind && v.rules == [TypeRule(BoolKind, MessageOr(customMsg, "Value is not a boolean"))]
    {
      v := new Validator(BoolKind, customMsg);
    }

    static method Num(customMsg: Option<string>) returns (v: Validator)
      ensures fresh(v)
      ensures v.kind == NumKind && v.rules == [TypeRule(NumKind, MessageOr(customMsg, "Value is not a number"))]
    {
      v := new Validator(NumKind, customMsg);
    }

    static method Str(customMsg: Option<string>) returns (v: Validator)
      ensures fresh(v)
      ensures v.kind == StrKind && v.rules == [TypeRule(StrKind, MessageOr(customMsg, "Value is not a string"))]
    {
      v := new Validator(StrKind, customMsg);
    }

    static method Date(customMsg: Option<string>) returns (v: Validator)
      ensures fresh(v)
      ensures v.kind == DateKind && v.rules == [TypeRule(DateKind, MessageOr(customMsg, "Value is not a date"))]
    {
      v := new Validator(DateKind, customMsg);
    }

    static method Obj(customMsg: Option<string>) returns (v: Validator)
      ensures fresh(v)
      ensures v.kind == ObjKind && v.rules == [TypeRule(ObjKind, MessageOr(customMsg, "Value is not an object"))]
    {
      v := new Validator(ObjKind, customMsg);
    }

    static method Arr(customMsg: Option<string>) returns (v: Validator)
      ensures fresh(v)
      ensures v.kind == ArrKind && v.rules == [TypeRule(ArrKind, MessageOr(customMsg, "Value is not an array"))]
    {
      v := new Validator(ArrKind, customMsg);
    }

    // ----- chain methods: each appends one rule to this validator and returns it -----
    // `G` is the caller's view of the validators; afterwards it is `G[this := rules]`.

    /** `nonEmpty(customMsg)` on string and array validators. */
    method NonEmpty(customMsg: Option<string>, ghost G: Schema) returns (self: Validator)
      requires kind == StrKind || kind == ArrKind
      requires Closed(G) && Mirrors(G) && this in G
      modifies this
      ensures self == this
      ensures rules == old(rules) + [NonEmptyRule(MessageOr(customMsg, EmptyMessage))]
      ensures Closed(G[this := rules]) && Mirrors(G[this := rules])
    {
      rules := rules + [NonEmptyRule(MessageOr(customMsg, EmptyMessage))];
      self := this;
    }

    /** `valid(customMsg)` on date validators. */
    method Valid(customMsg: Option<string>, ghost G: Schema) returns (self: Validator)
      requires kind == DateKind
      requires Closed(G) && Mirrors(G) && this in G
      modifies this
      ensures self == this
      ensures rules == old(rules) + [ValidDateRule(MessageOr(customMsg, InvalidDateMessage))]
      ensures Closed(G[this := rules]) && Mirrors(G[this := rules])
    {
      rules := rules + [ValidDateRule(MessageOr(customMsg, InvalidDateMessage))];
      self := this;
    }

    /** `prop(name, child)` on object validators; `child` is shared, not copied. */
    method Prop(name: string, child: Validator, ghost G: Schema) returns (self: Validator)
      requires kind == ObjKind
      requires Closed(G) && Mirrors(G) && this in G && child in G
      modifies this
      ensures self == this
      ensures rules == old(rules) + [PropRule(name, child)]
      ensures Closed(G[this := rules]) && Mirrors(G[this := rules])
    {
      rules := rules + [PropRule(name, child)];
      self := this;
    }

    /** `each(child)` on array validators; `child` is shared, not copied. */
    method Each(child: Validator, ghost G: Schema) returns (self: Validator)
      requires kind == ArrKind
      requires Closed(G) && Mirrors(G) && this in G && child in G
      modifies this
      ensures self == this
      ensures rules == old(rules) + [EachRule(child)]
      ensures Closed(G[this := rules]) && Mirrors(G[this := rules])
    {
      rules := rules + [EachRule(child)];
      self := this;
    }

    // ----- run -----

    /** `run(x, keepResult)`: every rule is invoked in list order against a
        fresh accumulator; the child runs started by `prop` and `each` are
        completed afterwards, so they never stop a later rule from starting. */
    method Run(x: Value, keepResult: bool, ghost G: Schema) returns (r: Result)
      requires Closed(G) && Mirrors(G) && this in G
      ensures r == Outcome(G, this, x, keepResult)
      decreases Rank(x), x, 3
    {
      var valid, msg, launches := InvokeRules(x, G);
      var acc := CompleteAll(launches, x, Acc(valid, msg, map[], []), G);
      r := Result(acc.valid, acc.msg,
                  DetailOf(kind, acc.why, acc.whys),
                  if acc.valid && keepResult then Some(x) else None);
    }

    /** Phase 1 of `run`: `rules.map(rule => rule(result, x, fail))`, where
        only synchronous failures change the flag the guards read. */
    method InvokeRules(x: Value, ghost G: Schema) returns (valid: bool, msg: Option<string>, launches: seq<Launch>)
      requires Closed(G) && Mirrors(G) && this in G
      ensures Sync(valid, msg, launches) == Phase1(G[this], x)
      ensures forall l :: l in launches ==> LaunchBelow(l, x) && l.child in G
    {
      assert rules == G[this] && Children(rules) <= G.Keys;
      valid, msg, launches := true, None, [];
      var i := 0;
      while i < |rules|
        invariant 0 <= i <= |rules|
        invariant Sync(valid, msg, launches) == Phase1(rules[..i], x)
      {
        assert rules[..i + 1][..i] == rules[..i];
        if valid {
          match Invoke(rules[i], x) {
            case Pass =>
            case Fail(m) =>
              msg, valid := Some(m), false;
            case Launched(l) =>
              launches := launches + [l];
          }
        }
        i := i + 1;
      }
      assert rules[..i] == rules;
      Phase1Launches(rules, x);
    }

    /** Phase 2 of `run`: `BPromise.all(pending)` waits for every launched
        child run, whose `.then` callbacks update the accumulator. */
    static method CompleteAll(launches: seq<Launch>, ghost x: Value, acc0: Acc, ghost G: Schema) returns (acc: Acc)
      requires Closed(G) && Mirrors(G)
      requires forall l :: l in launches ==> LaunchBelow(l, x) && l.child in G
      ensures acc == Fold(acc0, Resolved(G, launches, |launches|, x))
      decreases Rank(x), x, 2
    {
      acc := acc0;
      var j := 0;
      while j < |launches|
        invariant j <= |launches| && SettledSoFar(G, acc0, launches, x, j, acc)
        decreases |launches| - j
      {
        assert launches[j] in launches;
        ghost var accJ := acc;
        acc := CompleteLaunch(launches[j], x, acc, G);
        ResolvedNext(G, acc0, launches, j, x, accJ, acc);
        j := j + 1;
      }
    }

    /** The `.then` callback(s) of one launched child run. */
    static method CompleteLaunch(l: Launch, ghost x: Value, acc0: Acc, ghost G: Schema) returns (acc: Acc)
      requires Closed(G) && Mirrors(G) && LaunchBelow(l, x) && l.child in G
      ensures acc == Complete(acc0, Resolve(G, l, x))
      decreases Rank(x), x, 1
    {
      match l {
        case LaunchProp(n, c, y) =>
          var cr := c.Run(y, false, G);
          acc := acc0.(why := acc0.why[n := cr]);
          if !cr.valid { acc := acc.(valid := false); }
        case LaunchEach(c, ys) =>
          var whys, valid := CompleteEach(c, ys, x, acc0.whys, acc0.valid, G);
          acc := acc0.(whys := whys, valid := valid);
      }
    }

    /** The `.then` callbacks of one `each` launch: element `k`'s result is
        written to `whys[k]`, and an invalid one clears `valid`. */
    static method CompleteEach(c: Validator, ys: seq<Value>, ghost x: Value, whys0: seq<Result>, valid0: bool,
                               ghost G: Schema) returns (whys: seq<Result>, valid: bool)
      requires Closed(G) && Mirrors(G) && c in G
      requires forall y :: y in ys ==> Below(y, x)
      ensures whys == Overwrite(whys0, RunAll(G, c, ys, |ys|, x))
      ensures valid == (valid0 && AllValid(RunAll(G, c, ys, |ys|, x)))
      decreases Rank(x), x, 0
    {
      whys, valid := whys0, valid0;
      var k := 0;
      while k < |ys|
        invariant k <= |ys| && EachSoFar(G, c, ys, x, whys0, valid0, k, whys, valid)
        decreases |ys| - k
      {
        assert ys[k] in ys;
        var cr := c.Run(ys[k], false, G);
        ghost var whysK, validK := whys, valid;
        if !cr.valid { valid := false; }
        whys := Store(whys, k, cr);
        EachStep(G, c, ys, k, x, whys0, valid0, whysK, validK, cr, whys, valid);
        k := k + 1;
      }
    }
  }

  /** The account of an `each` launch after the callbacks of its first `k`
      elements have run. */
  ghost predicate EachSoFar(G: Schema, c: Validator, ys: seq<Value>, x: Value, whys0: seq<Result>, valid0: bool,
                            k: nat, whys: seq<Result>, valid: bool)
    requires Closed(G) && c in G && k <= |ys|
    requires forall y :: y in ys ==> Below(y, x)
  {
    && whys == Overwrite(whys0, RunAll(G, c, ys, k, x))
    && valid == (valid0 && AllValid(RunAll(G, c, ys, k, x)))
  }

  /** The accumulator after the callbacks of the first `j` launches have run. */
  ghost predicate SettledSoFar(G: Schema, a0: Acc, ls: seq<Launch>, x: Value, j: nat, a: Acc)
    requires Closed(G) && j <= |ls|
    requires forall l :: l in ls ==> LaunchBelow(l, x) && l.child in G
  {
    a == Fold(a0, Resolved(G, ls, j, x))
  }

  lemma ResolvedNext(G: Schema, a0: Acc, ls: seq<Launch>, j: nat, x: Value, a: Acc, a': Acc)
    requires Closed(G) && j < |ls|
    requires forall l :: l in ls ==> LaunchBelow(l, x) && l.child in G
    requires SettledSoFar(G, a0, ls, x, j, a)
    requires ls[j] in ls && a' == Complete(a, Resolve(G, ls[j], x))
    ensures SettledSoFar(G, a0, ls, x, j + 1, a')
  {
    var ds := Resolved(G, ls, j, x);
    var d := Resolve(G, ls[j], x);
    assert Resolved(G, ls, j + 1, x) == ds + [d];
    FoldSnoc(a0, ds, d);
  }

  /** One `.then` callback of an `each` launch: the write and the flag update
      carry the loop's account of the results so far one element further. */
  lemma EachStep(G: Schema, c: Validator, ys: seq<Value>, k: nat, x: Value, whys0: seq<Result>, valid0: bool,
                 whys: seq<Result>, valid: bool, r: Result, whys': seq<Result>, valid': bool)
    requires Closed(G) && c in G && k < |ys|
    requires forall y :: y in ys ==> Below(y, x)
    requires EachSoFar(G, c, ys, x, whys0, valid0, k, whys, valid)
    requires r == Outcome(G, c, ys[k], false)
    requires valid' == (valid && r.valid)
    requires k <= |whys| && whys' == Store(whys, k, r)
    ensures EachSoFar(G, c, ys, x, whys0, valid0, k + 1, whys', valid')
  {
    var done := RunAll(G, c, ys, k, x);
    assert RunAll(G, c, ys, k + 1, x) == done + [r];
    AllValidAppend(done, r);
    WriteInOrder(done, r, whys0);
  }

  lemma AllValidAppend(rs: seq<Result>, r: Result)
    ensures AllValid(rs + [r]) == (AllValid(rs) && r.valid)
  {
    assert forall i :: 0 <= i < |rs| ==> (rs + [r])[i] == rs[i];
    assert (rs + [r])[|rs|] == r;
  }

  /** Writing `whys[k] = r` when the first `k` entries are already the new
      results: the write overwrites an old entry or extends the array. */
  lemma WriteInOrder(done: seq<Result>, r: Result, whys0: seq<Result>)
    ensures Store(Overwrite(whys0, done), |done|, r) == Overwrite(whys0, done + [r])
  {
  }
}
